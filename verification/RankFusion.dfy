/** Reciprocal rank fusion of ranked lanes: `src/retrieval/mod.rs`. */
module RankFusion {
  import opened Collections
  import opened Ordering

  type Entry = (string, real)

  type Lane = seq<Entry>

  /** How scores add up and what a rank, counted from one, is worth. Addition need not be associative. */
  datatype Arith = Arith(add: (real, real) -> real, share: nat -> real)

  function Reciprocal(x: real): real {
    if x <= 0.0 then 0.0 else 1.0 / x
  }

  /** Exact arithmetic with the fusion constant `c`. */
  function Exact(c: real): Arith
    requires c > -1.0
  {
    Arith((a, b) => a + b, r => Reciprocal(c + r as real))
  }

  /** Highest score first, ties by id. */
  predicate ByScore(a: Entry, b: Entry) {
    a.1 > b.1 || (a.1 == b.1 && LexLeq(a.0, b.0))
  }

  lemma ByScoreIsTotalOrder()
    ensures TotalOrder(ByScore)
  {
    LexIsTotalOrder();
  }

  function Ids(entries: seq<Entry>): set<string> {
    set e | e in entries :: e.0
  }

  function AllIds(lanes: seq<Lane>): set<string> {
    if lanes == [] then {} else AllIds(lanes[..|lanes| - 1]) + Ids(lanes[|lanes| - 1])
  }

  ghost predicate UniqueIds(entries: seq<Entry>) {
    forall i, j :: 0 <= i < j < |entries| ==> entries[i].0 != entries[j].0
  }

  /** The score of `id` after the first `n` ranks of a sorted lane, starting from `base`. */
  function AfterRanks(ar: Arith, sorted: Lane, n: nat, id: string, base: real): real
    requires n <= |sorted|
  {
    if n == 0 then base
    else
      var before := AfterRanks(ar, sorted, n - 1, id, base);
      if sorted[n - 1].0 == id then ar.add(before, ar.share(n)) else before
  }

  function AfterLane(ar: Arith, lane: Lane, id: string, base: real): real {
    SortPermutes(ByScore, lane);
    AfterRanks(ar, Sort(ByScore, lane), |lane|, id, base)
  }

  /** The fused score of `id`: its shares, lane by lane and rank by rank. */
  function Fused(ar: Arith, lanes: seq<Lane>, id: string): real {
    if lanes == [] then 0.0
    else AfterLane(ar, lanes[|lanes| - 1], id, Fused(ar, lanes[..|lanes| - 1], id))
  }

  /** Every id of the lanes once, with its fused score, best first. */
  ghost predicate IsFusion(out: seq<Entry>, ar: Arith, lanes: seq<Lane>) {
    && UniqueIds(out) && SortedBy(ByScore, out) && Ids(out) == AllIds(lanes)
    && (forall i :: 0 <= i < |out| ==> out[i].1 == Fused(ar, lanes, out[i].0))
  }

  // ----- The algorithm -----

  function ScoreOr(scores: map<string, real>, id: string): real {
    if id in scores then scores[id] else 0.0
  }

  /** The map after the first `n` ranks of a lane. */
  ghost predicate RanksAdded(ar: Arith, sorted: Lane, n: nat, before: map<string, real>, scores: map<string, real>)
    requires n <= |sorted|
  {
    && scores.Keys == before.Keys + Ids(sorted[..n])
    && forall id :: id in scores ==> scores[id] == AfterRanks(ar, sorted, n, id, ScoreOr(before, id))
  }

  method AddLane(ar: Arith, lane: Lane, before: map<string, real>) returns (scores: map<string, real>)
    ensures scores.Keys == before.Keys + Ids(lane)
    ensures forall id :: id in scores ==> scores[id] == AfterLane(ar, lane, id, ScoreOr(before, id))
  {
    var sorted := Sort(ByScore, lane);
    SortPermutes(ByScore, lane);
    scores := before;
    var rank := 0;
    while rank < |sorted|
      invariant 0 <= rank <= |sorted| && RanksAdded(ar, sorted, rank, before, scores)
    {
      var item := sorted[rank].0;
      AddRank(ar, sorted, rank, before, scores);
      scores := scores[item := ar.add(ScoreOr(scores, item), ar.share(rank + 1))];
      rank := rank + 1;
    }
    assert sorted[..rank] == sorted;
    assert Ids(sorted) == Ids(lane) by {
      assert forall e :: e in sorted <==> e in lane;
    }
  }

  lemma AddRank(ar: Arith, sorted: Lane, n: nat, before: map<string, real>, scores: map<string, real>)
    requires n < |sorted| && RanksAdded(ar, sorted, n, before, scores)
    ensures var id := sorted[n].0;
            RanksAdded(ar, sorted, n + 1, before, scores[id := ar.add(ScoreOr(scores, id), ar.share(n + 1))])
  {
    var item := sorted[n].0;
    assert sorted[..n + 1] == sorted[..n] + [sorted[n]];
    assert Ids(sorted[..n + 1]) == Ids(sorted[..n]) + {item};
    AbsentKeepsBase(ar, sorted, n, item, 0.0);
  }

  lemma {:induction false} AbsentKeepsBase(ar: Arith, sorted: Lane, n: nat, id: string, base: real)
    requires n <= |sorted|
    ensures id !in Ids(sorted[..n]) ==> AfterRanks(ar, sorted, n, id, base) == base
  {
    if n > 0 {
      AbsentKeepsBase(ar, sorted, n - 1, id, base);
      assert sorted[..n] == sorted[..n - 1] + [sorted[n - 1]];
      assert sorted[n - 1] in sorted[..n];
      assert Ids(sorted[..n - 1]) <= Ids(sorted[..n]);
    }
  }

  lemma AbsentFromLane(ar: Arith, lane: Lane, id: string, base: real)
    requires id !in Ids(lane)
    ensures AfterLane(ar, lane, id, base) == base
  {
    var sorted := Sort(ByScore, lane);
    SortPermutes(ByScore, lane);
    assert sorted[..|lane|] == sorted;
    AbsentKeepsBase(ar, sorted, |lane|, id, base);
  }

  lemma {:induction false} AbsentScoresZero(ar: Arith, lanes: seq<Lane>, id: string)
    requires id !in AllIds(lanes)
    ensures Fused(ar, lanes, id) == 0.0
  {
    if lanes != [] {
      AbsentScoresZero(ar, lanes[..|lanes| - 1], id);
      AbsentFromLane(ar, lanes[|lanes| - 1], id, 0.0);
    }
  }

  /** The map's entries in some order: the hash map's own is unspecified. */
  method Enumerate(scores: map<string, real>) returns (out: seq<Entry>)
    ensures UniqueIds(out) && Ids(out) == scores.Keys
    ensures forall e :: e in out ==> e.0 in scores && e.1 == scores[e.0]
  {
    var left := scores.Keys;
    out := [];
    while left != {}
      invariant left <= scores.Keys && UniqueIds(out) && Ids(out) == scores.Keys - left
      invariant forall e :: e in out ==> e.0 in scores && e.1 == scores[e.0]
      decreases left
    {
      var id :| id in left;
      forall i | 0 <= i < |out| ensures out[i].0 != id {
        assert out[i] in out;
        assert out[i].0 in Ids(out);
      }
      assert Ids(out + [(id, scores[id])]) == Ids(out) + {id};
      out := out + [(id, scores[id])];
      left := left - {id};
    }
  }

  method RrfFuse(ar: Arith, lanes: seq<Lane>) returns (out: seq<Entry>)
    ensures IsFusion(out, ar, lanes)
  {
    var scores: map<string, real> := map[];
    var i := 0;
    while i < |lanes|
      invariant 0 <= i <= |lanes| && scores.Keys == AllIds(lanes[..i])
      invariant forall id :: id in scores ==> scores[id] == Fused(ar, lanes[..i], id)
    {
      assert lanes[..i + 1][..i] == lanes[..i];
      forall id | id !in scores ensures Fused(ar, lanes[..i], id) == 0.0 {
        AbsentScoresZero(ar, lanes[..i], id);
      }
      scores := AddLane(ar, lanes[i], scores);
      i := i + 1;
    }
    assert lanes[..i] == lanes;
    var entries := Enumerate(scores);
    SortedEntriesFuse(ar, lanes, scores, entries);
    out := Sort(ByScore, entries);
  }

  lemma SortedEntriesFuse(ar: Arith, lanes: seq<Lane>, scores: map<string, real>, entries: seq<Entry>)
    requires scores.Keys == AllIds(lanes) && forall id :: id in scores ==> scores[id] == Fused(ar, lanes, id)
    requires UniqueIds(entries) && Ids(entries) == scores.Keys
    requires forall e :: e in entries ==> e.0 in scores && e.1 == scores[e.0]
    ensures IsFusion(Sort(ByScore, entries), ar, lanes)
  {
    var out := Sort(ByScore, entries);
    ByScoreIsTotalOrder();
    SortSorts(ByScore, entries);
    SortKeepsUnique(ByScore, (e: Entry) => e.0, entries);
    SortKeepsIds(entries);
    forall i | 0 <= i < |out| ensures out[i].1 == Fused(ar, lanes, out[i].0) {
      assert out[i] in out;
    }
  }

  lemma SortKeepsIds(entries: seq<Entry>)
    ensures Ids(Sort(ByScore, entries)) == Ids(entries)
    ensures forall e :: e in Sort(ByScore, entries) ==> e in entries
  {
    SortPermutes(ByScore, entries);
  }

  // ----- One answer per family of lanes -----

  /** The conditions pin the output. */
  lemma FusionIsUnique(a: seq<Entry>, b: seq<Entry>, ar: Arith, lanes: seq<Lane>)
    requires IsFusion(a, ar, lanes) && IsFusion(b, ar, lanes)
    ensures a == b
  {
    SubFusion(a, b, ar, lanes);
    SubFusion(b, a, ar, lanes);
    SameMembersSameMultiset(a, b);
    ByScoreIsTotalOrder();
    SortedIsUnique(ByScore, a, b);
  }

  lemma SubFusion(a: seq<Entry>, b: seq<Entry>, ar: Arith, lanes: seq<Lane>)
    requires IsFusion(a, ar, lanes) && IsFusion(b, ar, lanes)
    ensures forall e :: e in a ==> e in b
  {
    forall e | e in a ensures e in b {
      assert e.0 in Ids(a);
      assert e.0 in Ids(b);
      var f :| f in b && f.0 == e.0;
    }
  }

  /** Two families whose ids and fused scores agree fuse alike. */
  lemma SameScoresSameFusion(out: seq<Entry>, ar: Arith, lanes: seq<Lane>, others: seq<Lane>)
    requires AllIds(lanes) == AllIds(others)
    requires forall id :: Fused(ar, lanes, id) == Fused(ar, others, id)
    ensures IsFusion(out, ar, lanes) <==> IsFusion(out, ar, others)
  {}

  /** Lane for lane the same entries, each lane in any order. */
  ghost predicate SameUpToLaneOrder(lanes: seq<Lane>, others: seq<Lane>) {
    |lanes| == |others| && forall i :: 0 <= i < |lanes| ==> multiset(lanes[i]) == multiset(others[i])
  }

  lemma {:induction false} ShuffledLanesScoreAlike(ar: Arith, lanes: seq<Lane>, others: seq<Lane>, id: string)
    requires SameUpToLaneOrder(lanes, others)
    ensures Fused(ar, lanes, id) == Fused(ar, others, id) && AllIds(lanes) == AllIds(others)
  {
    if lanes != [] {
      var n := |lanes| - 1;
      ShuffledLanesScoreAlike(ar, lanes[..n], others[..n], id);
      ByScoreIsTotalOrder();
      SortIsCanonical(ByScore, lanes[n], others[n]);
      assert |multiset(lanes[n])| == |multiset(others[n])|;
      forall e ensures e in lanes[n] <==> e in others[n] {
        assert e in multiset(lanes[n]) <==> e in multiset(others[n]);
      }
    }
  }

  /** The order within lanes never matters, whatever the arithmetic. */
  lemma OrderWithinLanesIsIrrelevant(out: seq<Entry>, ar: Arith, lanes: seq<Lane>, others: seq<Lane>)
    requires SameUpToLaneOrder(lanes, others)
    ensures IsFusion(out, ar, lanes) <==> IsFusion(out, ar, others)
  {
    ShuffledLanesScoreAlike(ar, lanes, others, "");
    forall id ensures Fused(ar, lanes, id) == Fused(ar, others, id) {
      ShuffledLanesScoreAlike(ar, lanes, others, id);
    }
    SameScoresSameFusion(out, ar, lanes, others);
  }

  function NonEmpty(lanes: seq<Lane>): seq<Lane> {
    if lanes == [] then []
    else NonEmpty(lanes[..|lanes| - 1]) + if lanes[|lanes| - 1] == [] then [] else [lanes[|lanes| - 1]]
  }

  lemma {:induction false} EmptyLanesScoreNothing(ar: Arith, lanes: seq<Lane>, id: string)
    ensures Fused(ar, lanes, id) == Fused(ar, NonEmpty(lanes), id) && AllIds(lanes) == AllIds(NonEmpty(lanes))
  {
    if lanes != [] {
      var n := |lanes| - 1;
      EmptyLanesScoreNothing(ar, lanes[..n], id);
      if lanes[n] == [] {
        assert Ids(lanes[n]) == {};
        AbsentFromLane(ar, lanes[n], id, Fused(ar, lanes[..n], id));
        assert NonEmpty(lanes) == NonEmpty(lanes[..n]);
      } else {
        assert NonEmpty(lanes)[..|NonEmpty(lanes)| - 1] == NonEmpty(lanes[..n]);
      }
    }
  }

  /** Empty lanes never matter, whatever the arithmetic. */
  lemma EmptyLanesAreIrrelevant(out: seq<Entry>, ar: Arith, lanes: seq<Lane>)
    ensures IsFusion(out, ar, lanes) <==> IsFusion(out, ar, NonEmpty(lanes))
  {
    EmptyLanesScoreNothing(ar, lanes, "");
    forall id ensures Fused(ar, lanes, id) == Fused(ar, NonEmpty(lanes), id) {
      EmptyLanesScoreNothing(ar, lanes, id);
    }
    SameScoresSameFusion(out, ar, lanes, NonEmpty(lanes));
  }

  // ----- The order of lanes, in exact arithmetic -----

  ghost predicate ExactAdd(ar: Arith) {
    forall a, b :: ar.add(a, b) == a + b
  }

  function LaneShare(ar: Arith, lane: Lane, id: string): real {
    AfterLane(ar, lane, id, 0.0)
  }

  lemma AbsentSharesNothing(ar: Arith, lane: Lane, id: string)
    requires id !in Ids(lane)
    ensures LaneShare(ar, lane, id) == 0.0
  {
    AbsentFromLane(ar, lane, id, 0.0);
  }

  lemma {:induction false} SharesAddUp(ar: Arith, sorted: Lane, n: nat, id: string, base: real)
    requires ExactAdd(ar) && n <= |sorted|
    ensures AfterRanks(ar, sorted, n, id, base) == base + AfterRanks(ar, sorted, n, id, 0.0)
  {
    if n > 0 {
      SharesAddUp(ar, sorted, n - 1, id, base);
      var before, from0 := AfterRanks(ar, sorted, n - 1, id, base), AfterRanks(ar, sorted, n - 1, id, 0.0);
      assert ar.add(before, ar.share(n)) == before + ar.share(n);
      assert ar.add(from0, ar.share(n)) == from0 + ar.share(n);
    }
  }

  lemma {:induction false} FusedIsSum(ar: Arith, lanes: seq<Lane>, id: string)
    requires ExactAdd(ar)
    ensures Fused(ar, lanes, id) == SumBy(lane => LaneShare(ar, lane, id), lanes)
  {
    if lanes != [] {
      var n := |lanes| - 1;
      FusedIsSum(ar, lanes[..n], id);
      SortPermutes(ByScore, lanes[n]);
      SharesAddUp(ar, Sort(ByScore, lanes[n]), |lanes[n]|, id, Fused(ar, lanes[..n], id));
    }
  }

  lemma {:induction false} AllIdsMembers(lanes: seq<Lane>, id: string)
    ensures id in AllIds(lanes) <==> exists lane :: lane in lanes && id in Ids(lane)
  {
    if lanes != [] {
      var n := |lanes| - 1;
      AllIdsMembers(lanes[..n], id);
      assert lanes == lanes[..n] + [lanes[n]];
    }
  }

  lemma RearrangedLanesScoreAlike(ar: Arith, lanes: seq<Lane>, others: seq<Lane>, id: string)
    requires ExactAdd(ar) && multiset(lanes) == multiset(others)
    ensures Fused(ar, lanes, id) == Fused(ar, others, id) && (id in AllIds(lanes) <==> id in AllIds(others))
  {
    FusedIsSum(ar, lanes, id);
    FusedIsSum(ar, others, id);
    SumPermutes(lane => LaneShare(ar, lane, id), lanes, others);
    AllIdsMembers(lanes, id);
    AllIdsMembers(others, id);
    forall lane ensures lane in lanes <==> lane in others {
      assert lane in multiset(lanes) <==> lane in multiset(others);
    }
  }

  /** In exact arithmetic the order of the lanes does not matter either. */
  lemma OrderOfLanesIsIrrelevant(out: seq<Entry>, ar: Arith, lanes: seq<Lane>, others: seq<Lane>)
    requires ExactAdd(ar) && multiset(lanes) == multiset(others)
    ensures IsFusion(out, ar, lanes) <==> IsFusion(out, ar, others)
  {
    forall id ensures Fused(ar, lanes, id) == Fused(ar, others, id) && (id in AllIds(lanes) <==> id in AllIds(others)) {
      RearrangedLanesScoreAlike(ar, lanes, others, id);
    }
    SameScoresSameFusion(out, ar, lanes, others);
  }

  // ----- Dominance -----

  /** Shares are positive and fall strictly with the rank. */
  ghost predicate FallingShares(ar: Arith) {
    forall r: nat, s: nat :: 1 <= r < s ==> 0.0 < ar.share(s) < ar.share(r)
  }

  lemma ExactSharesFall(c: real)
    requires c > -1.0
    ensures ExactAdd(Exact(c)) && FallingShares(Exact(c))
  {
    forall r: nat, s: nat | 1 <= r < s ensures 0.0 < Exact(c).share(s) < Exact(c).share(r) {
      ReciprocalFalls(c + r as real, c + s as real);
    }
  }

  predicate Inverts(x: real, y: real) {
    x * y == 1.0
  }

  /** A share is the reciprocal of its rank beyond the constant. */
  lemma ExactShare(c: real, r: nat)
    requires c > -1.0 && r >= 1
    ensures Inverts(Exact(c).share(r), c + r as real)
  {}

  lemma ReciprocalFalls(a: real, b: real)
    requires 0.0 < a < b
    ensures 0.0 < Reciprocal(b) < Reciprocal(a)
  {
    var p, q := Reciprocal(a), Reciprocal(b);
    assert p * a == 1.0 && q * b == 1.0;
    PositiveFactor(q, b);
    assert (p - q) * a == q * (b - a) > 0.0;
    PositiveFactor(p - q, a);
  }

  lemma PositiveFactor(x: real, a: real)
    requires a > 0.0 && x * a > 0.0
    ensures x > 0.0
  {}

  /** `x` is ranked ahead of `y` in the lane. */
  ghost predicate Ahead(lane: Lane, x: string, y: string) {
    exists i, j :: 0 <= i < j < |Sort(ByScore, lane)| && Sort(ByScore, lane)[i].0 == x && Sort(ByScore, lane)[j].0 == y
  }

  lemma {:induction false} ShareAtRank(ar: Arith, sorted: Lane, n: nat, i: nat)
    requires ExactAdd(ar) && UniqueIds(sorted) && i < n <= |sorted|
    ensures AfterRanks(ar, sorted, n, sorted[i].0, 0.0) == ar.share(i + 1)
  {
    if i == n - 1 {
      assert sorted[i].0 !in Ids(sorted[..i]);
      AbsentKeepsBase(ar, sorted, i, sorted[i].0, 0.0);
    } else {
      ShareAtRank(ar, sorted, n - 1, i);
    }
  }

  /** One for an entry that is strictly ahead of `e`: a higher score, or the same and a smaller id. */
  function AheadOf(e: Entry): Entry -> real {
    (f: Entry) => if f.1 > e.1 || (f.1 == e.1 && f.0 != e.0 && LexLeq(f.0, e.0)) then 1.0 else 0.0
  }

  lemma ShareAtPosition(ar: Arith, lane: Lane, i: nat)
    requires ExactAdd(ar) && UniqueIds(lane)
    ensures |Sort(ByScore, lane)| == |lane| && UniqueIds(Sort(ByScore, lane))
    ensures i < |lane| ==> LaneShare(ar, lane, Sort(ByScore, lane)[i].0) == ar.share(i + 1)
  {
    SortPermutes(ByScore, lane);
    SortKeepsUnique(ByScore, (x: Entry) => x.0, lane);
    if i < |lane| { ShareAtRank(ar, Sort(ByScore, lane), |lane|, i); }
  }

  lemma {:induction false} CountAhead(sorted: Lane, n: nat, i: nat)
    requires UniqueIds(sorted) && SortedBy(ByScore, sorted) && i < |sorted| && n <= |sorted|
    ensures SumBy(AheadOf(sorted[i]), sorted[..n]) == if n <= i then n as real else i as real
  {
    if n > 0 {
      CountAhead(sorted, n - 1, i);
      assert sorted[..n][..n - 1] == sorted[..n - 1];
      LexIsTotalOrder();
      if n - 1 < i {
        assert ByScore(sorted[n - 1], sorted[i]) && sorted[n - 1].0 != sorted[i].0;
      } else if i < n - 1 {
        assert ByScore(sorted[i], sorted[n - 1]) && sorted[n - 1].0 != sorted[i].0;
      }
    }
  }

  /** An entry's rank is one more than the number of entries ahead of it; its share is the reciprocal of the constant
      plus the rank. */
  lemma ShareOfEntry(c: real, lane: Lane, e: Entry)
    requires c > -1.0 && UniqueIds(lane) && e in lane
    ensures Inverts(LaneShare(Exact(c), lane, e.0), c + 1.0 + SumBy(AheadOf(e), lane))
  {
    hide Inverts, AheadOf, Reciprocal, Sort, AfterRanks;
    var sorted := Sort(ByScore, lane);
    SortPermutes(ByScore, lane);
    ByScoreIsTotalOrder();
    SortSorts(ByScore, lane);
    assert e in sorted;
    var i: nat :| i < |sorted| && sorted[i] == e;
    ShareAtPosition(Exact(c), lane, i);
    assert sorted[..|sorted|] == sorted;
    CountAhead(sorted, |sorted|, i);
    SumPermutes(AheadOf(e), lane, sorted);
    ExactShare(c, i + 1);
  }

  /** In exact arithmetic a fused score is the sum, over the lanes that list the id, of the reciprocal of the constant
      plus the id's rank there. */
  lemma FusedIsReciprocals(c: real, lanes: seq<Lane>, id: string) returns (share: Lane -> real)
    requires c > -1.0 && forall lane :: lane in lanes ==> UniqueIds(lane)
    ensures Fused(Exact(c), lanes, id) == SumBy(share, lanes)
    ensures forall lane :: lane in lanes && id !in Ids(lane) ==> share(lane) == 0.0
    ensures forall lane, e :: lane in lanes && e in lane && e.0 == id ==>
              Inverts(share(lane), c + 1.0 + SumBy(AheadOf(e), lane))
  {
    hide Inverts, AheadOf, Reciprocal, AfterRanks, LaneShare;
    share := lane => LaneShare(Exact(c), lane, id);
    FusedIsSum(Exact(c), lanes, id);
    forall lane | lane in lanes && id !in Ids(lane) ensures share(lane) == 0.0 {
      AbsentSharesNothing(Exact(c), lane, id);
    }
    forall lane, e | lane in lanes && e in lane && e.0 == id
      ensures Inverts(share(lane), c + 1.0 + SumBy(AheadOf(e), lane))
    {
      ShareOfEntry(c, lane, e);
    }
  }

  lemma AheadSharesMore(ar: Arith, lane: Lane, x: string, y: string)
    requires ExactAdd(ar) && FallingShares(ar) && UniqueIds(lane) && Ahead(lane, x, y)
    ensures LaneShare(ar, lane, x) > LaneShare(ar, lane, y)
  {
    var sorted := Sort(ByScore, lane);
    SortPermutes(ByScore, lane);
    SortKeepsUnique(ByScore, (e: Entry) => e.0, lane);
    var i, j :| 0 <= i < j < |sorted| && sorted[i].0 == x && sorted[j].0 == y;
    ShareAtRank(ar, sorted, |lane|, i);
    ShareAtRank(ar, sorted, |lane|, j);
  }

  lemma {:induction false} SharesAreNotNegative(ar: Arith, sorted: Lane, n: nat, id: string)
    requires ExactAdd(ar) && FallingShares(ar) && n <= |sorted|
    ensures AfterRanks(ar, sorted, n, id, 0.0) >= 0.0
  {
    if n > 0 {
      SharesAreNotNegative(ar, sorted, n - 1, id);
      assert ar.share(n + 1) < ar.share(n);
    }
  }

  ghost predicate Dominates(lanes: seq<Lane>, x: string, y: string) {
    forall i :: 0 <= i < |lanes| ==> UniqueIds(lanes[i]) && (y in Ids(lanes[i]) ==> Ahead(lanes[i], x, y))
  }

  lemma {:induction false} DominatorScoresMore(ar: Arith, lanes: seq<Lane>, x: string, y: string)
    requires ExactAdd(ar) && FallingShares(ar) && Dominates(lanes, x, y)
    ensures Fused(ar, lanes, x) >= Fused(ar, lanes, y)
    ensures y in AllIds(lanes) ==> Fused(ar, lanes, x) > Fused(ar, lanes, y) && x in AllIds(lanes)
  {
    if lanes != [] {
      var n := |lanes| - 1;
      var lane, sorted := lanes[n], Sort(ByScore, lanes[n]);
      DominatorScoresMore(ar, lanes[..n], x, y);
      SortPermutes(ByScore, lane);
      SharesAddUp(ar, sorted, |lane|, x, Fused(ar, lanes[..n], x));
      SharesAddUp(ar, sorted, |lane|, y, Fused(ar, lanes[..n], y));
      if y in Ids(lane) {
        AheadSharesMore(ar, lane, x, y);
        AheadIsPresent(lane, x, y);
      } else {
        AbsentFromLane(ar, lane, y, 0.0);
        SharesAreNotNegative(ar, sorted, |lane|, x);
      }
    }
  }

  lemma AheadIsPresent(lane: Lane, x: string, y: string)
    requires Ahead(lane, x, y)
    ensures x in Ids(lane)
  {
    var sorted := Sort(ByScore, lane);
    SortPermutes(ByScore, lane);
    var i, j :| 0 <= i < j < |sorted| && sorted[i].0 == x && sorted[j].0 == y;
    assert sorted[i] in sorted;
    assert sorted[i] in lane;
  }

  lemma HigherIsAhead(out: seq<Entry>, i: nat, j: nat)
    requires SortedBy(ByScore, out) && i < |out| && j < |out| && out[i].1 > out[j].1
    ensures i < j
  {}

  /** An id ranked ahead of another in every lane that holds the other is placed strictly ahead of it. */
  lemma DominatorIsPlacedAhead(c: real, lanes: seq<Lane>, out: seq<Entry>, x: string, y: string)
    returns (i: nat, j: nat)
    requires c > -1.0 && IsFusion(out, Exact(c), lanes) && Dominates(lanes, x, y) && y in AllIds(lanes)
    ensures i < j < |out| && out[i].0 == x && out[j].0 == y && out[i].1 > out[j].1
  {
    ExactSharesFall(c);
    DominatorScoresMore(Exact(c), lanes, x, y);
    assert x in Ids(out) && y in Ids(out);
    i :| i < |out| && out[i].0 == x;
    j :| j < |out| && out[j].0 == y;
    HigherIsAhead(out, i, j);
  }
}
