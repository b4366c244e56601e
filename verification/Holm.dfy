/** Holm-Bonferroni adjustment against the sequential step-down test: `benchmarks/rust_evaluator/src/record.rs`. */
module Holm {
  import opened Collections
  import opened Ordering

  type Ranked = (real, nat)

  predicate ByP(a: Ranked, b: Ranked) {
    a.0 <= b.0
  }

  function Max(a: real, b: real): real {
    if a >= b then a else b
  }

  function AtMostOne(x: real): real {
    if x <= 1.0 then x else 1.0
  }

  /** A p-value times the number of arms it still competes with, at most one. */
  function Scaled(p: real, arms: nat): real {
    AtMostOne(p * arms as real)
  }

  function Indexed(ps: seq<real>): seq<Ranked> {
    seq(|ps|, i requires 0 <= i < |ps| => (ps[i], i))
  }

  /** The running maximum of the scaled p-values of ranks below `n`. */
  function Running(order: seq<Ranked>, n: nat): real
    requires n <= |order|
  {
    if n == 0 then 0.0
    else Max(Running(order, n - 1), Scaled(order[n - 1].0, |order| - (n - 1)))
  }

  /** `order` lists every index once, smallest p first. */
  ghost predicate IsOrder(order: seq<Ranked>, ps: seq<real>) {
    && |order| == |ps|
    && (forall r :: 0 <= r < |order| ==> order[r].1 < |ps| && order[r].0 == ps[order[r].1])
    && (forall r, s :: 0 <= r < s < |order| ==> order[r].1 != order[s].1)
    && SortedBy(ByP, order)
  }

  /** Each index holds the running maximum at its rank. */
  ghost predicate Follows(adjusted: seq<real>, order: seq<Ranked>, ps: seq<real>) {
    |adjusted| == |ps| && IsOrder(order, ps) && FilledTo(adjusted, order, |ps|)
  }

  ghost predicate IsAdjustment(adjusted: seq<real>, ps: seq<real>) {
    exists order: seq<Ranked> :: Follows(adjusted, order, ps)
  }

  method HolmAdjust(ps: seq<real>) returns (adjusted: seq<real>)
    ensures IsAdjustment(adjusted, ps)
  {
    var order := Sort(ByP, Indexed(ps));
    SortedOrder(ps);
    adjusted := seq(|ps|, _ => 1.0);
    var running := 0.0;
    var rank := 0;
    while rank < |ps|
      invariant 0 <= rank <= |ps| == |adjusted|
      invariant running == Running(order, rank)
      invariant FilledTo(adjusted, order, rank)
    {
      var index := order[rank].1;
      running := Max(running, Scaled(ps[index], |ps| - rank));
      assert running == Running(order, rank + 1);
      FillNext(adjusted, order, ps, rank);
      adjusted := adjusted[index := running];
      rank := rank + 1;
    }
    assert Follows(adjusted, order, ps);
  }

  /** The indices of the first `rank` ranks hold the running maximum at their rank. */
  ghost predicate FilledTo(adjusted: seq<real>, order: seq<Ranked>, rank: nat) {
    && rank <= |order|
    && forall r :: 0 <= r < rank ==> order[r].1 < |adjusted| && adjusted[order[r].1] == Running(order, r + 1)
  }

  lemma FillNext(adjusted: seq<real>, order: seq<Ranked>, ps: seq<real>, rank: nat)
    requires IsOrder(order, ps) && |adjusted| == |ps| && rank < |ps| && FilledTo(adjusted, order, rank)
    ensures FilledTo(adjusted[order[rank].1 := Running(order, rank + 1)], order, rank + 1)
  {}

  lemma SortedOrder(ps: seq<real>)
    ensures IsOrder(Sort(ByP, Indexed(ps)), ps)
  {
    var pairs := Indexed(ps);
    var order := Sort(ByP, pairs);
    SortPermutes(ByP, pairs);
    SortSorts(ByP, pairs);
    forall r | 0 <= r < |order| ensures order[r].1 < |ps| && order[r].0 == ps[order[r].1] {
      assert order[r] in order;
      assert order[r] in pairs;
    }
    SortKeepsDistinct(ByP, pairs);
  }

  // ----- What the adjusted values mean, whatever the order -----

  function CountAtLeast(ps: seq<real>, v: real): (c: nat)
    ensures c <= |ps|
  {
    if ps == [] then 0
    else CountAtLeast(ps[..|ps| - 1], v) + if ps[|ps| - 1] >= v then 1 else 0
  }

  /** Every p-value up to `x`, scaled by how many are at least as large, stays below `alpha`. */
  ghost predicate Clears(ps: seq<real>, x: real, alpha: real) {
    forall v :: v in ps && v <= x ==> Scaled(v, CountAtLeast(ps, v)) < alpha
  }

  ghost predicate Probabilities(ps: seq<real>) {
    forall i :: 0 <= i < |ps| ==> 0.0 <= ps[i]
  }

  /** Indices picked so that each is smallest among those left. */
  ghost predicate Greedy(ps: seq<real>, picks: seq<nat>) {
    && (forall r :: 0 <= r < |picks| ==> picks[r] < |ps|)
    && Distinct(picks)
    && (forall r, i: nat :: 0 <= r < |picks| && i < |ps| && i !in picks[..r] ==> ps[picks[r]] <= ps[i])
  }

  function Large(ps: seq<real>, v: real): set<nat> {
    set i: nat | i < |ps| && ps[i] >= v
  }

  lemma {:induction false} LargeSize(ps: seq<real>, v: real)
    ensures |Large(ps, v)| == CountAtLeast(ps, v)
  {
    if ps == [] {
      assert Large(ps, v) == {};
    } else {
      var n := |ps| - 1;
      LargeSize(ps[..n], v);
      var last: set<nat> := if ps[n] >= v then {n} else {};
      assert Large(ps, v) == Large(ps[..n], v) + last;
    }
  }

  lemma {:induction false} MembersSize(s: seq<nat>)
    requires Distinct(s)
    ensures |Members(s)| == |s|
  {
    if s == [] {
      assert Members(s) == {};
    } else {
      var n := |s| - 1;
      MembersSize(s[..n]);
      assert Members(s) == Members(s[..n]) + {s[n]};
    }
  }

  /** What is left before pick `q` is at least as large as that pick. */
  lemma LeftAtRank(ps: seq<real>, picks: seq<nat>, q: nat)
    requires Greedy(ps, picks) && q < |picks|
    ensures q <= |ps| && CountAtLeast(ps, ps[picks[q]]) >= |ps| - q
  {
    var taken := Members(picks[..q]);
    MembersSize(picks[..q]);
    assert taken <= Range(|ps|);
    SubsetCount(taken, Range(|ps|));
    assert Range(|ps|) - taken <= Large(ps, ps[picks[q]]);
    SubsetCount(Range(|ps|) - taken, Large(ps, ps[picks[q]]));
    LargeSize(ps, ps[picks[q]]);
  }

  /** The first pick of a value has exactly the smaller ones behind it. */
  lemma FirstPickOf(ps: seq<real>, picks: seq<nat>, k: nat, j: nat) returns (q: nat)
    requires Greedy(ps, picks) && k < |picks| && j < |ps| && ps[j] <= ps[picks[k]]
    ensures q <= k && ps[picks[q]] == ps[j] && |ps| - q == CountAtLeast(ps, ps[j])
  {
    q := k;
    while q > 0 && ps[picks[q - 1]] >= ps[j]
      invariant q <= k && ps[picks[q]] >= ps[j]
    {
      q := q - 1;
    }
    PicksRise(ps, picks, q);
    BehindFirst(ps, picks, q, j);
  }

  lemma BehindFirst(ps: seq<real>, picks: seq<nat>, q: nat, j: nat)
    requires Greedy(ps, picks) && q < |picks| && j < |ps| && ps[j] <= ps[picks[q]]
    requires forall r :: 0 <= r < q ==> ps[picks[r]] < ps[j]
    ensures ps[picks[q]] == ps[j] && |ps| - q == CountAtLeast(ps, ps[j])
  {
    var taken := Members(picks[..q]);
    forall i: nat | i < |ps| ensures i in taken <==> ps[i] < ps[j] {
      if i !in picks[..q] {
        assert ps[picks[q]] <= ps[i];
      }
    }
    assert j !in picks[..q];
    assert Range(|ps|) - taken == Large(ps, ps[j]);
    MembersSize(picks[..q]);
    assert taken <= Range(|ps|);
    assert |Range(|ps|) - taken| == |ps| - q;
    LargeSize(ps, ps[j]);
  }

  lemma PicksRise(ps: seq<real>, picks: seq<nat>, q: nat)
    requires Greedy(ps, picks) && q < |picks|
    ensures forall r :: 0 <= r < q ==> ps[picks[r]] <= ps[picks[q - 1]]
  {
    forall r | 0 <= r < q ensures ps[picks[r]] <= ps[picks[q - 1]] {
      assert picks[q - 1] !in picks[..r];
    }
  }

  ghost predicate RanksBelow(order: seq<Ranked>, n: nat, alpha: real)
    requires n <= |order|
  {
    forall q :: 0 <= q < n ==> Scaled(order[q].0, |order| - q) < alpha
  }

  lemma {:induction false} RunningBelow(order: seq<Ranked>, n: nat, alpha: real)
    requires n <= |order| && alpha > 0.0
    ensures Running(order, n) < alpha <==> RanksBelow(order, n, alpha)
  {
    if n > 0 {
      RunningBelow(order, n - 1, alpha);
    }
  }

  /** The sorted order read as picks: greedy, and every index is picked. */
  function Picks(order: seq<Ranked>): (picks: seq<nat>)
    ensures |picks| == |order|
  {
    seq(|order|, r requires 0 <= r < |order| => order[r].1)
  }

  lemma OrderPicksAll(order: seq<Ranked>, ps: seq<real>)
    requires IsOrder(order, ps)
    ensures Distinct(Picks(order)) && forall i: nat :: i < |ps| ==> i in Picks(order)
  {
    var picks := Picks(order);
    MembersSize(picks);
    assert Members(picks) <= Range(|ps|);
    SubsetCount(Members(picks), Range(|ps|));
    forall i: nat | i < |ps| ensures i in picks {
      assert i in Members(picks);
    }
  }

  lemma OrderIsGreedy(order: seq<Ranked>, ps: seq<real>)
    requires IsOrder(order, ps)
    ensures Greedy(ps, Picks(order))
  {
    var picks := Picks(order);
    OrderPicksAll(order, ps);
    forall r, i: nat | 0 <= r < |picks| && i < |ps| && i !in picks[..r] ensures ps[picks[r]] <= ps[i] {
      assert i in picks;
      var s: nat :| s < |picks| && picks[s] == i;
      assert forall q: nat :: q < r ==> picks[q] == picks[..r][q] != i;
      assert r == s || ByP(order[r], order[s]);
    }
  }

  lemma RankOf(order: seq<Ranked>, ps: seq<real>, i: nat) returns (k: nat)
    requires IsOrder(order, ps) && i < |ps|
    ensures k < |order| && order[k].1 == i
  {
    OrderPicksAll(order, ps);
    assert i in Picks(order);
    k :| k < |order| && Picks(order)[k] == i;
  }

  lemma ScaledIsMonotone(v: real, a: nat, b: nat)
    requires v >= 0.0 && a <= b
    ensures Scaled(v, a) <= Scaled(v, b)
  {
    ProductGrows(b as real - a as real, v);
    assert v * b as real - v * a as real == (b as real - a as real) * v;
  }

  lemma ProductGrows(x: real, y: real)
    requires x >= 0.0 && y >= 0.0
    ensures x * y >= 0.0
  {}

  /** The first `n` picks, each times the number left when it was picked, are below `alpha`. */
  ghost predicate PicksBelow(ps: seq<real>, picks: seq<nat>, n: nat, alpha: real)
    requires Greedy(ps, picks) && n <= |picks| <= |ps|
  {
    forall q :: 0 <= q < n ==> Scaled(ps[picks[q]], |ps| - q) < alpha
  }

  lemma RanksArePicks(order: seq<Ranked>, ps: seq<real>, n: nat, alpha: real)
    requires IsOrder(order, ps) && n <= |ps| && Greedy(ps, Picks(order))
    ensures RanksBelow(order, n, alpha) <==> PicksBelow(ps, Picks(order), n, alpha)
  {
    forall q | 0 <= q < n ensures Scaled(order[q].0, |order| - q) == Scaled(ps[Picks(order)[q]], |ps| - q) {
      assert order[q].0 == ps[Picks(order)[q]];
    }
  }

  lemma ClearsFromPicks(ps: seq<real>, picks: seq<nat>, k: nat, alpha: real)
    requires Greedy(ps, picks) && k < |picks| <= |ps| && PicksBelow(ps, picks, k + 1, alpha)
    ensures Clears(ps, ps[picks[k]], alpha)
  {
    forall v | v in ps && v <= ps[picks[k]] ensures Scaled(v, CountAtLeast(ps, v)) < alpha {
      var j: nat :| j < |ps| && ps[j] == v;
      var q := FirstPickOf(ps, picks, k, j);
      assert Scaled(ps[picks[q]], |ps| - q) < alpha;
    }
  }

  lemma PicksFromClears(ps: seq<real>, picks: seq<nat>, k: nat, q: nat, alpha: real)
    requires Greedy(ps, picks) && q <= k < |picks| <= |ps| && Probabilities(ps)
    requires Clears(ps, ps[picks[k]], alpha)
    ensures Scaled(ps[picks[q]], |ps| - q) < alpha
  {
    var v := ps[picks[q]];
    assert v in ps && v <= ps[picks[k]] by {
      PicksRise(ps, picks, k);
      assert picks[k] !in picks[..q];
    }
    LeftAtRank(ps, picks, q);
    ScaledIsMonotone(v, |ps| - q, CountAtLeast(ps, v));
  }

  lemma PickClearsIff(ps: seq<real>, picks: seq<nat>, k: nat, n: nat, alpha: real)
    requires Greedy(ps, picks) && k < |picks| <= |ps| && n == k + 1 && Probabilities(ps)
    ensures PicksBelow(ps, picks, n, alpha) <==> Clears(ps, ps[picks[k]], alpha)
  {
    if Clears(ps, ps[picks[k]], alpha) {
      forall q | 0 <= q < n ensures Scaled(ps[picks[q]], |ps| - q) < alpha {
        PicksFromClears(ps, picks, k, q, alpha);
      }
    } else if PicksBelow(ps, picks, n, alpha) {
      ClearsFromPicks(ps, picks, k, alpha);
    }
  }

  /** An adjusted value lies below `alpha` exactly when its p-value clears `alpha` in the family. */
  lemma AdjustedClears(ps: seq<real>, adjusted: seq<real>, i: nat, alpha: real)
    requires IsAdjustment(adjusted, ps) && Probabilities(ps) && i < |ps| && alpha > 0.0
    ensures adjusted[i] < alpha <==> Clears(ps, ps[i], alpha)
  {
    var order: seq<Ranked> :| Follows(adjusted, order, ps);
    var k := RankOf(order, ps, i);
    var n := k + 1;
    OrderIsGreedy(order, ps);
    RunningBelow(order, n, alpha);
    RanksArePicks(order, ps, n, alpha);
    PickClearsIff(ps, Picks(order), k, n, alpha);
    assert adjusted[i] == Running(order, n) && ps[Picks(order)[k]] == ps[i];
  }

  // ----- The step-down test -----

  /** One run of the sequential test: keep rejecting the smallest p-value left while it is below alpha over
      the number left; then stop. */
  ghost predicate StepDown(ps: seq<real>, alpha: real, rejected: seq<nat>) {
    && Greedy(ps, rejected)
    && (forall r :: 0 <= r < |rejected| <= |ps| ==> Passes(ps[rejected[r]], |ps| - r, alpha))
    && (|rejected| < |ps| ==> exists i: nat :: StopsAt(ps, alpha, rejected, i))
  }

  predicate Passes(p: real, left: nat, alpha: real) {
    p * left as real < alpha
  }

  /** `i` is smallest among what is left and fails its test. */
  ghost predicate StopsAt(ps: seq<real>, alpha: real, rejected: seq<nat>, i: nat) {
    && i < |ps| && i !in rejected && |rejected| <= |ps|
    && (forall j: nat :: j < |ps| && j !in rejected ==> ps[i] <= ps[j])
    && !Passes(ps[i], |ps| - |rejected|, alpha)
  }

  lemma PassesIffScaledBelow(p: real, left: nat, alpha: real)
    requires alpha <= 1.0
    ensures Passes(p, left, alpha) <==> Scaled(p, left) < alpha
  {}

  lemma RejectedFit(ps: seq<real>, rejected: seq<nat>)
    requires Greedy(ps, rejected)
    ensures |rejected| <= |ps|
    ensures forall i: nat :: i < |ps| && i !in rejected ==> |rejected| < |ps|
  {
    MembersSize(rejected);
    assert Members(rejected) <= Range(|ps|);
    SubsetCount(Members(rejected), Range(|ps|));
    forall i: nat | i < |ps| && i !in rejected ensures |rejected| < |ps| {
      assert i in Range(|ps|) && i !in Members(rejected);
    }
  }

  lemma StepDownRejectsIffClears(ps: seq<real>, alpha: real, rejected: seq<nat>, i: nat)
    requires Probabilities(ps) && 0.0 < alpha <= 1.0 && StepDown(ps, alpha, rejected) && i < |ps|
    ensures i in rejected <==> Clears(ps, ps[i], alpha)
  {
    RejectedFit(ps, rejected);
    if i in rejected {
      var k: nat :| k < |rejected| && rejected[k] == i;
      forall q | 0 <= q <= k ensures Scaled(ps[rejected[q]], |ps| - q) < alpha {
        PassesIffScaledBelow(ps[rejected[q]], |ps| - q, alpha);
      }
      ClearsFromPicks(ps, rejected, k, alpha);
    } else {
      StopSpoils(ps, alpha, rejected, i);
    }
  }

  lemma OneMorePick(ps: seq<real>, picks: seq<nat>, s: nat)
    requires Greedy(ps, picks) && s < |ps| && s !in picks
    requires forall j: nat :: j < |ps| && j !in picks ==> ps[s] <= ps[j]
    ensures Greedy(ps, picks + [s])
  {
    var more, n := picks + [s], |picks|;
    forall r, x: nat | 0 <= r < |more| && x < |ps| && x !in more[..r] ensures ps[more[r]] <= ps[x] {
      assert more[..r] == if r < n then picks[..r] else picks;
    }
  }

  /** The value that stopped the test keeps everything left from clearing. */
  lemma StopSpoils(ps: seq<real>, alpha: real, rejected: seq<nat>, i: nat)
    requires Probabilities(ps) && 0.0 < alpha <= 1.0 && StepDown(ps, alpha, rejected) && i < |ps| && i !in rejected
    ensures !Clears(ps, ps[i], alpha)
  {
    RejectedFit(ps, rejected);
    var s: nat :| StopsAt(ps, alpha, rejected, s);
    StopScales(ps, alpha, rejected, s);
    assert ps[s] in ps && ps[s] <= ps[i];
  }

  lemma StopScales(ps: seq<real>, alpha: real, rejected: seq<nat>, s: nat)
    requires Probabilities(ps) && alpha <= 1.0 && Greedy(ps, rejected) && StopsAt(ps, alpha, rejected, s)
    ensures Scaled(ps[s], CountAtLeast(ps, ps[s])) >= alpha
  {
    var left := |ps| - |rejected|;
    OneMorePick(ps, rejected, s);
    LeftAtRank(ps, rejected + [s], |rejected|);
    ScaledIsMonotone(ps[s], left, CountAtLeast(ps, ps[s]));
    PassesIffScaledBelow(ps[s], left, alpha);
  }

  /** The test can always be carried out. */
  lemma StepDownExists(ps: seq<real>, alpha: real) returns (rejected: seq<nat>)
    ensures StepDown(ps, alpha, rejected)
  {
    var order := Sort(ByP, Indexed(ps));
    SortedOrder(ps);
    var picks := Picks(order);
    OrderIsGreedy(order, ps);
    var n := 0;
    while n < |ps| && Passes(ps[picks[n]], |ps| - n, alpha)
      invariant 0 <= n <= |ps|
      invariant forall r :: 0 <= r < n ==> Passes(ps[picks[r]], |ps| - r, alpha)
    {
      n := n + 1;
    }
    rejected := picks[..n];
    assert forall r :: 0 <= r < n ==> rejected[..r] == picks[..r];
    if n < |ps| {
      assert StopsAt(ps, alpha, rejected, picks[n]);
    }
  }

  // ----- The promises -----

  /** For every alpha, an arm's adjusted p is below it exactly when the step-down test rejects that arm. */
  lemma AgreesWithStepDown(ps: seq<real>, adjusted: seq<real>, alpha: real, rejected: seq<nat>, i: nat)
    requires IsAdjustment(adjusted, ps) && Probabilities(ps) && 0.0 < alpha <= 1.0
    requires StepDown(ps, alpha, rejected) && i < |ps|
    ensures adjusted[i] < alpha <==> i in rejected
  {
    AdjustedClears(ps, adjusted, i, alpha);
    StepDownRejectsIffClears(ps, alpha, rejected, i);
  }

  lemma {:induction false} RunningRange(order: seq<Ranked>, n: nat)
    requires n <= |order|
    ensures 0.0 <= Running(order, n) <= 1.0
  {
    if n > 0 {
      RunningRange(order, n - 1);
    }
  }

  lemma AdjustedRange(ps: seq<real>, adjusted: seq<real>, i: nat)
    requires IsAdjustment(adjusted, ps) && i < |ps|
    ensures 0.0 <= adjusted[i] <= 1.0
  {
    var order: seq<Ranked> :| Follows(adjusted, order, ps);
    var k := RankOf(order, ps, i);
    RunningRange(order, k + 1);
  }

  lemma {:induction false} CountWithout(t: seq<real>, k: nat, v: real)
    requires k < |t|
    ensures CountAtLeast(t, v) == CountAtLeast(t[..k] + t[k + 1..], v) + if t[k] >= v then 1 else 0
  {
    var n := |t| - 1;
    if k == n {
      assert t[..k] + t[k + 1..] == t[..n];
    } else {
      CountWithout(t[..n], k, v);
      var rest := t[..k] + t[k + 1..];
      assert rest[..|rest| - 1] == t[..n][..k] + t[..n][k + 1..];
    }
  }

  lemma {:induction false} CountByMultiset(s: seq<real>, t: seq<real>, v: real)
    requires multiset(s) == multiset(t)
    ensures CountAtLeast(s, v) == CountAtLeast(t, v)
  {
    assert |multiset(s)| == |multiset(t)|;
    if s != [] {
      var n := |s| - 1;
      assert s == s[..n] + [s[n]];
      assert s[n] in multiset(t);
      var k: nat :| k < |t| && t[k] == s[n];
      assert t == t[..k] + [t[k]] + t[k + 1..];
      assert multiset(t[..k] + t[k + 1..]) == multiset(t) - multiset{t[k]};
      assert multiset(s[..n]) == multiset(s) - multiset{s[n]};
      CountByMultiset(s[..n], t[..k] + t[k + 1..], v);
      CountWithout(t, k, v);
    }
  }

  /** Clearing depends on the family only as a multiset, and is inherited by smaller p-values. */
  lemma ClearsTransfers(ps: seq<real>, qs: seq<real>, x: real, y: real, alpha: real)
    requires multiset(ps) == multiset(qs) && x <= y && Clears(qs, y, alpha)
    ensures Clears(ps, x, alpha)
  {
    forall v | v in ps && v <= x ensures Scaled(v, CountAtLeast(ps, v)) < alpha {
      assert v in multiset(qs);
      CountByMultiset(ps, qs, v);
    }
  }

  /** Monotone, and indifferent to the order of the family: a p-value no larger than another, in any
      rearrangement of the same family, gets no larger an adjusted value. Ties get equal ones. */
  lemma MonotoneAndEquivariant(ps: seq<real>, adjusted: seq<real>, qs: seq<real>, adjusted': seq<real>, i: nat, j: nat)
    requires IsAdjustment(adjusted, ps) && IsAdjustment(adjusted', qs) && Probabilities(ps) && Probabilities(qs)
    requires multiset(ps) == multiset(qs) && i < |ps| && j < |qs| && ps[i] <= qs[j]
    ensures adjusted[i] <= adjusted'[j]
  {
    AdjustedRange(qs, adjusted', j);
    if adjusted[i] > adjusted'[j] {
      var alpha := adjusted[i];
      AdjustedClears(qs, adjusted', j, alpha);
      ClearsTransfers(ps, qs, ps[i], qs[j], alpha);
      AdjustedClears(ps, adjusted, i, alpha);
      assert false;
    }
  }

  lemma ScaledBounds(v: real, x: real, a: nat, n: nat)
    requires 0.0 <= v <= x && a <= n
    ensures Scaled(v, a) <= Scaled(x, n)
  {
    ScaledIsMonotone(v, a, n);
    ScaledRises(v, x, n);
  }

  lemma ScaledRises(v: real, x: real, n: nat)
    requires v <= x
    ensures Scaled(v, n) <= Scaled(x, n)
  {
    ProductGrows(x - v, n as real);
    assert x * n as real - v * n as real == (x - v) * n as real;
  }

  /** No adjusted value falls below its p-value. */
  lemma AtLeastRaw(ps: seq<real>, adjusted: seq<real>, i: nat)
    requires IsAdjustment(adjusted, ps) && Probabilities(ps) && i < |ps| && ps[i] <= 1.0
    ensures ps[i] <= adjusted[i]
  {
    AdjustedRange(ps, adjusted, i);
    LargeSize(ps, ps[i]);
    assert i in Large(ps, ps[i]) && ps[i] in ps && Scaled(ps[i], 1) == ps[i];
    ScaledIsMonotone(ps[i], 1, CountAtLeast(ps, ps[i]));
    if adjusted[i] < ps[i] {
      AdjustedClears(ps, adjusted, i, ps[i]);
      assert false;
    }
  }

  /** No adjusted value exceeds the Bonferroni bound. */
  lemma AtMostBonferroni(ps: seq<real>, adjusted: seq<real>, i: nat)
    requires IsAdjustment(adjusted, ps) && Probabilities(ps) && i < |ps|
    ensures adjusted[i] <= AtMostOne(ps[i] * |ps| as real)
  {
    var bound := Scaled(ps[i], |ps|);
    ScaledBounds(0.0, ps[i], 0, |ps|);
    assert Scaled(0.0, 0) == 0.0;
    if adjusted[i] > bound {
      AdjustedClears(ps, adjusted, i, adjusted[i]);
      forall v | v in ps && v <= ps[i] ensures Scaled(v, CountAtLeast(ps, v)) < adjusted[i] {
        ScaledBounds(v, ps[i], CountAtLeast(ps, v), |ps|);
      }
      assert false;
    }
  }

  // ----- The verdicts of an ablation -----

  const SIGNIFICANT := 0.05

  /** The p-value of an arm's paired delta, when it shares questions with the baseline. */
  datatype Delta = Unpaired | Paired(p: real)

  datatype Arm = Arm(hit: Delta, ndcg: Delta)

  function Raw(d: Delta): real {
    if d.Paired? then d.p else 1.0
  }

  function HitFamily(arms: seq<Arm>): (ps: seq<real>)
    ensures |ps| == |arms| && forall i :: 0 <= i < |arms| ==> ps[i] == Raw(arms[i].hit)
  {
    seq(|arms|, i requires 0 <= i < |arms| => Raw(arms[i].hit))
  }

  function NdcgFamily(arms: seq<Arm>): (ps: seq<real>)
    ensures |ps| == |arms| && forall i :: 0 <= i < |arms| ==> ps[i] == Raw(arms[i].ndcg)
  {
    seq(|arms|, i requires 0 <= i < |arms| => Raw(arms[i].ndcg))
  }

  predicate Significant(d: Delta, p: real) {
    d.Paired? && p < SIGNIFICANT
  }

  ghost predicate RejectedHits(arms: seq<Arm>, rejected: seq<nat>) {
    StepDown(HitFamily(arms), SIGNIFICANT, rejected)
  }

  ghost predicate RejectedNdcgs(arms: seq<Arm>, rejected: seq<nat>) {
    StepDown(NdcgFamily(arms), SIGNIFICANT, rejected)
  }

  /** An arm is kept exactly when the step-down test at 5% rejects it in one of the two families. An unpaired arm
      holds a place in its family and is never kept by it. */
  method Verdicts(arms: seq<Arm>) returns (keep: seq<bool>)
    requires Probabilities(HitFamily(arms)) && Probabilities(NdcgFamily(arms))
    ensures |keep| == |arms|
    ensures forall i: nat, hits, ndcgs :: i < |arms| && RejectedHits(arms, hits) && RejectedNdcgs(arms, ndcgs) ==>
              (keep[i] <==> i in hits || i in ndcgs)
  {
    var hit, ndcg := HitFamily(arms), NdcgFamily(arms);
    var adjustedHit := HolmAdjust(hit);
    var adjustedNdcg := HolmAdjust(ndcg);
    assert |adjustedHit| == |adjustedNdcg| == |arms|;
    keep := seq(|arms|, i requires 0 <= i < |arms| => Significant(arms[i].hit,
        adjustedHit[i]) || Significant(arms[i].ndcg, adjustedNdcg[i]));
    forall i: nat, hits, ndcgs | i < |arms| && RejectedHits(arms, hits) && RejectedNdcgs(arms, ndcgs)
      ensures keep[i] <==> i in hits || i in ndcgs
    {
      SignificantIffRejected(hit, adjustedHit, arms[i].hit, hits, i);
      SignificantIffRejected(ndcg, adjustedNdcg, arms[i].ndcg, ndcgs, i);
    }
  }

  lemma SignificantIffRejected(ps: seq<real>, adjusted: seq<real>, d: Delta, rejected: seq<nat>, i: nat)
    requires IsAdjustment(adjusted, ps) && Probabilities(ps) && StepDown(ps, SIGNIFICANT, rejected)
    requires i < |ps| && ps[i] == Raw(d)
    ensures Significant(d, adjusted[i]) <==> i in rejected
  {
    AgreesWithStepDown(ps, adjusted, SIGNIFICANT, rejected, i);
    if d.Unpaired? {
      AtLeastRaw(ps, adjusted, i);
    }
  }
}
