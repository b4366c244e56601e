/** Deterministic accumulation of per-seed graph scores: `src/query/fuse.rs`. */
module GraphScores {
  import opened Ordering

  /** One seed's boost for a memory. */
  datatype Contribution = Contribution(seed: nat, id: string, boost: real)

  type Scores = map<string, real>

  predicate ByKey(a: Contribution, b: Contribution) {
    a.seed < b.seed || (a.seed == b.seed && LexLeq(a.id, b.id))
  }

  lemma ByKeyIsTotalPreorder()
    ensures TotalPreorder(ByKey)
  {
    LexIsTotalOrder();
  }

  predicate Holds(maps: seq<Scores>, c: Contribution) {
    c.seed < |maps| && c.id in maps[c.seed] && c.boost == maps[c.seed][c.id]
  }

  /** Every contribution once, in some order. */
  ghost predicate IsListing(cs: seq<Contribution>, maps: seq<Scores>) {
    Distinct(cs) && forall c :: c in cs <==> Holds(maps, c)
  }

  function Value(scores: Scores, id: string): real {
    if id in scores then scores[id] else 0.0
  }

  /** Adds the contributions up, in the order given. */
  function FoldInto(add: (real, real) -> real, scores: Scores, cs: seq<Contribution>): Scores {
    if cs == [] then scores
    else
      var before := FoldInto(add, scores, cs[..|cs| - 1]);
      var c := cs[|cs| - 1];
      before[c.id := add(Value(before, c.id), c.boost)]
  }

  function LinkedIds(cs: seq<Contribution>): seq<string> {
    seq(|cs|, i requires 0 <= i < |cs| => cs[i].id)
  }

  /** What the accumulation promises for one memory: its boosts, seed by seed, on top of what it had. */
  function SeedOrderScore(add: (real, real) -> real, scores: Scores, maps: seq<Scores>, id: string): real {
    if maps == [] then Value(scores, id)
    else
      var before := SeedOrderScore(add, scores, maps[..|maps| - 1], id);
      if id in maps[|maps| - 1] then add(before, maps[|maps| - 1][id]) else before
  }

  // ----- The canonical order -----

  lemma {:induction false} LeastExists(s: set<string>) returns (x: string)
    requires s != {}
    ensures x in s && forall y :: y in s ==> LexLeq(x, y)
    decreases |s|
  {
    var z :| z in s;
    x := z;
    LexTotal(z, z);
    if s - {z} != {} {
      var y := LeastExists(s - {z});
      LexTotal(z, y);
      if LexLeq(y, z) {
        x := y;
      }
      forall w | w in s ensures LexLeq(x, w) {
        if w != z && x == z { LexTransitive(z, y, w); }
      }
    }
  }

  predicate IsLeast(s: set<string>, x: string) {
    x in s && forall y :: y in s ==> LexLeq(x, y)
  }

  ghost function SortedKeys(s: set<string>): (keys: seq<string>)
    decreases |s|
  {
    if s == {} then []
    else
      var least := LeastOf(s);
      [least] + SortedKeys(s - {least})
  }

  ghost function LeastOf(s: set<string>): (x: string)
    requires s != {}
    ensures IsLeast(s, x)
  {
    assert exists x :: IsLeast(s, x) by {
      var x := LeastExists(s);
      assert IsLeast(s, x);
    }
    var x :| IsLeast(s, x);
    x
  }

  lemma {:induction false} SortedKeysAreSorted(s: set<string>)
    ensures Distinct(SortedKeys(s)) && SortedBy(LexLeq, SortedKeys(s))
    ensures forall k :: k in SortedKeys(s) <==> k in s
    decreases |s|
  {
    if s != {} {
      var least := LeastOf(s);
      SortedKeysAreSorted(s - {least});
      PrependLeast(LexLeq, least, SortedKeys(s - {least}));
    }
  }

  /** One seed's contributions by id. */
  ghost function Chunk(seed: nat, scores: Scores): (cs: seq<Contribution>) {
    var keys := SortedKeys(scores.Keys);
    SortedKeysAreSorted(scores.Keys);
    seq(|keys|, i requires 0 <= i < |keys| => assert keys[i] in keys; Contribution(seed, keys[i], scores[keys[i]]))
  }

  ghost function Canonical(maps: seq<Scores>): seq<Contribution> {
    if maps == [] then [] else Canonical(maps[..|maps| - 1]) + Chunk(|maps| - 1, maps[|maps| - 1])
  }

  lemma ChunkFacts(seed: nat, scores: Scores)
    ensures Distinct(Chunk(seed, scores)) && SortedBy(ByKey, Chunk(seed, scores))
    ensures forall c :: c in Chunk(seed, scores) <==> c.seed == seed && c.id in scores && c.boost == scores[c.id]
    ensures Distinct(LinkedIds(Chunk(seed, scores)))
  {
    var keys, chunk := SortedKeys(scores.Keys), Chunk(seed, scores);
    SortedKeysAreSorted(scores.Keys);
    forall c ensures c in chunk <==> c.seed == seed && c.id in scores && c.boost == scores[c.id] {
      if c.seed == seed && c.id in scores && c.boost == scores[c.id] {
        assert c.id in keys;
        var i :| 0 <= i < |keys| && keys[i] == c.id;
        assert chunk[i] == c;
      }
      assert forall i :: 0 <= i < |chunk| ==> keys[i] in keys;
    }
  }

  lemma {:induction false} CanonicalIsSortedListing(maps: seq<Scores>)
    ensures IsListing(Canonical(maps), maps) && SortedBy(ByKey, Canonical(maps))
  {
    if maps != [] {
      var n := |maps| - 1;
      var front, back := Canonical(maps[..n]), Chunk(n, maps[n]);
      CanonicalIsSortedListing(maps[..n]);
      ChunkFacts(n, maps[n]);
      forall c ensures c in front + back <==> Holds(maps, c) {
        assert c in front <==> Holds(maps[..n], c);
      }
      forall i, j | 0 <= i < j < |front + back|
        ensures (front + back)[i] != (front + back)[j] && ByKey((front + back)[i], (front + back)[j])
      {
        if i < |front| <= j {
          assert front[i] in front && back[j - |front|] in back;
        }
      }
    }
  }

  /** In the canonical order seeds ascend and, within a seed, ids do. */
  lemma CanonicalOrder(maps: seq<Scores>, i: nat, j: nat)
    requires i < j < |Canonical(maps)|
    ensures var a, b := Canonical(maps)[i], Canonical(maps)[j];
            a.seed < b.seed || (a.seed == b.seed && a.id != b.id && LexLeq(a.id, b.id))
  {
    CanonicalIsSortedListing(maps);
    assert Canonical(maps)[i] in Canonical(maps) && Canonical(maps)[j] in Canonical(maps);
  }

  /** Whatever order the hash maps list their entries in, sorting gives the canonical one. */
  lemma AnyListingSortsToCanonical(cs: seq<Contribution>, maps: seq<Scores>)
    requires IsListing(cs, maps)
    ensures Sort(ByKey, cs) == Canonical(maps)
  {
    ByKeyIsTotalPreorder();
    LexIsTotalOrder();
    SortPermutes(ByKey, cs);
    SortSorts(ByKey, cs);
    CanonicalIsSortedListing(maps);
    SameMembersSameMultiset(cs, Canonical(maps));
    SortedIsUniqueAmong(ByKey, Canonical(maps), Sort(ByKey, cs));
  }

  // ----- The score of one memory -----

  lemma {:induction false} FoldSplits(add: (real, real) -> real, scores: Scores, a: seq<Contribution>,
        b: seq<Contribution>)
    ensures FoldInto(add, scores, a + b) == FoldInto(add, FoldInto(add, scores, a), b)
  {
    if b == [] {
      assert a + b == a;
    } else {
      FoldSplits(add, scores, a, b[..|b| - 1]);
      assert (a + b)[..|a + b| - 1] == a + b[..|b| - 1];
    }
  }

  lemma {:induction false} FoldAbsent(add: (real, real) -> real, scores: Scores, cs: seq<Contribution>, id: string)
    requires id !in LinkedIds(cs)
    ensures id in FoldInto(add, scores, cs) <==> id in scores
    ensures Value(FoldInto(add, scores, cs), id) == Value(scores, id)
  {
    if cs != [] {
      var n := |cs| - 1;
      assert LinkedIds(cs) == LinkedIds(cs[..n]) + [cs[n].id];
      FoldAbsent(add, scores, cs[..n], id);
    }
  }

  /** Distinct ids are each added once. */
  lemma {:induction false} FoldPresent(add: (real, real) -> real, scores: Scores, cs: seq<Contribution>, k: nat)
    requires Distinct(LinkedIds(cs)) && k < |cs|
    ensures cs[k].id in FoldInto(add, scores, cs)
    ensures Value(FoldInto(add, scores, cs), cs[k].id) == add(Value(scores, cs[k].id), cs[k].boost)
  {
    var n := |cs| - 1;
    assert LinkedIds(cs) == LinkedIds(cs[..n]) + [cs[n].id];
    if k == n {
      assert forall i :: 0 <= i < n ==> LinkedIds(cs[..n])[i] == LinkedIds(cs)[i] != LinkedIds(cs)[n];
      FoldAbsent(add, scores, cs[..n], cs[n].id);
    } else {
      assert LinkedIds(cs)[k] != LinkedIds(cs)[n];
      assert Distinct(LinkedIds(cs[..n])) by {
        assert LinkedIds(cs[..n]) == LinkedIds(cs)[..n];
      }
      FoldPresent(add, scores, cs[..n], k);
    }
  }

  /** After the canonical fold each memory holds its boosts added in ascending seed order, for any addition. */
  lemma {:induction false} CanonicalFoldIsSeedOrder(add: (real, real) -> real, scores: Scores, maps: seq<Scores>,
        id: string)
    ensures id in FoldInto(add, scores, Canonical(maps)) <==>
              id in scores || exists i :: 0 <= i < |maps| && id in maps[i]
    ensures Value(FoldInto(add, scores, Canonical(maps)), id) == SeedOrderScore(add, scores, maps, id)
  {
    if maps != [] {
      var n := |maps| - 1;
      var before := FoldInto(add, scores, Canonical(maps[..n]));
      CanonicalFoldIsSeedOrder(add, scores, maps[..n], id);
      FoldSplits(add, scores, Canonical(maps[..n]), Chunk(n, maps[n]));
      FoldChunk(add, before, n, maps[n], id);
      assert maps == maps[..n] + [maps[n]];
    }
  }

  lemma FoldChunk(add: (real, real) -> real, before: Scores, seed: nat, scores: Scores, id: string)
    ensures id in FoldInto(add, before, Chunk(seed, scores)) <==> id in before || id in scores
    ensures Value(FoldInto(add, before, Chunk(seed, scores)), id) ==
              if id in scores then add(Value(before, id), scores[id]) else Value(before, id)
  {
    var chunk := Chunk(seed, scores);
    ChunkFacts(seed, scores);
    ChunkHasId(seed, scores, id);
    if id in scores {
      var k :| 0 <= k < |chunk| && chunk[k] == Contribution(seed, id, scores[id]);
      FoldPresent(add, before, chunk, k);
    } else {
      FoldAbsent(add, before, chunk, id);
    }
  }

  lemma ChunkHasId(seed: nat, scores: Scores, id: string)
    ensures id in LinkedIds(Chunk(seed, scores)) <==> id in scores
    ensures id in scores ==>
              exists k :: 0 <= k < |Chunk(seed, scores)| && Chunk(seed, scores)[k] == Contribution(seed, id, scores[id])
  {
    var chunk := Chunk(seed, scores);
    ChunkFacts(seed, scores);
    if id in scores {
      assert Contribution(seed, id, scores[id]) in chunk;
      var k :| 0 <= k < |chunk| && chunk[k] == Contribution(seed, id, scores[id]);
      assert LinkedIds(chunk)[k] == id;
    }
    if id in LinkedIds(chunk) {
      var k :| 0 <= k < |chunk| && LinkedIds(chunk)[k] == id;
      assert chunk[k] in chunk;
    }
  }

  // ----- The algorithm -----

  /** A seed's entries in whatever order its hash map yields them. */
  method ListEntries(seed: nat, scores: Scores) returns (cs: seq<Contribution>)
    ensures Distinct(cs)
    ensures forall c :: c in cs <==> c.seed == seed && c.id in scores && c.boost == scores[c.id]
  {
    var left := scores.Keys;
    cs := [];
    while left != {}
      invariant left <= scores.Keys && Distinct(cs)
      invariant forall c :: c in cs <==> c.seed == seed && c.id in scores.Keys - left && c.boost == scores[c.id]
      decreases left
    {
      var id :| id in left;
      assert Contribution(seed, id, scores[id]) !in cs;
      cs := cs + [Contribution(seed, id, scores[id])];
      left := left - {id};
    }
  }

  method ListAll(scoresBySeed: seq<Scores>) returns (contributions: seq<Contribution>)
    ensures IsListing(contributions, scoresBySeed)
  {
    contributions := [];
    var seed := 0;
    while seed < |scoresBySeed|
      invariant 0 <= seed <= |scoresBySeed| && IsListing(contributions, scoresBySeed[..seed])
    {
      var entries := ListEntries(seed, scoresBySeed[seed]);
      ListingGrows(contributions, entries, scoresBySeed, seed);
      contributions := contributions + entries;
      seed := seed + 1;
    }
    assert scoresBySeed[..seed] == scoresBySeed;
  }

  class GraphLane {
    var graphScores: Scores
    var allLinked: seq<string>

    constructor ()
      ensures graphScores == map[] && allLinked == []
    {
      graphScores, allLinked := map[], [];
    }

    /** Sorts every contribution by seed and id before adding, so the hash maps' own orders cannot show. */
    method Accumulate(add: (real, real) -> real, scoresBySeed: seq<Scores>)
      modifies this
      ensures graphScores == FoldInto(add, old(graphScores), Canonical(scoresBySeed))
      ensures allLinked == old(allLinked) + LinkedIds(Canonical(scoresBySeed))
    {
      var contributions := ListAll(scoresBySeed);
      AnyListingSortsToCanonical(contributions, scoresBySeed);
      contributions := Sort(ByKey, contributions);
      var i := 0;
      while i < |contributions|
        invariant 0 <= i <= |contributions|
        invariant graphScores == FoldInto(add, old(graphScores), contributions[..i])
        invariant allLinked == old(allLinked) + LinkedIds(contributions)[..i]
      {
        var c := contributions[i];
        AddedNext(add, old(graphScores), contributions, i);
        graphScores := graphScores[c.id := add(Value(graphScores, c.id), c.boost)];
        allLinked := allLinked + [c.id];
        i := i + 1;
      }
      assert contributions[..i] == contributions;
    }
  }

  lemma AddedNext(add: (real, real) -> real, scores: Scores, cs: seq<Contribution>, i: nat)
    requires i < |cs|
    ensures var before := FoldInto(add, scores, cs[..i]);
            FoldInto(add, scores, cs[..i + 1]) == before[cs[i].id := add(Value(before, cs[i].id), cs[i].boost)]
    ensures LinkedIds(cs)[..i + 1] == LinkedIds(cs)[..i] + [cs[i].id]
  {
    assert cs[..i + 1][..i] == cs[..i];
  }

  lemma ListingGrows(cs: seq<Contribution>, entries: seq<Contribution>, maps: seq<Scores>, n: nat)
    requires n < |maps| && IsListing(cs, maps[..n]) && Distinct(entries)
    requires forall c :: c in entries <==> c.seed == n && c.id in maps[n] && c.boost == maps[n][c.id]
    ensures IsListing(cs + entries, maps[..n + 1])
  {
    forall c ensures c in cs + entries <==> Holds(maps[..n + 1], c) {
      assert c in cs <==> Holds(maps[..n], c);
    }
    forall i, j | 0 <= i < j < |cs + entries| ensures (cs + entries)[i] != (cs + entries)[j] {
      if i < |cs| <= j {
        assert cs[i] in cs && entries[j - |cs|] in entries;
      }
    }
  }
}
