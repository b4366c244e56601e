/** What the widening search may assume of a search over one flat segment as its width grows. */
module ScopedSearch {
  import opened Collections
  import opened Ordering
  import opened TopK
  import opened Kernels
  import opened Formats
  import opened FlatSegments
  import opened VectorIndexes
  import opened Wrappers
  import Widening

  function IdList(hits: seq<Hit>): (ids: seq<nat>)
    ensures |ids| == |hits|
  {
    seq(|hits|, i requires 0 <= i < |hits| => hits[i].id)
  }

  lemma IdListMembers(hits: seq<Hit>)
    ensures Members(IdList(hits)) == Ids(hits)
  {
    forall h | h in hits ensures h.id in Members(IdList(hits)) {
      var i :| 0 <= i < |hits| && hits[i] == h;
      assert IdList(hits)[i] == h.id;
    }
    forall id | id in Members(IdList(hits)) ensures id in Ids(hits) {
      var i :| 0 <= i < |hits| && IdList(hits)[i] == id;
      assert hits[i] in hits;
    }
  }

  // ----- Full precision: widening only adds -----

  lemma BestGrows(flat: FlatSegment, query: Vector, j: nat, k: nat)
    requires flat.Valid() && |query| == flat.dims > 0 && j <= k
    ensures flat.Best(query, j) <= flat.Best(query, k)
  {
    RankedRowsFit(query, flat.codes, |flat.ids|, flat.dims);
  }

  /** In full precision the answer is the best rows, most similar first and ties by id. */
  lemma ExactAnswer(config: Config, flat: FlatSegment, m: map<nat, Vector>, query: Vector, k: nat)
    requires Holds(config, flat, m) && |query| == config.dims > 0 && config.quantization.F32?
    ensures FlatAnswer(config, flat, m, query, k) == Sort(HitLeq, flat.Best(query, k))
    ensures Ids(FlatAnswer(config, flat, m, query, k)) == Ids(flat.Best(query, k))
  {
    hide Sort, HitLeq;
    var best := flat.Best(query, k);
    SortPermutes(HitLeq, best);
    assert Sort(HitLeq, best)[..Min(k, |best|)] == Sort(HitLeq, best);
  }

  /** A wider search finds every id a narrower one finds. */
  lemma AnswersGrow(config: Config, flat: FlatSegment, m: map<nat, Vector>, query: Vector, j: nat, k: nat)
    requires Holds(config, flat, m) && |query| == config.dims > 0 && config.quantization.F32? && j <= k
    ensures Ids(FlatAnswer(config, flat, m, query, j)) <= Ids(FlatAnswer(config, flat, m, query, k))
  {
    ExactAnswer(config, flat, m, query, j);
    ExactAnswer(config, flat, m, query, k);
    BestGrows(flat, query, j, k);
  }

  /** So the widening loop over a full-precision flat segment meets the condition of its results. */
  lemma ExactSearchGrows(w: Widening.World, search: nat -> seq<nat>, config: Config, flat: FlatSegment,
        m: map<nat, Vector>, query: Vector)
    requires Holds(config, flat, m) && |query| == config.dims > 0 && config.quantization.F32?
    requires forall k: nat :: search(k) == IdList(FlatAnswer(config, flat, m, query, k))
    requires forall a: nat, k: nat :: w.raw(a, k) == search(k)
    ensures Widening.Grows(w, search)
  {
    forall j: nat, k: nat | j <= k ensures Members(search(j)) <= Members(search(k)) {
      IdListMembers(FlatAnswer(config, flat, m, query, j));
      IdListMembers(FlatAnswer(config, flat, m, query, k));
      AnswersGrow(config, flat, m, query, j, k);
    }
  }

  /** No two stored vectors are equally similar to the query. */
  ghost predicate NoEqualSimilarities(config: Config, query: Vector, m: map<nat, Vector>)
    requires |query| == config.dims && WellDimensioned(config, m)
  {
    var sims := Similarities(config, query, m);
    forall a, b :: a in m && b in m && sims[a] == sims[b] ==> a == b
  }

  lemma BestIsSorted(config: Config, flat: FlatSegment, m: map<nat, Vector>, query: Vector, k: nat)
    requires Holds(config, flat, m) && |query| == config.dims > 0 && config.quantization.F32?
    requires NoEqualSimilarities(config, query, m)
    ensures UniqueIds(flat.Best(query, k)) && SortedBy(HitLeq, flat.Best(query, k))
  {
    var best := flat.Best(query, k);
    flat.BestIsTopK(query, k);
    FlatScores(config, flat, m, query);
    forall i, j | 0 <= i < j < |best| ensures HitLeq(best[i], best[j]) {
      assert best[i] in best && best[j] in best;
    }
  }

  lemma SortedAnswer(config: Config, flat: FlatSegment, m: map<nat, Vector>, query: Vector, k: nat)
    requires Holds(config, flat, m) && |query| == config.dims > 0 && config.quantization.F32?
    requires NoEqualSimilarities(config, query, m)
    ensures FlatAnswer(config, flat, m, query, k) == flat.Best(query, k)
  {
    var best := flat.Best(query, k);
    BestIsSorted(config, flat, m, query, k);
    ExactAnswer(config, flat, m, query, k);
    HitLeqIsTotalOrder();
    SortPermutes(HitLeq, best);
    SortSorts(HitLeq, best);
    SortedIsUnique(HitLeq, Sort(HitLeq, best), best);
  }

  /** Without equally similar vectors, a wider search even repeats the narrower one first. */
  lemma ExactSearchExtends(w: Widening.World, search: nat -> seq<nat>, config: Config, flat: FlatSegment,
        m: map<nat, Vector>, query: Vector)
    requires Holds(config, flat, m) && |query| == config.dims > 0 && config.quantization.F32?
    requires NoEqualSimilarities(config, query, m)
    requires forall k: nat :: search(k) == IdList(FlatAnswer(config, flat, m, query, k))
    requires forall a: nat, k: nat :: w.raw(a, k) == search(k)
    ensures Widening.Extends(w, search)
  {
    forall j: nat, k: nat | j <= k ensures search(j) <= search(k) {
      AnswersExtend(config, flat, m, query, j, k);
    }
    forall k: nat ensures Distinct(search(k)) {
      AnswersExtend(config, flat, m, query, k, k);
    }
  }

  lemma AnswersExtend(config: Config, flat: FlatSegment, m: map<nat, Vector>, query: Vector, j: nat, k: nat)
    requires Holds(config, flat, m) && |query| == config.dims > 0 && config.quantization.F32?
    requires NoEqualSimilarities(config, query, m) && j <= k
    ensures IdList(FlatAnswer(config, flat, m, query, j)) <= IdList(FlatAnswer(config, flat, m, query, k))
    ensures Distinct(IdList(FlatAnswer(config, flat, m, query, k)))
  {
    SortedAnswer(config, flat, m, query, j);
    SortedAnswer(config, flat, m, query, k);
    BestGrows(flat, query, j, k);
    BestIsSorted(config, flat, m, query, k);
  }

  // ----- Quantized: widening can lose -----

  const QUERY: Vector := [0.96, 0.28]
  const ALIKE: Vector := [0.6, 0.8]      // agrees with the query in every sign
  const NEARER: Vector := [0.96, -0.28]  // differs in one sign and is more similar

  /** As many vectors of the first kind as a search for one hit looks at, and two of the second. */
  ghost predicate Twins(m: map<nat, Vector>, r: nat) {
    && (forall id :: id in m <==> id < r + 2)
    && (forall id :: id in m ==> m[id] == if id < r then ALIKE else NEARER)
  }

  ghost predicate BinaryConfig(config: Config, r: nat) {
    && config.dims == 2 && config.quantization.Binary? && config.rescoreFactor == r
    && config.numerics.sqrt(1.0) == 1.0
  }

  lemma DotOfTwo(u: Vector, v: Vector)
    requires |u| == |v| == 2
    ensures Dot(u, v) == u[0] * v[0] + u[1] * v[1]
  {
    assert u[..1][..0] == [] && v[..1][..0] == [];
    assert Dot(u, v) == Dot(u[..1], v[..1]) + u[1] * v[1];
    assert Dot(u[..1], v[..1]) == Dot(u[..1][..0], v[..1][..0]) + u[0] * v[0];
  }

  lemma SignsOfTwo(u: Vector, v: Vector)
    requires |u| == |v| == 2
    ensures SignDisagreements(u, v) ==
              (if (u[0] > 0.0) != (v[0] > 0.0) then 1 else 0) + (if (u[1] > 0.0) != (v[1] > 0.0) then 1 else 0)
  {
    assert u[..1][..0] == [] && v[..1][..0] == [];
    assert SignDisagreements(u[..1], v[..1]) ==
             SignDisagreements([], []) + if (u[0] > 0.0) != (v[0] > 0.0) then 1 else 0;
  }

  lemma UnitVectors(num: Numerics)
    requires num.sqrt(1.0) == 1.0
    ensures Normalized(num, ALIKE) == ALIKE && Normalized(num, NEARER) == NEARER
  {
    DotOfTwo(ALIKE, ALIKE);
    DotOfTwo(NEARER, NEARER);
  }

  lemma SignEstimate(num: Numerics, u: Vector, v: Vector)
    requires |u| == |v| > 0 && Normalized(num, u) == u
    ensures CodeFits(Encode(num, Binary, u), |v|)
    ensures Estimate(v, Encode(num, Binary, u)) == BinaryEstimate(SignDisagreements(u, v), |v|)
  {
    HammingCountsSignDisagreements(u, v);
  }

  lemma TwinEstimates(num: Numerics)
    requires num.sqrt(1.0) == 1.0
    ensures CodeFits(Encode(num, Binary, ALIKE), 2) && Estimate(QUERY, Encode(num, Binary, ALIKE)) == 1.0
    ensures CodeFits(Encode(num, Binary, NEARER), 2) && Estimate(QUERY, Encode(num, Binary, NEARER)) == 0.0
  {
    UnitVectors(num);
    SignEstimate(num, ALIKE, QUERY);
    SignEstimate(num, NEARER, QUERY);
    SignsOfTwo(ALIKE, QUERY);
    SignsOfTwo(NEARER, QUERY);
  }

  lemma TwinScores(config: Config, flat: FlatSegment, m: map<nat, Vector>, r: nat)
    requires BinaryConfig(config, r) && Twins(m, r) && Holds(config, flat, m)
    ensures flat.Scores(QUERY).Keys == m.Keys
    ensures forall id :: id in m ==> flat.Scores(QUERY)[id] == if id < r then 1.0 else 0.0
  {
    TwinEstimates(config.numerics);
    assert flat.Scores(QUERY).Keys == flat.Contents().Keys == m.Keys;
    forall id | id in m ensures flat.Scores(QUERY)[id] == if id < r then 1.0 else 0.0 {
      assert flat.Contents()[id] == Encode(config.numerics, Binary, m[id]);
    }
  }

  lemma TwinSimilarities(config: Config, m: map<nat, Vector>, r: nat)
    requires BinaryConfig(config, r) && Twins(m, r) && WellDimensioned(config, m)
    ensures forall id :: id in m ==> Similarities(config, QUERY, m)[id] == if id < r then 0.8 else 0.8432
  {
    UnitVectors(config.numerics);
    DotOfTwo(QUERY, ALIKE);
    DotOfTwo(QUERY, NEARER);
  }

  /** Only vectors of the first kind are looked at. */
  lemma TwinsBelow(hits: seq<Hit>, scores: map<nat, real>, r: nat)
    requires IsTopK(hits, scores, r) && (forall id :: id in scores <==> id < r + 2)
    requires forall id :: id in scores ==> scores[id] == if id < r then 1.0 else 0.0
    ensures forall h :: h in hits ==> h.id < r
  {
    forall h | h in hits ensures h.id < r {
      if h.id >= r { FewAbove(hits, scores, r, h, Range(r)); }
    }
  }

  /** The two nearest are of the second kind. */
  lemma NearestTwo(hits: seq<Hit>, scores: map<nat, real>, r: nat)
    requires IsTopK(hits, scores, 2) && (forall id :: id in scores <==> id < r + 2)
    requires forall id :: id in scores ==> scores[id] == if id < r then 0.8 else 0.8432
    ensures forall h :: h in hits ==> h.id >= r
  {
    forall h | h in hits ensures h.id >= r {
      if h.id < r { FewAbove(hits, scores, 2, h, {r, r + 1}); }
    }
  }

  lemma CutOfRescored(config: Config, hits: seq<Hit>, m: map<nat, Vector>, query: Vector, k: nat)
    requires forall h :: h in hits ==> h.id in m
    ensures var refined := Rescored(config, hits, m, query);
            && |refined| == |Sort(HitLeq, refined)| == |hits|
            && forall h :: h in Cut(refined, k) ==> h.id in Ids(hits)
  {
    var refined := Rescored(config, hits, m, query);
    RescoredEach(config, hits, m, query);
    SortPermutes(HitLeq, refined);
    forall h | h in Cut(refined, k) ensures h.id in Ids(hits) {
      assert h in Sort(HitLeq, refined);
      RescoredFromFull(config, hits, m, query, h);
    }
  }

  lemma CandidateCounts(config: Config, r: nat)
    requires BinaryConfig(config, r) && 2 <= r && r + 2 <= USIZE_MAX
    ensures CandidateCount(config, 1) == r && CandidateCount(config, 2) >= r + 2
  {}

  lemma BestAlike(config: Config, flat: FlatSegment, m: map<nat, Vector>, r: nat)
    requires BinaryConfig(config, r) && Twins(m, r) && Holds(config, flat, m)
    ensures forall h :: h in flat.Best(QUERY, r) ==> h.id < r && h.id in m
    ensures |flat.Best(QUERY, r)| >= Min(r, 1)
  {
    TwinScores(config, flat, m, r);
    flat.BestIsTopK(QUERY, r);
    TwinsBelow(flat.Best(QUERY, r), flat.Scores(QUERY), r);
    SegmentSize(config, flat, m);
    assert 0 in m;
  }

  lemma LooksAtAlike(config: Config, flat: FlatSegment, m: map<nat, Vector>, r: nat)
    requires BinaryConfig(config, r) && Twins(m, r) && Holds(config, flat, m) && 2 <= r && r + 2 <= USIZE_MAX
    ensures FlatAnswer(config, flat, m, QUERY, 1) != []
    ensures forall h :: h in FlatAnswer(config, flat, m, QUERY, 1) ==> h.id < r
  {
    CandidateCounts(config, r);
    BestAlike(config, flat, m, r);
    CutOfRescored(config, flat.Best(QUERY, r), m, QUERY, 1);
  }

  /** A quantized answer whose candidates are all there is, is the exact one. */
  lemma CompleteAnswer(config: Config, flat: FlatSegment, m: map<nat, Vector>, query: Vector, k: nat)
    requires Holds(config, flat, m) && |query| == config.dims > 0 && !config.quantization.F32?
    requires |m| <= CandidateCount(config, k)
    ensures IsTopK(FlatAnswer(config, flat, m, query, k), Similarities(config, query, m), k)
  {
    var best, sims := flat.Best(query, CandidateCount(config, k)), Similarities(config, query, m);
    FlatScores(config, flat, m, query);
    flat.BestIsTopK(query, CandidateCount(config, k));
    TopKCandidates(best, flat.Scores(query), m, CandidateCount(config, k));
    RescoredIsTrue(config, best, m, query, m);
    CompleteCut(Rescored(config, best, m, query), sims, k);
  }

  lemma CompleteCut(hits: seq<Hit>, scores: map<nat, real>, k: nat)
    requires UniqueIds(hits) && TrueScores(hits, scores) && Ids(hits) == scores.Keys
    ensures IsTopK(Cut(hits, k), scores, k)
  {
    CompleteCovers(hits, scores, k);
    CutIsTopK(hits, scores, k);
  }

  lemma LooksAtAll(config: Config, flat: FlatSegment, m: map<nat, Vector>, r: nat)
    requires BinaryConfig(config, r) && Twins(m, r) && Holds(config, flat, m) && 2 <= r && r + 2 <= USIZE_MAX
    ensures IsTopK(FlatAnswer(config, flat, m, QUERY, 2), Similarities(config, QUERY, m), 2)
  {
    CandidateCounts(config, r);
    assert m.Keys == Range(r + 2) && |m| == |m.Keys|;
    CompleteAnswer(config, flat, m, QUERY, 2);
  }

  /** A rescored search can lose every id it found when it is asked for one more. */
  lemma WiderSearchLoses(config: Config, flat: FlatSegment, m: map<nat, Vector>, r: nat)
    requires BinaryConfig(config, r) && Twins(m, r) && Holds(config, flat, m) && 2 <= r && r + 2 <= USIZE_MAX
    ensures FlatAnswer(config, flat, m, QUERY, 1) != []
    ensures Ids(FlatAnswer(config, flat, m, QUERY, 1)) !! Ids(FlatAnswer(config, flat, m, QUERY, 2))
  {
    LooksAtAlike(config, flat, m, r);
    LooksAtAll(config, flat, m, r);
    TwinSimilarities(config, m, r);
    NearestTwo(FlatAnswer(config, flat, m, QUERY, 2), Similarities(config, QUERY, m), r);
  }

  /** So over such a segment the widening loop's search does not grow. */
  lemma QuantizedSearchNeedNotGrow(w: Widening.World, search: nat -> seq<nat>, config: Config, flat: FlatSegment,
        m: map<nat, Vector>, r: nat)
    requires BinaryConfig(config, r) && Twins(m, r) && Holds(config, flat, m) && 2 <= r && r + 2 <= USIZE_MAX
    requires forall k: nat :: search(k) == IdList(FlatAnswer(config, flat, m, QUERY, k))
    ensures !Widening.Grows(w, search)
  {
    var one, two := FlatAnswer(config, flat, m, QUERY, 1), FlatAnswer(config, flat, m, QUERY, 2);
    WiderSearchLoses(config, flat, m, r);
    IdListMembers(one);
    IdListMembers(two);
    assert one[0].id in Ids(one);
    assert !(Members(search(1)) <= Members(search(2)));
  }
}
