/** Reranking in parallel chunks behind a cache keyed by the query and the candidate set: `src/semantic.rs`. */
module Reranking {
  import opened Embedding
  import opened Wrappers

  /** `split_for_rerank`: at most `n` pieces with the offset each starts at. */
  function Split(texts: seq<string>, n: nat): seq<(nat, seq<string>)> {
    if n <= 1 || |texts| <= 8 then [(0, texts)] else
    var pieces := if n <= |texts| then n else |texts|;
    var size := (|texts| + pieces - 1) / pieces;
    Offsets(Chunks(texts, size), size)
  }

  /** Every piece is the stretch of `texts` at its offset, and every position is in some piece. */
  ghost predicate Tiles(pieces: seq<(nat, seq<string>)>, texts: seq<string>) {
    && (forall p :: 0 <= p < |pieces| ==> IsStretch(pieces[p], texts))
    && (forall i :: 0 <= i < |texts| ==> Placed(pieces, i))
  }

  ghost predicate Placed(pieces: seq<(nat, seq<string>)>, i: int) {
    exists p :: 0 <= p < |pieces| && InPiece(pieces[p], i)
  }

  predicate InPiece(piece: (nat, seq<string>), i: int) {
    piece.0 <= i < piece.0 + |piece.1|
  }

  lemma {:induction false} ChunkAt(texts: seq<string>, size: nat, p: nat)
    requires size > 0 && p < |Chunks(texts, size)|
    ensures var c := Chunks(texts, size)[p]; p * size + |c| <= |texts| && c == texts[p * size..p * size + |c|]
    ensures p < |Chunks(texts, size)| - 1 ==> |Chunks(texts, size)[p]| == size
    decreases |texts|
  {
    if |texts| <= size {
    } else if p == 0 {
    } else {
      var rest := texts[size..];
      ChunkAt(rest, size, p - 1);
      OneChunkOn(texts, size, p, Chunks(rest, size)[p - 1]);
    }
  }

  lemma OneChunkOn(texts: seq<string>, size: nat, p: nat, c: seq<string>)
    requires 0 < size <= |texts| && p > 0
    requires (p - 1) * size + |c| <= |texts| - size && c == texts[size..][(p - 1) * size..(p - 1) * size + |c|]
    ensures p * size + |c| <= |texts| && c == texts[p * size..p * size + |c|]
  {
    var at := (p - 1) * size;
    assert p * size == at + size;
    assert texts[size..][at..at + |c|] == texts[at + size..at + size + |c|];
  }

  lemma {:induction false} ChunkCount(texts: seq<string>, size: nat, n: nat)
    requires size > 0 && |texts| <= n * size
    ensures |Chunks(texts, size)| <= n
    ensures |texts| > 0 ==> (|Chunks(texts, size)| - 1) * size < |texts| <= |Chunks(texts, size)| * size
    decreases |texts|
  {
    if texts == [] {
    } else if |texts| <= size {
      assert n >= 1;
    } else {
      assert (n - 1) * size == n * size - size;
      ChunkCount(texts[size..], size, n - 1);
      var k := |Chunks(texts[size..], size)|;
      assert k * size == (k - 1) * size + size && (k + 1) * size == k * size + size;
    }
  }

  lemma SplitTiles(texts: seq<string>, n: nat)
    ensures Tiles(Split(texts, n), texts)
    ensures |Split(texts, n)| <= if n <= 1 then 1 else n
  {
    if n <= 1 || |texts| <= 8 {
      assert texts == texts[0..|texts|];
      assert forall i :: 0 <= i < |texts| ==> InPiece(Split(texts, n)[0], i) && Placed(Split(texts, n), i);
    } else {
      var pieces := if n <= |texts| then n else |texts|;
      var size := (|texts| + pieces - 1) / pieces;
      CeilingCovers(|texts|, pieces, size);
      ChunkCount(texts, size, pieces);
      OffsetsTile(texts, size);
    }
  }

  /** Many texts for several rerankers are split evenly: every piece but the last has the least size with which so many
      pieces hold all texts. Few texts, or one reranker, are left in one piece. */
  lemma SplitIsEven(texts: seq<string>, n: nat, size: nat)
    requires var count := if n <= |texts| then n else |texts|;
             n > 1 && |texts| > 8 ==> (size - 1) * count < |texts| <= size * count
    ensures n <= 1 || |texts| <= 8 ==> Split(texts, n) == [(0, texts)]
    ensures n > 1 && |texts| > 8 ==>
              var pieces := Split(texts, n);
              forall p :: 0 <= p < |pieces| ==>
                pieces[p].0 == p * size && (p < |pieces| - 1 ==> |pieces[p].1| == size) && |pieces[p].1| <= size
  {
    if n > 1 && |texts| > 8 {
      var count := if n <= |texts| then n else |texts|;
      CeilingIsLeast(|texts|, count, size);
      forall p | 0 <= p < |Chunks(texts, size)| - 1 ensures |Chunks(texts, size)[p]| == size {
        ChunksAreFull(texts, size, p);
      }
    }
  }

  lemma CeilingIsLeast(len: nat, n: nat, size: nat)
    requires n > 0 && (size - 1) * n < len <= size * n
    ensures (len + n - 1) / n == size
  {
    assert (size - 1) * n == size * n - n;
    Quotient(len + n - 1, n, size, len + n - 1 - size * n);
  }

  lemma Quotient(x: nat, n: nat, q: nat, d: nat)
    requires x == q * n + d && d < n
    ensures x / n == q
  {
    var e := x / n - q;
    assert x == x / n * n + x % n;
    assert e * n == x / n * n - q * n;
    MultipleGrows(e, n);
  }

  lemma MultipleGrows(e: int, n: int)
    requires n > 0
    ensures e > 0 ==> e * n >= n
    ensures e < 0 ==> e * n <= -n
  {
    assert e > 0 ==> (e - 1) * n >= 0;
    assert e < 0 ==> (-e - 1) * n >= 0;
  }

  lemma CeilingCovers(len: nat, n: nat, size: nat)
    requires 0 < n && size == (len + n - 1) / n
    ensures len <= n * size && (len > 0 ==> size > 0)
  {
    assert len + n - 1 == n * size + (len + n - 1) % n;
  }

  function Offsets(chunks: seq<seq<string>>, size: nat): (pieces: seq<(nat, seq<string>)>)
    ensures |pieces| == |chunks|
  {
    seq(|chunks|, i requires 0 <= i < |chunks| => (i * size, chunks[i]))
  }

  predicate IsStretch(piece: (nat, seq<string>), texts: seq<string>) {
    piece.0 + |piece.1| <= |texts| && piece.1 == texts[piece.0..piece.0 + |piece.1|]
  }

  lemma PieceIsStretch(texts: seq<string>, size: nat, p: nat)
    requires size > 0 && p < |Chunks(texts, size)|
    ensures IsStretch(Offsets(Chunks(texts, size), size)[p], texts)
  {
    ChunkAt(texts, size, p);
  }

  lemma PositionIsPlaced(texts: seq<string>, size: nat, i: nat)
    requires size > 0 && i < |texts| <= |Chunks(texts, size)| * size
    ensures Placed(Offsets(Chunks(texts, size), size), i)
  {
    ChunkHolds(texts, size, i);
    assert InPiece(Offsets(Chunks(texts, size), size)[i / size], i);
  }

  lemma OffsetsTile(texts: seq<string>, size: nat)
    requires size > 0 && |texts| <= |Chunks(texts, size)| * size
    ensures Tiles(Offsets(Chunks(texts, size), size), texts)
  {
    forall p | 0 <= p < |Chunks(texts, size)| ensures IsStretch(Offsets(Chunks(texts, size), size)[p], texts) {
      PieceIsStretch(texts, size, p);
    }
    forall i | 0 <= i < |texts| ensures Placed(Offsets(Chunks(texts, size), size), i) {
      PositionIsPlaced(texts, size, i);
    }
  }

  lemma ChunkHolds(texts: seq<string>, size: nat, i: nat)
    requires size > 0 && i < |texts| <= |Chunks(texts, size)| * size
    ensures var p := i / size; p < |Chunks(texts, size)| && p * size <= i < p * size + |Chunks(texts, size)[p]|
  {
    hide Chunks;
    var p, count := i / size, |Chunks(texts, size)|;
    PieceOf(i, size, count);
    ChunkAt(texts, size, p);
    if p == count - 1 { LastChunkEnds(texts, size); }
  }

  lemma PieceOf(i: nat, size: nat, count: nat)
    requires size > 0 && i < count * size
    ensures i / size < count && (i / size) * size <= i < (i / size) * size + size
  {
    var p := i / size;
    assert i == p * size + i % size;
    if p >= count { Monotone(count, p, size); }
  }

  lemma Monotone(a: nat, b: nat, size: nat)
    requires a <= b
    ensures a * size <= b * size
  {}

  lemma {:induction false} LastChunkEnds(texts: seq<string>, size: nat)
    requires size > 0 && texts != []
    ensures var k := |Chunks(texts, size)|; k >= 1 && (k - 1) * size + |Chunks(texts, size)[k - 1]| == |texts|
    decreases |texts|
  {
    if |texts| > size {
      LastChunkEnds(texts[size..], size);
      OneSizeMore(|Chunks(texts[size..], size)|, size);
    }
  }

  lemma OneSizeMore(k: int, size: int)
    ensures k * size == (k - 1) * size + size
  {}

  function Scores(score: (string, string) -> real, q: string, texts: seq<string>): seq<real> {
    seq(|texts|, i requires 0 <= i < |texts| => score(q, texts[i]))
  }

  /** The cross-encoder reports (position, score) pairs in an order of its own. */
  ghost predicate Reports(results: seq<(nat, real)>, score: (string, string) -> real, q: string, docs: seq<string>) {
    && (forall i: nat :: i < |docs| ==> (i, score(q, docs[i])) in results)
    && (forall x :: x in results && x.0 < |docs| ==> x.1 == score(q, docs[x.0]))
  }

  type Key = (string, multiset<string>)

  lemma PlacedNext(pieces: seq<(nat, seq<string>)>, p: nat, i: int)
    requires p < |pieces| && Placed(pieces[..p + 1], i)
    ensures Placed(pieces[..p], i) || InPiece(pieces[p], i)
  {
    var r :| 0 <= r < p + 1 && InPiece(pieces[..p + 1][r], i);
    assert r < p ==> InPiece(pieces[..p][r], i);
  }

  class Reranker {
    const rerankers: nat
    const score: (string, string) -> real
    const encoder: (string, seq<string>) -> seq<(nat, real)>
    var cache: map<Key, seq<real>>
    ghost var asked: map<Key, seq<string>>  // the order each cached answer was computed in

    constructor (rerankers: nat, score: (string, string) -> real, encoder: (string, seq<string>) -> seq<(nat, real)>)
      requires forall q, docs :: Reports(encoder(q, docs), score, q, docs)
      ensures Valid() && cache == map[]
      ensures this.rerankers == rerankers && this.score == score && this.encoder == encoder
    {
      this.rerankers, this.score, this.encoder := rerankers, score, encoder;
      cache, asked := map[], map[];
    }

    ghost predicate Valid()
      reads this
    {
      && (forall q, docs :: Reports(encoder(q, docs), score, q, docs))
      && cache.Keys == asked.Keys
      && (forall k :: k in cache ==> multiset(asked[k]) == k.1 && cache[k] == Scores(score, k.0, asked[k]))
    }

    method RerankOnExecutor(q: string, docs: seq<string>) returns (scores: seq<real>)
      requires Valid()
      ensures scores == Scores(score, q, docs)
    {
      var results := encoder(q, docs);
      assert Reports(results, score, q, docs);
      scores := seq(|docs|, _ => 0.0);
      var n := 0;
      while n < |results|
        invariant 0 <= n <= |results| && |scores| == |docs|
        invariant forall i: nat :: i < |docs| && (i, score(q, docs[i])) in results[..n] ==>
                    scores[i] == score(q, docs[i])
      {
        assert results[n] in results;
        if results[n].0 < |scores| {
          scores := scores[results[n].0 := results[n].1];
        }
        assert results[..n + 1] == results[..n] + [results[n]];
        n := n + 1;
      }
      assert results[..n] == results;
    }

    method Stitch(scores: seq<real>, offset: nat, part: seq<real>) returns (out: seq<real>)
      requires offset + |part| <= |scores|
      ensures |out| == |scores|
      ensures forall i :: 0 <= i < |scores| ==>
                out[i] == if offset <= i < offset + |part| then part[i - offset] else scores[i]
    {
      out := scores;
      var n := 0;
      while n < |part|
        invariant 0 <= n <= |part| && |out| == |scores|
        invariant forall i :: 0 <= i < |scores| ==>
                    out[i] == if offset <= i < offset + n then part[i - offset] else scores[i]
      {
        out := out[offset + n := part[n]];
        n := n + 1;
      }
    }

    /** Scores of a cache miss: each piece on its executor, stitched back at its offset. */
    method Compute(q: string, texts: seq<string>) returns (scores: seq<real>)
      requires Valid()
      ensures scores == Scores(score, q, texts)
    {
      hide Split, Reports, Chunks;
      var pieces := Split(texts, rerankers);
      SplitTiles(texts, rerankers);
      scores := seq(|texts|, _ => 0.0);
      var p := 0;
      while p < |pieces|
        invariant 0 <= p <= |pieces| && |scores| == |texts|
        invariant forall i :: 0 <= i < |texts| && Placed(pieces[..p], i) ==> scores[i] == score(q, texts[i])
      {
        var offset, piece := pieces[p].0, pieces[p].1;
        var part := RerankOnExecutor(q, piece);
        var before := scores;
        scores := Stitch(before, offset, part);
        forall i | 0 <= i < |texts| && Placed(pieces[..p + 1], i) ensures scores[i] == score(q, texts[i]) {
          PlacedNext(pieces, p, i);
          if InPiece(pieces[p], i) {
            assert piece[i - offset] == texts[i];
          }
        }
        p := p + 1;
      }
      assert pieces[..p] == pieces;
    }

    /** `evicted` is what the bounded cache forgets when the answer is stored. A hit answers in the order
        the cached candidates had, whatever order is asked for now. */
    method PredictScores(q: string, texts: seq<string>, evicted: set<Key>) returns (r: Result<seq<real>>)
      requires Valid()
      modifies this
      ensures Valid()
      ensures r.Err? <==> texts != [] && rerankers == 0
      ensures r.Ok? && (texts == [] || (q, multiset(texts)) !in old(cache)) ==> r.value == Scores(score, q, texts)
      ensures r.Ok? && texts != [] && (q, multiset(texts)) in old(cache) ==>
                r.value == Scores(score, q, old(asked)[(q, multiset(texts))])
      ensures var key := (q, multiset(texts));
              if r.Err? || texts == [] || key in old(cache) then cache == old(cache) && asked == old(asked)
              else cache == (old(cache) - evicted)[key := r.value] && asked == (old(asked) - evicted)[key := texts]
    {
      if texts == [] {
        return Ok([]);
      }
      if rerankers == 0 {
        return Err;
      }
      var key := (q, multiset(texts));
      if key in cache {
        return Ok(cache[key]);
      }
      var scores := Compute(q, texts);
      cache := (cache - evicted)[key := scores];
      asked := (asked - evicted)[key := texts];
      return Ok(scores);
    }
  }

  /** Two calls with the same candidates, swapped: the second gets the first one's scores, each at the other's place. */
  method AskSwapped(reranker: Reranker, q: string, a: string, b: string)
    returns (first: Result<seq<real>>, second: Result<seq<real>>)
    requires reranker.Valid() && reranker.rerankers > 0 && (q, multiset{a, b}) !in reranker.cache
    requires reranker.score(q, a) != reranker.score(q, b)
    modifies reranker
    ensures reranker.Valid()
    ensures reranker.cache == old(reranker.cache)[(q, multiset{a, b}) := Scores(reranker.score, q, [a, b])]
    ensures first == Ok(Scores(reranker.score, q, [a, b]))
    ensures second == first && second != Ok(Scores(reranker.score, q, [b, a]))
  {
    assert multiset([a, b]) == multiset{a, b} == multiset([b, a]);
    first := reranker.PredictScores(q, [a, b], {});
    second := reranker.PredictScores(q, [b, a], {});
    assert Scores(reranker.score, q, [a, b])[0] != Scores(reranker.score, q, [b, a])[0];
  }

  /** A cached answer is right for every scorer exactly when the candidates come in the order it was computed in. */
  lemma CachedAnswerIsRightIff(q: string, cached: seq<string>, texts: seq<string>)
    requires multiset(cached) == multiset(texts)
    ensures cached == texts <==>
              forall score: (string, string) -> real :: Scores(score, q, cached) == Scores(score, q, texts)
  {
    assert |multiset(cached)| == |multiset(texts)|;
    if cached != texts {
      var i :| 0 <= i < |texts| && cached[i] != texts[i];
      var t := texts[i];
      var score: (string, string) -> real := (_, s) => if s == t then 1.0 else 0.0;
      assert Scores(score, q, texts)[i] == 1.0 && Scores(score, q, cached)[i] == 0.0;
    }
  }
}
