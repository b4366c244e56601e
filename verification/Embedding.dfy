/** Batched embedding behind a persistent cache: `src/semantic.rs`. Vectors are sequences of f32 bit
    patterns, so nothing here depends on float arithmetic. */
module Embedding {
  import opened Ordering
  import opened Wrappers

  type Word = n: nat | n < 0x1_0000_0000

  type Byte = n: nat | n < 256

  type Embedding = seq<Word>

  // ----- Blobs -----

  function WordBytes(w: Word): seq<Byte> {
    var a := w / 256;
    var b := a / 256;
    [w % 256, a % 256, b % 256, b / 256]
  }

  function WordOf(b: seq<Byte>): Word
    requires |b| == 4
  {
    b[0] as int + 256 * (b[1] as int + 256 * (b[2] as int + 256 * (b[3] as int)))
  }

  /** `f32s_to_bytes`: little-endian, four bytes a value. */
  function ToBytes(v: Embedding): (b: seq<Byte>)
    ensures |b| == 4 * |v|
  {
    if v == [] then [] else ToBytes(v[..|v| - 1]) + WordBytes(v[|v| - 1])
  }

  function Words(b: seq<Byte>): (v: Embedding)
    requires |b| % 4 == 0
    ensures 4 * |v| == |b|
  {
    if b == [] then [] else Words(b[..|b| - 4]) + [WordOf(b[|b| - 4..])]
  }

  /** `bytes_to_f32s`: a blob of the wrong size is not a vector. */
  function FromBytes(b: seq<Byte>): Option<Embedding> {
    if |b| % 4 != 0 then None else Some(Words(b))
  }

  lemma WordRoundTrip(w: Word)
    ensures WordOf(WordBytes(w)) == w
  {}

  lemma {:induction false} BlobRoundTrip(v: Embedding)
    ensures FromBytes(ToBytes(v)) == Some(v)
  {
    if v != [] {
      var n := |v| - 1;
      BlobRoundTrip(v[..n]);
      var b := ToBytes(v);
      assert |b| == 4 * n + 4 && |b| % 4 == 0;
      assert b[..|b| - 4] == ToBytes(v[..n]);
      assert b[|b| - 4..] == WordBytes(v[n]);
      WordRoundTrip(v[n]);
      assert Words(b) == Words(b[..|b| - 4]) + [WordOf(b[|b| - 4..])];
      assert v == v[..n] + [v[n]];
    }
  }

  /** Value `i` takes the bytes from `4 * i` on, the least significant first. */
  lemma {:induction false} BytesAt(v: Embedding, i: nat)
    requires i < |v|
    ensures var b := ToBytes(v);
            v[i] as int == b[4 * i] as int + 256 * b[4 * i + 1] as int + 65536 * b[4 * i + 2] as int +
                             16777216 * b[4 * i + 3] as int
  {
    var n := |v| - 1;
    if i < n {
      BytesAt(v[..n], i);
    } else {
      LittleEndian(v[n]);
    }
  }

  lemma LittleEndian(w: Word)
    ensures var b := WordBytes(w);
            w as int == b[0] as int + 256 * b[1] as int + 65536 * b[2] as int + 16777216 * b[3] as int
  {}

  lemma {:induction false} BytesRoundTrip(b: seq<Byte>)
    requires |b| % 4 == 0
    ensures ToBytes(Words(b)) == b
  {
    if b != [] {
      var front, last := b[..|b| - 4], b[|b| - 4..];
      BytesRoundTrip(front);
      BytesOfWord(last);
      assert Words(b)[..|Words(b)| - 1] == Words(front);
      assert b == front + last;
    }
  }

  lemma BytesOfWord(b: seq<Byte>)
    requires |b| == 4
    ensures WordBytes(WordOf(b)) == b
  {
    var rest := b[1] as int + 256 * (b[2] as int + 256 * (b[3] as int));
    var upper := b[2] as int + 256 * (b[3] as int);
    assert WordOf(b) == b[0] as int + 256 * rest && rest == b[1] as int + 256 * upper;
    assert WordOf(b) / 256 == rest && rest / 256 == upper && upper / 256 == b[3] as int;
  }

  // ----- The cache -----

  type Hash = nat

  /** A row of the wrong size counts as absent. */
  function LookupIn(rows: map<(string, Hash), seq<Byte>>, key: string, hash: Hash, dim: nat): Option<Embedding> {
    if (key, hash) !in rows then None else
    var v := FromBytes(rows[(key, hash)]);
    if v.Some? && |v.value| == dim then v else None
  }

  /** How many positions have a vector. */
  function Vectors(results: seq<Option<Embedding>>): (n: nat)
    ensures n <= |results|
  {
    if results == [] then 0 else Vectors(results[..|results| - 1]) + if results[|results| - 1].Some? then 1 else 0
  }

  /** What is found is a vector of the right size whose bytes are the row. */
  lemma LookupIff(rows: map<(string, Hash), seq<Byte>>, key: string, hash: Hash, dim: nat, v: Embedding)
    ensures LookupIn(rows, key, hash, dim) == Some(v) <==>
              (key, hash) in rows && rows[(key, hash)] == ToBytes(v) && |v| == dim
  {
    BlobRoundTrip(v);
    if (key, hash) in rows && |rows[(key, hash)]| % 4 == 0 {
      BytesRoundTrip(rows[(key, hash)]);
    }
  }

  /** Rows keyed by model and text hash. Reads and writes may fail; a failure is only ever a miss. */
  class EmbeddingCache {
    const enabled: bool
    var rows: map<(string, Hash), seq<Byte>>
    var hits: nat
    var misses: nat

    constructor (enabled: bool)
      ensures this.enabled == enabled && rows == map[] && hits == 0 && misses == 0
    {
      this.enabled, rows, hits, misses := enabled, map[], 0, 0;
    }

    function Lookup(key: string, hash: Hash, dim: nat): Option<Embedding>
      reads this`rows
    {
      LookupIn(rows, key, hash, dim)
    }

    method GetMany(key: string, hashes: seq<Hash>, dim: nat, readFails: bool) returns (out: seq<Option<Embedding>>)
      modifies this`hits, this`misses
      ensures |out| == |hashes|
      ensures forall i :: 0 <= i < |hashes| ==>
                out[i] == if enabled && !readFails then Lookup(key, hashes[i], dim) else None
      ensures hits == old(hits) + if enabled then Vectors(out) else 0
      ensures misses == old(misses) + if enabled then |out| - Vectors(out) else 0
    {
      out := [];
      var found := 0;
      while |out| < |hashes|
        invariant |out| <= |hashes| && found == Vectors(out)
        invariant forall i :: 0 <= i < |out| ==>
                    out[i] == if enabled && !readFails then Lookup(key, hashes[i], dim) else None
      {
        var v := if enabled && !readFails then Lookup(key, hashes[|out|], dim) else None;
        assert (out + [v])[..|out|] == out;
        if v.Some? { found := found + 1; }
        out := out + [v];
      }
      if enabled {
        hits := hits + found;
        misses := misses + (|out| - found);
      }
    }

    /** One transaction: all rows or none. */
    method PutMany(key: string, items: seq<(Hash, Embedding)>, writeFails: bool)
      modifies this`rows
      ensures !enabled || writeFails ==> rows == old(rows)
      ensures enabled && !writeFails ==> rows == RowsAfter(old(rows), key, items)
    {
      if !enabled || writeFails {
        return;
      }
      var n := 0;
      while n < |items|
        invariant 0 <= n <= |items|
        invariant rows == RowsAfter(old(rows), key, items[..n])
      {
        assert items[..n + 1][..n] == items[..n];
        rows := rows[(key, items[n].0) := ToBytes(items[n].1)];
        n := n + 1;
      }
      assert items[..n] == items;
    }

    method Clear()
      modifies this
      ensures rows == (if enabled then map[] else old(rows)) && hits == 0 && misses == 0
    {
      if enabled { rows := map[]; }
      hits, misses := 0, 0;
    }
  }

  function RowsAfter(rows: map<(string, Hash), seq<Byte>>, key: string, items: seq<(Hash, Embedding)>): map<(string,
        Hash), seq<Byte>> {
    if items == [] then rows else
    var last := items[|items| - 1];
    RowsAfter(rows, key, items[..|items| - 1])[(key, last.0) := ToBytes(last.1)]
  }

  // ----- The pipeline -----

  /** The foreign parts: the text hash, the pointwise model, and which batches an executor refuses. */
  datatype Model = Model(
    hash: string -> Hash,
    embed: string -> Embedding,
    refuses: seq<string> -> bool)

  /** The hash tells texts apart. */
  ghost predicate Injective(hash: string -> Hash) {
    forall a, b :: hash(a) == hash(b) ==> a == b
  }

  predicate Finite(w: Word) {
    w / 0x80_0000 % 256 != 255
  }

  predicate ValidEmbedding(v: Embedding, dim: nat) {
    |v| == dim && forall i :: 0 <= i < |v| ==> Finite(v[i])
  }

  function Embeddings(m: Model, texts: seq<string>): seq<Embedding> {
    seq(|texts|, i requires 0 <= i < |texts| => m.embed(texts[i]))
  }

  /** `chunks`: consecutive pieces of `size`, the last one possibly shorter. */
  function Chunks<T>(s: seq<T>, size: nat): (c: seq<seq<T>>)
    requires size > 0
    ensures forall i :: 0 <= i < |c| ==> 0 < |c[i]| <= size
    decreases |s|
  {
    if s == [] then [] else
    if |s| <= size then [s] else [s[..size]] + Chunks(s[size..], size)
  }

  function Flatten<T>(c: seq<seq<T>>): seq<T> {
    if c == [] then [] else c[0] + Flatten(c[1..])
  }

  lemma {:induction false} ChunksFlatten<T>(s: seq<T>, size: nat)
    requires size > 0
    ensures Flatten(Chunks(s, size)) == s
    decreases |s|
  {
    if s == [] {
    } else if |s| <= size {
      assert Flatten([s]) == s + Flatten([]);
    } else {
      ChunksFlatten(s[size..], size);
      assert Chunks(s, size)[1..] == Chunks(s[size..], size);
    }
  }

  /** All batches but the last are full. */
  lemma {:induction false} ChunksAreFull<T>(s: seq<T>, size: nat, b: nat)
    requires size > 0 && b + 1 < |Chunks(s, size)|
    ensures |Chunks(s, size)[b]| == size
    decreases |s|
  {
    if b > 0 { ChunksAreFull(s[size..], size, b - 1); }
  }

  lemma {:induction false} ChunksCover<T>(s: seq<T>, size: nat)
    requires size > 0
    ensures forall b, k :: 0 <= b < |Chunks(s, size)| && 0 <= k < |Chunks(s, size)[b]| ==> Chunks(s, size)[b][k] in s
    ensures forall x :: x in s ==>
              exists b, k :: 0 <= b < |Chunks(s, size)| && 0 <= k < |Chunks(s, size)[b]| && Chunks(s, size)[b][k] == x
    decreases |s|
  {
    var c := Chunks(s, size);
    if s == [] {
    } else if |s| <= size {
      forall x | x in s ensures exists b, k :: 0 <= b < |c| && 0 <= k < |c[b]| && c[b][k] == x {
        var k :| 0 <= k < |s| && s[k] == x;
        assert c[0][k] == x;
      }
    } else {
      ChunksCover(s[size..], size);
      var d := Chunks(s[size..], size);
      assert c == [s[..size]] + d;
      forall x | x in s ensures exists b, k :: 0 <= b < |c| && 0 <= k < |c[b]| && c[b][k] == x {
        var k :| 0 <= k < |s| && s[k] == x;
        if k < size {
          assert c[0][k] == x;
        } else {
          assert x == s[size..][k - size];
          assert x in s[size..];
          var b, j :| 0 <= b < |d| && 0 <= j < |d[b]| && d[b][j] == x;
          assert c[b + 1][j] == x;
        }
      }
      forall b, k | 0 <= b < |c| && 0 <= k < |c[b]| ensures c[b][k] in s {
        if b > 0 { assert c[b] == d[b - 1] && c[b][k] in s[size..]; }
      }
    }
  }

  class SemanticInference {
    const key: string
    const dim: nat
    const batch: nat
    const executors: nat
    const model: Model
    const cache: EmbeddingCache

    constructor (key: string, dim: nat, batch: nat, executors: nat, model: Model, cache: EmbeddingCache)
      requires batch >= 1
      ensures this.key == key && this.dim == dim && this.batch == batch && this.executors == executors
      ensures this.model == model && this.cache == cache
    {
      this.key, this.dim, this.batch, this.executors := key, dim, batch, executors;
      this.model, this.cache := model, cache;
    }

    /** A usable cached row for a text under this model holds the model's vector for it. */
    ghost predicate CacheSound()
      reads cache
    {
      forall t :: cache.Lookup(key, model.hash(t), dim).Some? ==>
        cache.Lookup(key, model.hash(t), dim).value == model.embed(t)
    }

    /** A usable cached row for a text under this model has `dim` finite values. */
    ghost predicate CacheValid()
      reads cache
    {
      forall t :: cache.Lookup(key, model.hash(t), dim).Some? ==>
        ValidEmbedding(cache.Lookup(key, model.hash(t), dim).value, dim)
    }

    ghost predicate Cached(t: string)
      reads cache
    {
      cache.enabled && cache.Lookup(key, model.hash(t), dim) == Some(model.embed(t))
    }

    /** What can go wrong with a batch of real inference. */
    predicate BatchFails(inputs: seq<string>) {
      model.refuses(inputs) || exists t :: t in inputs && !ValidEmbedding(model.embed(t), dim)
    }

    method EmbedOnExecutor(texts: seq<string>, indices: seq<nat>) returns (r: Result<seq<Embedding>>)
      requires forall k :: 0 <= k < |indices| ==> indices[k] < |texts|
      ensures r.Ok? ==> |r.value| == |indices| && forall k :: 0 <= k < |indices| ==>
                r.value[k] == model.embed(texts[indices[k]]) && ValidEmbedding(r.value[k], dim)
      ensures r.Err? ==> BatchFails(Picked(texts, indices))
    {
      var inputs := Picked(texts, indices);
      if model.refuses(inputs) {
        return Err;
      }
      var vectors := Embeddings(model, inputs);
      var k := 0;
      while k < |vectors|
        invariant 0 <= k <= |vectors|
        invariant forall j :: 0 <= j < k ==> ValidEmbedding(vectors[j], dim)
      {
        if !ValidEmbedding(vectors[k], dim) {
          assert inputs[k] in inputs && vectors[k] == model.embed(inputs[k]);
          return Err;
        }
        k := k + 1;
      }
      return Ok(vectors);
    }

    /** Some batch of these texts goes wrong. */
    ghost predicate SomeBatchFails(texts: seq<string>) {
      exists inputs :: BatchFails(inputs) && 0 < |inputs| <= batch && forall t :: t in inputs ==> t in texts
    }

    method ComputeBatches(texts: seq<string>, batches: seq<seq<nat>>) returns (r: Result<seq<seq<Embedding>>>)
      requires forall b, k :: 0 <= b < |batches| && 0 <= k < |batches[b]| ==> batches[b][k] < |texts|
      ensures r.Ok? ==> |r.value| == |batches|
      ensures r.Ok? ==> forall b :: 0 <= b < |batches| ==> Computed(texts, batches[b], r.value[b])
      ensures r.Err? ==> exists b :: 0 <= b < |batches| && BatchFails(Picked(texts, batches[b]))
    {
      var computed := [];
      while |computed| < |batches|
        invariant |computed| <= |batches|
        invariant forall b :: 0 <= b < |computed| ==> Computed(texts, batches[b], computed[b])
      {
        var indices := batches[|computed|];
        var vectors := EmbedOnExecutor(texts, indices);
        if vectors.Err? {
          return Err;
        }
        computed := computed + [vectors.value];
      }
      return Ok(computed);
    }

    ghost predicate Computed(texts: seq<string>, indices: seq<nat>, vectors: seq<Embedding>)
      requires forall k :: 0 <= k < |indices| ==> indices[k] < |texts|
    {
      |vectors| == |indices| && forall k :: 0 <= k < |indices| ==>
        vectors[k] == model.embed(texts[indices[k]]) && ValidEmbedding(vectors[k], dim)
    }

    /** A position is as before or holds the model's vector. */
    predicate Filled(text: string, before: Option<Embedding>, now: Option<Embedding>) {
      now == before || now == Some(model.embed(text))
    }

    /** Writes each batch's vectors back to the positions they came from. */
    method Scatter(texts: seq<string>, batches: seq<seq<nat>>, computed: seq<seq<Embedding>>,
          before: seq<Option<Embedding>>)
      returns (results: seq<Option<Embedding>>)
      requires |before| == |texts| && |computed| == |batches|
      requires forall b, k :: 0 <= b < |batches| && 0 <= k < |batches[b]| ==> batches[b][k] < |texts|
      requires forall b :: 0 <= b < |batches| ==> Computed(texts, batches[b], computed[b])
      ensures |results| == |texts|
      ensures forall i :: 0 <= i < |texts| ==> Filled(texts[i], before[i], results[i])
      ensures forall b, k :: 0 <= b < |batches| && 0 <= k < |batches[b]| ==>
                results[batches[b][k]] == Some(model.embed(texts[batches[b][k]]))
    {
      results := before;
      var b := 0;
      while b < |batches|
        invariant 0 <= b <= |batches| && |results| == |texts|
        invariant forall i :: 0 <= i < |texts| ==> Filled(texts[i], before[i], results[i])
        invariant forall c, k :: 0 <= c < b && 0 <= k < |batches[c]| ==>
                    results[batches[c][k]] == Some(model.embed(texts[batches[c][k]]))
      {
        var k := 0;
        assert Computed(texts, batches[b], computed[b]);
        while k < |batches[b]|
          invariant 0 <= k <= |batches[b]| && |results| == |texts|
          invariant forall i :: 0 <= i < |texts| ==>
                      Filled(texts[i], before[i], results[i])
          invariant forall c, j :: 0 <= c < b && 0 <= j < |batches[c]| ==>
                      results[batches[c][j]] == Some(model.embed(texts[batches[c][j]]))
          invariant forall j :: 0 <= j < k ==> results[batches[b][j]] == Some(model.embed(texts[batches[b][j]]))
        {
          results := results[batches[b][k] := Some(computed[b][k])];
          k := k + 1;
        }
        b := b + 1;
      }
    }

    /** Positions still without a vector, each once, shortest text first. */
    method MissingByLength(texts: seq<string>, results: seq<Option<Embedding>>) returns (missing: seq<nat>)
      requires |results| == |texts|
      ensures forall i :: i in missing <==> 0 <= i < |texts| && results[i] == None
      ensures Distinct(missing) && ShortestFirst(texts, missing)
    {
      var sized: seq<(nat, nat)> := [];
      var i := 0;
      while i < |texts|
        invariant 0 <= i <= |texts| && Distinct(sized)
        invariant forall x :: x in sized <==> x.1 < i && IsMissing(texts, results, x)
      {
        if results[i] == None { sized := sized + [(|texts[i]|, i)]; }
        i := i + 1;
      }
      missing := Positions(Sort(ByLength, sized));
      SortedPositions(texts, results, sized);
    }

    /** Fills every missing position, by batches on the executors or directly in stub mode. */
    method FillMissing(texts: seq<string>, missing: seq<nat>, before: seq<Option<Embedding>>)
      returns (filled: Result<seq<Option<Embedding>>>)
      requires batch >= 1 && |before| == |texts|
      requires forall k :: 0 <= k < |missing| ==> missing[k] < |texts|
      ensures filled.Ok? ==> |filled.value| == |texts|
      ensures filled.Ok? ==> forall i :: 0 <= i < |texts| ==> Filled(texts[i], before[i], filled.value[i])
      ensures filled.Ok? ==> forall i :: i in missing ==> filled.value[i] == Some(model.embed(texts[i]))
      ensures filled.Ok? && executors > 0 ==> forall i :: i in missing ==> ValidEmbedding(model.embed(texts[i]), dim)
      ensures filled.Err? ==> executors > 0 && SomeBatchFails(Picked(texts, missing))
    {
      var results := before;
      assert forall k :: 0 <= k < |missing| ==> missing[k] in missing;
      if executors == 0 {
        var n := 0;
        while n < |missing|
          invariant 0 <= n <= |missing| && |results| == |texts|
          invariant forall i :: 0 <= i < |texts| ==>
                      Filled(texts[i], before[i], results[i])
          invariant forall j :: 0 <= j < n ==> results[missing[j]] == Some(model.embed(texts[missing[j]]))
        {
          results := results[missing[n] := Some(model.embed(texts[missing[n]]))];
          n := n + 1;
        }
      } else {
        var batches := Chunks(missing, batch);
        ChunksCover(missing, batch);
        var computed := ComputeBatches(texts, batches);
        if computed.Err? {
          BatchOfMissing(texts, missing, batches);
          return Err;
        }
        results := Scatter(texts, batches, computed.value, results);
        forall i | i in missing
          ensures results[i] == Some(model.embed(texts[i])) && ValidEmbedding(model.embed(texts[i]), dim)
        {
          var b, k :| 0 <= b < |batches| && 0 <= k < |batches[b]| && batches[b][k] == i;
        }
      }
      return Ok(results);
    }

    lemma BatchOfMissing(texts: seq<string>, missing: seq<nat>, batches: seq<seq<nat>>)
      requires forall k :: 0 <= k < |missing| ==> missing[k] < |texts|
      requires forall b, k :: 0 <= b < |batches| && 0 <= k < |batches[b]| ==> batches[b][k] in missing
      requires forall b :: 0 <= b < |batches| ==> 0 < |batches[b]| <= batch
      requires exists b :: 0 <= b < |batches| && BatchFails(Picked(texts, batches[b]))
      ensures SomeBatchFails(Picked(texts, missing))
    {
      var b :| 0 <= b < |batches| && BatchFails(Picked(texts, batches[b]));
      var inputs := Picked(texts, batches[b]);
      forall t | t in inputs ensures t in Picked(texts, missing) {
        var k :| 0 <= k < |inputs| && inputs[k] == t;
        assert batches[b][k] in missing;
        var j :| 0 <= j < |missing| && missing[j] == batches[b][k];
        assert Picked(texts, missing)[j] == t;
      }
    }

    /** Caches the computed vectors. */
    method StoreComputed(texts: seq<string>, hashes: seq<Hash>, missing: seq<nat>, results: seq<Option<Embedding>>,
          writeFails: bool)
      requires Injective(model.hash) && CacheSound() && |results| == |hashes| == |texts|
      requires forall i :: 0 <= i < |texts| ==> hashes[i] == model.hash(texts[i])
      requires forall k :: 0 <= k < |missing| ==>
                 missing[k] < |texts| && results[missing[k]] == Some(model.embed(texts[missing[k]]))
      modifies cache`rows
      ensures CacheSound() && forall t :: old(Cached(t)) ==> Cached(t)
      ensures cache.enabled && !writeFails ==>
                forall k :: 0 <= k < |missing| && |model.embed(texts[missing[k]])| == dim ==> Cached(texts[missing[k]])
      ensures old(CacheValid()) && ModelValidAt(texts, missing) ==> CacheValid()
    {
      var items := seq(|missing|, k requires 0 <= k < |missing| && missing[k] < |texts| && results[missing[k]].Some? =>
        (hashes[missing[k]], results[missing[k]].value));
      cache.PutMany(key, items, writeFails);
      WritesKeepSound(texts, missing, items, old(cache.rows));
      if old(CacheValid()) && ModelValidAt(texts, missing) {
        WritesKeepValid(texts, missing, items, old(cache.rows));
      }
    }

    /** The model's vectors at these positions have `dim` finite values. */
    ghost predicate ModelValidAt(texts: seq<string>, indices: seq<nat>)
      requires forall k :: 0 <= k < |indices| ==> indices[k] < |texts|
    {
      forall k :: 0 <= k < |indices| ==> ValidEmbedding(model.embed(texts[indices[k]]), dim)
    }

    lemma WritesKeepValid(texts: seq<string>, missing: seq<nat>, items: seq<(Hash, Embedding)>,
          before: map<(string, Hash), seq<Byte>>)
      requires |items| == |missing| && forall k :: 0 <= k < |missing| ==> missing[k] < |texts|
      requires forall k :: 0 <= k < |missing| ==>
                 items[k] == (model.hash(texts[missing[k]]), model.embed(texts[missing[k]]))
      requires ModelValidAt(texts, missing)
      requires forall t :: LookupIn(before, key, model.hash(t), dim).Some? ==>
                 ValidEmbedding(LookupIn(before, key, model.hash(t), dim).value, dim)
      requires cache.rows == before || cache.rows == RowsAfter(before, key, items)
      ensures CacheValid()
    {
      forall t | cache.Lookup(key, model.hash(t), dim).Some?
        ensures ValidEmbedding(cache.Lookup(key, model.hash(t), dim).value, dim)
      {
        RowAfter(before, key, items, model.hash(t));
        forall k | 0 <= k < |items| ensures FromBytes(ToBytes(items[k].1)) == Some(items[k].1) {
          BlobRoundTrip(items[k].1);
        }
      }
    }

    /** Executors check what they compute; without any, the stand-in model is taken at its word. */
    ghost predicate ComputesValid(texts: seq<string>) {
      executors > 0 || forall t :: t in texts ==> ValidEmbedding(model.embed(t), dim)
    }

    /** Computes and caches what the lookup did not find. */
    method EmbedMissing(texts: seq<string>, hashes: seq<Hash>, first: seq<Option<Embedding>>, missing: seq<nat>,
          writeFails: bool)
      returns (filled: Result<seq<Option<Embedding>>>)
      requires batch >= 1 && Injective(model.hash) && CacheSound() && |first| == |hashes| == |texts|
      requires forall i :: 0 <= i < |texts| ==>
                 hashes[i] == model.hash(texts[i]) && (first[i].Some? ==> first[i].value == model.embed(texts[i]))
      requires forall k :: 0 <= k < |missing| ==> missing[k] < |texts|
      requires forall i :: i in missing <==> 0 <= i < |texts| && first[i] == None
      modifies cache`rows
      ensures CacheSound() && forall t :: old(Cached(t)) ==> Cached(t)
      ensures filled.Ok? ==> AllEmbedded(texts, filled.value)
      ensures filled.Ok? && cache.enabled && !writeFails ==>
                forall i :: i in missing && |model.embed(texts[i])| == dim ==> Cached(texts[i])
      ensures filled.Err? ==> executors > 0 && SomeBatchFails(Picked(texts, missing)) && cache.rows == old(cache.rows)
      ensures old(CacheValid()) && ComputesValid(texts) ==>
                CacheValid() && (filled.Ok? ==> forall i :: i in missing ==> ValidEmbedding(model.embed(texts[i]), dim))
    {
      filled := FillMissing(texts, missing, first);
      if filled.Ok? {
        assert forall k :: 0 <= k < |missing| ==> missing[k] in missing && texts[missing[k]] in texts;
        assert ComputesValid(texts) ==> ModelValidAt(texts, missing);
        StoreComputed(texts, hashes, missing, filled.value, writeFails);
      }
    }

    ghost predicate AllEmbedded(texts: seq<string>, results: seq<Option<Embedding>>) {
      |results| == |texts| && forall i :: 0 <= i < |texts| ==> results[i] == Some(model.embed(texts[i]))
    }

    lemma FoundAreValid(texts: seq<string>, first: seq<Option<Embedding>>, missing: seq<nat>)
      requires |first| == |texts| && forall i :: i in missing <==> 0 <= i < |texts| && first[i] == None
      requires forall i :: 0 <= i < |texts| && first[i].Some? ==>
                 first[i].value == model.embed(texts[i]) && ValidEmbedding(first[i].value, dim)
      requires forall i :: i in missing ==> ValidEmbedding(model.embed(texts[i]), dim)
      ensures forall v :: v in Embeddings(model, texts) ==> ValidEmbedding(v, dim)
    {
      forall i | 0 <= i < |texts| ensures ValidEmbedding(Embeddings(model, texts)[i], dim) {
        assert first[i].Some? || i in missing;
      }
    }

    lemma FoundAreCached(texts: seq<string>, first: seq<Option<Embedding>>, missing: seq<nat>)
      requires |first| == |texts| && forall i :: i in missing <==> 0 <= i < |texts| && first[i] == None
      requires forall i :: 0 <= i < |texts| && first[i].Some? ==> Cached(texts[i])
      requires forall i :: i in missing && |model.embed(texts[i])| == dim ==> Cached(texts[i])
      ensures forall t :: t in texts && |model.embed(t)| == dim ==> Cached(t)
    {
      forall t | t in texts && |model.embed(t)| == dim ensures Cached(t) {
        var i :| 0 <= i < |texts| && texts[i] == t;
        assert first[i].Some? || i in missing;
      }
    }

    /** The texts whose vectors a lookup does not find. */
    ghost function Unserved(texts: seq<string>, readFails: bool): set<string>
      reads cache
    {
      set t | t in texts && (!cache.enabled || readFails || cache.Lookup(key, model.hash(t), dim) == None)
    }

    /** Some batch of texts that the cache does not serve goes wrong. */
    ghost predicate UnservedBatchFails(texts: seq<string>, readFails: bool)
      reads cache
    {
      exists inputs :: BatchFails(inputs) && 0 < |inputs| <= batch &&
        forall t :: t in inputs ==> t in Unserved(texts, readFails)
    }

    lemma MissingIsUnserved(texts: seq<string>, missing: seq<nat>, readFails: bool)
      requires forall k :: 0 <= k < |missing| ==>
                 missing[k] < |texts| && texts[missing[k]] in Unserved(texts, readFails)
      requires SomeBatchFails(Picked(texts, missing))
      ensures UnservedBatchFails(texts, readFails)
    {
      var inputs :| BatchFails(inputs) && 0 < |inputs| <= batch &&
        forall t :: t in inputs ==> t in Picked(texts, missing);
      forall t | t in inputs ensures t in Unserved(texts, readFails) {
        var k :| 0 <= k < |missing| && Picked(texts, missing)[k] == t;
      }
    }

    /** Embeds `texts` in input order. */
    method EmbedTexts(texts: seq<string>, readFails: bool, writeFails: bool) returns (r: Result<seq<Embedding>>)
      requires batch >= 1 && Injective(model.hash) && CacheSound()
      modifies cache
      ensures CacheSound()
      ensures r.Ok? ==> r.value == Embeddings(model, texts)
      ensures r.Ok? && cache.enabled && !writeFails ==> forall t :: t in texts && |model.embed(t)| == dim ==> Cached(t)
      ensures r.Err? ==> executors > 0 && UnservedBatchFails(texts, readFails) && cache.rows == old(cache.rows)
      ensures cache.hits + cache.misses == old(cache.hits + cache.misses) + if cache.enabled then |texts| else 0
      ensures old(CacheValid()) && ComputesValid(texts) ==>
                CacheValid() && (r.Ok? ==> forall v :: v in r.value ==> ValidEmbedding(v, dim))
    {
      hide ValidEmbedding, SomeBatchFails, UnservedBatchFails, Injective, FromBytes, ShortestFirst, Present, Distinct;
      if texts == [] {
        return Ok([]);
      }
      var hashes := seq(|texts|, i requires 0 <= i < |texts| => model.hash(texts[i]));
      var results := cache.GetMany(key, hashes, dim, readFails);
      var missing := MissingByLength(texts, results);
      ghost var first := results;
      if missing != [] {
        var filled := EmbedMissing(texts, hashes, results, missing, writeFails);
        if filled.Err? {
          MissingIsUnserved(texts, missing, readFails);
          return Err;
        }
        results := filled.value;
      }
      AllPresent(model, texts, results);
      if old(CacheValid()) && ComputesValid(texts) {
        FoundAreValid(texts, first, missing);
      }
      if cache.enabled && !writeFails {
        FoundAreCached(texts, first, missing);
      }
      var embedded := Present(results);
      if |embedded| != |texts| {
        return Err;
      }
      return Ok(embedded);
    }

    /** Writing the model's own vectors leaves every cached row right, and these texts cached. */
    lemma WritesKeepSound(texts: seq<string>, missing: seq<nat>, items: seq<(Hash, Embedding)>,
          before: map<(string, Hash), seq<Byte>>)
      requires Injective(model.hash) && |items| == |missing|
      requires forall k :: 0 <= k < |missing| ==>
                 missing[k] < |texts| && items[k] == (model.hash(texts[missing[k]]), model.embed(texts[missing[k]]))
      requires forall t :: LookupIn(before, key, model.hash(t), dim).Some? ==>
                 LookupIn(before, key, model.hash(t), dim).value == model.embed(t)
      requires cache.rows == before || cache.rows == RowsAfter(before, key, items)
      ensures CacheSound()
      ensures forall t :: LookupIn(before, key, model.hash(t), dim).Some? ==>
                cache.Lookup(key, model.hash(t), dim) == Some(model.embed(t))
      ensures cache.rows == RowsAfter(before, key, items) ==>
                forall k :: 0 <= k < |missing| && |items[k].1| == dim ==>
                  cache.Lookup(key, items[k].0, dim) == Some(items[k].1)
    {
      forall t
        ensures LookupIn(before, key, model.hash(t), dim).Some? ==>
                  cache.Lookup(key, model.hash(t), dim) == Some(model.embed(t))
        ensures cache.Lookup(key, model.hash(t), dim).Some? ==>
                  cache.Lookup(key, model.hash(t), dim).value == model.embed(t)
      {
        RowAfter(before, key, items, model.hash(t));
        BlobRoundTrip(model.embed(t));
      }
      forall k | 0 <= k < |missing| && |items[k].1| == dim && cache.rows == RowsAfter(before, key, items)
        ensures cache.Lookup(key, items[k].0, dim) == Some(items[k].1)
      {
        RowAfter(before, key, items, items[k].0);
        BlobRoundTrip(items[k].1);
      }
    }
  }

  lemma AllPresent(m: Model, texts: seq<string>, results: seq<Option<Embedding>>)
    requires |results| == |texts| && forall i :: 0 <= i < |texts| ==> results[i] == Some(m.embed(texts[i]))
    ensures Present(results) == Embeddings(m, texts)
  {
    if texts != [] {
      var n := |texts| - 1;
      AllPresent(m, texts[..n], results[..n]);
      assert Embeddings(m, texts) == Embeddings(m, texts[..n]) + [m.embed(texts[n])];
    }
  }

  /** A key's row after the writes: the last item for that hash, or the row before. */
  lemma {:induction false} RowAfter(rows: map<(string, Hash), seq<Byte>>, key: string, items: seq<(Hash, Embedding)>,
        h: Hash)
    ensures var after, row := RowsAfter(rows, key, items), (key, h);
            || (exists k :: 0 <= k < |items| && items[k].0 == h && row in after && after[row] == ToBytes(items[k].1))
            || ((forall k :: 0 <= k < |items| ==> items[k].0 != h)
                && (row in after <==> row in rows) && (row in rows ==> after[row] == rows[row]))
  {
    if items != [] {
      var n := |items| - 1;
      RowAfter(rows, key, items[..n], h);
      if items[n].0 == h {
        assert items[n].0 == h;
      }
    }
  }

  function Picked(texts: seq<string>, indices: seq<nat>): seq<string>
    requires forall k :: 0 <= k < |indices| ==> indices[k] < |texts|
  {
    seq(|indices|, k requires 0 <= k < |indices| => texts[indices[k]])
  }

  function Positions(sized: seq<(nat, nat)>): (positions: seq<nat>)
    ensures |positions| == |sized|
  {
    seq(|sized|, k requires 0 <= k < |sized| => sized[k].1)
  }

  /** The entry of a text still without a vector: its length and position. */
  predicate IsMissing(texts: seq<string>, results: seq<Option<Embedding>>, x: (nat, nat)) {
    x.1 < |texts| && x.1 < |results| && results[x.1] == None && x.0 == |texts[x.1]|
  }

  lemma SortedPositions(texts: seq<string>, results: seq<Option<Embedding>>, sized: seq<(nat, nat)>)
    requires |results| == |texts| && Distinct(sized)
    requires forall x :: x in sized <==> IsMissing(texts, results, x)
    ensures var positions := Positions(Sort(ByLength, sized)); Distinct(positions) && ShortestFirst(texts, positions)
    ensures forall i :: i in Positions(Sort(ByLength, sized)) <==> 0 <= i < |texts| && results[i] == None
  {
    SortPermutes(ByLength, sized);
    SortSorts(ByLength, sized);
    SortKeepsDistinct(ByLength, sized);
    PositionsOf(texts, results, Sort(ByLength, sized));
  }

  lemma PositionsOf(texts: seq<string>, results: seq<Option<Embedding>>, sorted: seq<(nat, nat)>)
    requires |results| == |texts| && Distinct(sorted) && SortedBy(ByLength, sorted)
    requires forall x :: x in sorted <==> IsMissing(texts, results, x)
    ensures Distinct(Positions(sorted)) && ShortestFirst(texts, Positions(sorted))
    ensures forall i :: i in Positions(sorted) <==> 0 <= i < |texts| && results[i] == None
  {
    var positions := Positions(sorted);
    assert forall k :: 0 <= k < |sorted| ==> IsMissing(texts, results, sorted[k]) by {
      assert forall k :: 0 <= k < |sorted| ==> sorted[k] in sorted;
    }
    forall i, j | 0 <= i < j < |sorted|
      ensures |texts[positions[i]]| < |texts[positions[j]]|
           || (|texts[positions[i]]| == |texts[positions[j]]| && positions[i] < positions[j])
    {
      assert ByLength(sorted[i], sorted[j]) && sorted[i] != sorted[j];
    }
    forall j: nat | j < |texts| && results[j] == None ensures j in positions {
      assert IsMissing(texts, results, (|texts[j]|, j));
      var k :| 0 <= k < |sorted| && sorted[k] == (|texts[j]|, j);
      assert positions[k] == j;
    }
  }

  /** `indices` point at `texts` of non-decreasing length, equally long ones in order. */
  ghost predicate ShortestFirst(texts: seq<string>, indices: seq<nat>) {
    && (forall a :: 0 <= a < |indices| ==> indices[a] < |texts|)
    && (forall a, b :: 0 <= a < b < |indices| ==>
          |texts[indices[a]]| < |texts[indices[b]]| ||
          (|texts[indices[a]]| == |texts[indices[b]]| && indices[a] < indices[b]))
  }

  /** The order of a stable sort by length over positions in order. */
  predicate ByLength(a: (nat, nat), b: (nat, nat)) {
    a.0 < b.0 || (a.0 == b.0 && a.1 <= b.1)
  }

  /** `into_iter().flatten()`: the vectors that are there. */
  function Present(results: seq<Option<Embedding>>): seq<Embedding> {
    if results == [] then [] else
    var rest := Present(results[..|results| - 1]);
    match results[|results| - 1]
    case Some(v) => rest + [v]
    case None => rest
  }
}
