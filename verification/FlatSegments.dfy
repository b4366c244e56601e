/** Flat storage of one entity's vectors: `ids`, `positions` and a row-major code buffer kept in step. */
module FlatSegments {
  import opened Collections
  import opened Ordering
  import opened TopK
  import opened Kernels
  import opened Formats

  /** All rows, back to back, in the configured precision. */
  datatype Codes =
    | F32Codes(data: seq<real>)
    | F16Codes(halves: seq<real>)
    | I8Codes(codes: seq<int>, scales: seq<real>)
    | BinaryCodes(words: seq<nat>)

  // ----- Row-major buffers -----

  ghost predicate Sized<T>(data: seq<T>, rows: nat, width: nat) {
    |data| == rows * width
  }

  lemma RowBounds(row: nat, rows: nat, width: nat)
    requires row < rows
    ensures row * width <= row * width + width == (row + 1) * width <= rows * width
  {
    assert (rows - row - 1) * width >= 0;
  }

  function RowOf<T>(data: seq<T>, rows: nat, width: nat, row: nat): (r: seq<T>)
    requires Sized(data, rows, width) && row < rows
    ensures |r| == width
  {
    RowBounds(row, rows, width);
    data[row * width..(row + 1) * width]
  }

  method WriteRow<T>(data: seq<T>, rows: nat, width: nat, row: nat, v: seq<T>) returns (out: seq<T>)
    requires Sized(data, rows, width) && row < rows && |v| == width
    ensures Sized(out, rows, width)
    ensures forall r: nat :: r < rows ==>
              RowOf(out, rows, width, r) == if r == row then v else RowOf(data, rows, width, r)
  {
    RowBounds(row, rows, width);
    out := data[..row * width] + v + data[(row + 1) * width..];
    forall r: nat | r < rows
      ensures RowOf(out, rows, width, r) == if r == row then v else RowOf(data, rows, width, r)
    {
      RowsApart(r, row, rows, width);
    }
  }

  lemma RowsApart(r: nat, row: nat, rows: nat, width: nat)
    requires r < rows && row < rows
    ensures r < row ==> r * width + width <= row * width
    ensures row < r ==> row * width + width <= r * width
    ensures (r + 1) * width == r * width + width <= rows * width
  {
    RowBounds(r, rows, width);
    if r < row { RowBounds(r, row, width); }
    if row < r { RowBounds(row, r, width); }
  }

  method AppendRow<T>(data: seq<T>, rows: nat, width: nat, zero: T) returns (out: seq<T>)
    requires Sized(data, rows, width)
    ensures Sized(out, rows + 1, width)
    ensures forall r: nat :: r < rows ==> RowOf(out, rows + 1, width, r) == RowOf(data, rows, width, r)
  {
    RowBounds(rows, rows + 1, width);
    out := data + seq(width, _ => zero);
    forall r: nat | r < rows ensures RowOf(out, rows + 1, width, r) == RowOf(data, rows, width, r) {
      RowBounds(r, rows, width);
    }
  }

  /** Moves the last row into the hole and drops the tail: every other row stays where it is. */
  method SwapRow<T>(data: seq<T>, row: nat, last: nat, width: nat) returns (out: seq<T>)
    requires row <= last && Sized(data, last + 1, width)
    ensures Sized(out, last, width)
    ensures forall r: nat :: r < last ==>
              RowOf(out, last, width, r) == RowOf(data, last + 1, width, if r == row then last else r)
  {
    out := data;
    RowBounds(last, last + 1, width);
    RowBounds(row, last + 1, width);
    if row != last {
      out := WriteRow(data, last + 1, width, row, RowOf(data, last + 1, width, last));
    }
    ghost var moved := out;
    out := out[..last * width];
    forall r: nat | r < last
      ensures RowOf(out, last, width, r) == RowOf(data, last + 1, width, if r == row then last else r)
    {
      TruncatedRow(moved, last, width, r);
      var from := if r == row then last else r;
      assert RowOf(moved, last + 1, width, r) == RowOf(data, last + 1, width, from);
    }
  }

  lemma TruncatedRow<T>(data: seq<T>, last: nat, width: nat, r: nat)
    requires Sized(data, last + 1, width) && r < last
    ensures last * width <= |data| && Sized(data[..last * width], last, width)
    ensures RowOf(data[..last * width], last, width, r) == RowOf(data, last + 1, width, r)
  {
    RowBounds(last, last + 1, width);
    RowBounds(r, last, width);
  }

  ghost predicate CodesSized(codes: Codes, rows: nat, dims: nat) {
    match codes
    case F32Codes(data) => Sized(data, rows, dims)
    case F16Codes(halves) => Sized(halves, rows, dims)
    case I8Codes(q, scales) => Sized(q, rows, dims) && Sized(scales, rows, 1)
    case BinaryCodes(words) => Sized(words, rows, WordCount(dims))
  }

  function RowCode(codes: Codes, rows: nat, dims: nat, row: nat): (c: Code)
    requires CodesSized(codes, rows, dims) && row < rows
    ensures CodeFits(c, dims)
  {
    match codes
    case F32Codes(data) => RealCode(RowOf(data, rows, dims, row))
    case F16Codes(halves) => HalfCode(RowOf(halves, rows, dims, row))
    case I8Codes(q, scales) => ScaledCode(RowOf(q, rows, dims, row), RowOf(scales, rows, 1, row)[0])
    case BinaryCodes(words) => SignCode(RowOf(words, rows, WordCount(dims), row))
  }

  function FormatOf(codes: Codes): Quantization {
    match codes
    case F32Codes(_) => F32
    case F16Codes(_) => F16
    case I8Codes(_, _) => I8
    case BinaryCodes(_) => Binary
  }

  ghost predicate Inverse(ids: seq<nat>, positions: map<nat, nat>) {
    && (forall i :: 0 <= i < |ids| ==> ids[i] in positions && positions[ids[i]] == i)
    && (forall id :: id in positions ==> positions[id] < |ids| && ids[positions[id]] == id)
  }

  /** The map from id to stored code that ids, positions and buffer represent together. */
  ghost function ContentsOf(ids: seq<nat>, positions: map<nat, nat>, codes: Codes, dims: nat): map<nat, Code>
    requires Inverse(ids, positions) && CodesSized(codes, |ids|, dims)
  {
    map id | id in positions :: RowCode(codes, |ids|, dims, positions[id])
  }

  lemma ContentsAfterOverwrite(ids: seq<nat>, positions: map<nat, nat>, codes: Codes, codes': Codes, dims: nat, id: nat)
    requires Inverse(ids, positions) && id in positions
    requires CodesSized(codes, |ids|, dims) && CodesSized(codes', |ids|, dims)
    requires forall r: nat :: r < |ids| && r != positions[id] ==>
               RowCode(codes', |ids|, dims, r) == RowCode(codes, |ids|, dims, r)
    ensures ContentsOf(ids, positions, codes', dims)
         == ContentsOf(ids, positions, codes, dims)[id := RowCode(codes', |ids|, dims, positions[id])]
  {
    forall x | x in positions && x != id
      ensures RowCode(codes', |ids|, dims, positions[x]) == RowCode(codes, |ids|, dims, positions[x])
    {
      assert ids[positions[x]] == x;
    }
  }

  lemma ContentsAfterAppend(ids: seq<nat>, positions: map<nat, nat>, codes: Codes, codes': Codes, dims: nat, id: nat)
    requires Inverse(ids, positions) && id !in positions
    requires CodesSized(codes, |ids|, dims) && CodesSized(codes', |ids| + 1, dims)
    requires forall r: nat :: r < |ids| ==> RowCode(codes', |ids| + 1, dims, r) == RowCode(codes, |ids|, dims, r)
    ensures Inverse(ids + [id], positions[id := |ids|])
    ensures ContentsOf(ids + [id], positions[id := |ids|], codes', dims)
         == ContentsOf(ids, positions, codes, dims)[id := RowCode(codes', |ids| + 1, dims, |ids|)]
  {
    assert Inverse(ids + [id], positions[id := |ids|]);
    var after := ContentsOf(ids + [id], positions[id := |ids|], codes', dims);
    var before := ContentsOf(ids, positions, codes, dims);
    forall x | x in positions ensures after[x] == before[x] {
      assert ids[positions[x]] == x;
    }
  }

  /** The positions after swap-remove: the last id, unless it is the one removed, takes over the hole. */
  function PositionsWithout(ids: seq<nat>, positions: map<nat, nat>, id: nat): map<nat, nat>
    requires id in positions && ids != []
  {
    var rest := positions - {id};
    if positions[id] == |ids| - 1 then rest else rest[ids[|ids| - 1] := positions[id]]
  }

  lemma ContentsAfterRemove(ids: seq<nat>, positions: map<nat, nat>, codes: Codes, ids': seq<nat>, positions': map<nat,
        nat>, codes': Codes, dims: nat, id: nat)
    requires Inverse(ids, positions) && CodesSized(codes, |ids|, dims) && id in positions
    requires ids' == ids[positions[id] := ids[|ids| - 1]][..|ids| - 1]
    requires CodesSized(codes', |ids'|, dims)
    requires positions' == PositionsWithout(ids, positions, id)
    requires forall r: nat :: r < |ids'| ==>
               var from := if r == positions[id] then |ids| - 1 else r;
               RowCode(codes', |ids'|, dims, r) == RowCode(codes, |ids|, dims, from)
    ensures Inverse(ids', positions')
    ensures ContentsOf(ids', positions', codes', dims) == ContentsOf(ids, positions, codes, dims) - {id}
  {
    var last := |ids| - 1;
    assert positions[ids[last]] == last;
    assert Inverse(ids', positions') by {
      forall i | 0 <= i < |ids'| ensures ids'[i] in positions' && positions'[ids'[i]] == i {
        assert positions[ids[i]] == i;
      }
    }
    var after, before := ContentsOf(ids', positions', codes', dims), ContentsOf(ids, positions, codes, dims) - {id};
    forall x | x in after ensures x in before && after[x] == before[x] {
      assert ids'[positions'[x]] == x;
    }
    assert after.Keys == before.Keys;
  }

  class FlatSegment {
    const numerics: Numerics
    const dims: nat
    const quantization: Quantization
    var ids: seq<nat>
    var positions: map<nat, nat>
    var codes: Codes

    /** `ids` and `positions` are mutually inverse and the buffer holds one row per id. */
    ghost predicate Valid()
      reads this
    {
      Inverse(ids, positions) && CodesSized(codes, |ids|, dims) && FormatOf(codes) == quantization
    }

    ghost function Contents(): (m: map<nat, Code>)
      requires Valid()
      reads this
      ensures m.Keys == positions.Keys
      ensures forall id :: id in m ==> CodeFits(m[id], dims)
    {
      ContentsOf(ids, positions, codes, dims)
    }

    constructor (numerics: Numerics, dims: nat, quantization: Quantization)
      ensures Valid() && Contents() == map[] && ids == []
      ensures this.numerics == numerics && this.dims == dims && this.quantization == quantization
    {
      this.numerics, this.dims, this.quantization := numerics, dims, quantization;
      ids, positions := [], map[];
      match quantization {
        case F32 => codes := F32Codes([]);
        case F16 => codes := F16Codes([]);
        case I8 => codes := I8Codes([], []);
        case Binary => codes := BinaryCodes([]);
      }
    }

    method Upsert(id: nat, vector: Vector)
      requires Valid() && |vector| == dims
      modifies this
      ensures Valid()
      ensures Contents() == old(Contents())[id := Encode(numerics, quantization, vector)]
      ensures ids == if id in old(positions) then old(ids) else old(ids) + [id]
    {
      var v := Normalized(numerics, vector);
      var row;
      if id in positions {
        row := positions[id];
      } else {
        row := |ids|;
        AppendSlot(id);
      }
      WriteCode(row, v);
      if id in old(positions) {
        ContentsAfterOverwrite(ids, positions, old(codes), codes, dims, id);
      } else {
        ContentsAfterAppend(old(ids), old(positions), old(codes), codes, dims, id);
      }
    }

    /** A new last row for `id`, its code still to be written. */
    method AppendSlot(id: nat)
      requires Valid() && id !in positions
      modifies this
      ensures Valid() && ids == old(ids) + [id] && positions == old(positions)[id := |old(ids)|]
      ensures forall r: nat :: r < |old(ids)| ==> RowCode(codes, |ids|, dims, r) == old(RowCode(codes, |ids|, dims, r))
    {
      var n := |ids|;
      ids := ids + [id];
      positions := positions[id := n];
      match codes {
        case F32Codes(data) =>
          var d := AppendRow(data, n, dims, 0.0);
          codes := F32Codes(d);
        case F16Codes(halves) =>
          var d := AppendRow(halves, n, dims, 0.0);
          codes := F16Codes(d);
        case I8Codes(q, scales) =>
          var d := AppendRow(q, n, dims, 0);
          var s := AppendRow(scales, n, 1, 0.0);
          codes := I8Codes(d, s);
        case BinaryCodes(words) =>
          var d := AppendRow(words, n, WordCount(dims), 0);
          codes := BinaryCodes(d);
      }
    }

    /** Overwrites one row with the code of the already normalized `v`. */
    method WriteCode(row: nat, v: Vector)
      requires Valid() && row < |ids| && |v| == dims
      modifies this`codes
      ensures Valid()
      ensures forall r: nat :: r < |ids| && r != row ==>
                RowCode(codes, |ids|, dims, r) == old(RowCode(codes, |ids|, dims, r))
      ensures RowCode(codes, |ids|, dims, row) == CodeOf(numerics, quantization, v)
    {
      match codes {
        case F32Codes(data) =>
          var d := WriteRow(data, |ids|, dims, row, v);
          codes := F32Codes(d);
        case F16Codes(halves) =>
          var d := WriteRow(halves, |ids|, dims, row, Halved(numerics, v));
          codes := F16Codes(d);
        case I8Codes(q, scales) =>
          var d := WriteRow(q, |ids|, dims, row, QuantCodes(v));
          var s := WriteRow(scales, |ids|, 1, row, [QuantScale(v)]);
          codes := I8Codes(d, s);
        case BinaryCodes(words) =>
          var bits := SignBits(v);
          var d := WriteRow(words, |ids|, WordCount(dims), row, bits);
          codes := BinaryCodes(d);
      }
    }

    method Remove(id: nat) returns (removed: bool)
      requires Valid()
      modifies this
      ensures Valid()
      ensures removed == (id in old(Contents()))
      ensures Contents() == old(Contents()) - {id}
      ensures |ids| <= |old(ids)|
    {
      if id !in positions {
        return false;
      }
      var row := positions[id];
      positions := positions - {id};
      var last := |ids| - 1;
      codes := DropRow(codes, row, last, dims);
      ids := ids[row := ids[last]][..last];
      if row != last {
        positions := positions[ids[row] := row];
      }
      ContentsAfterRemove(old(ids), old(positions), old(codes), ids, positions, codes, dims, id);
      return true;
    }

    // ----- Scanning -----

    /** What is stored are the codes of exactly the vectors `m`. */
    ghost predicate Stores(m: map<nat, Vector>)
      requires Valid()
      reads this
    {
      && Contents().Keys == m.Keys
      && forall id :: id in m ==> |m[id]| == dims && Contents()[id] == Encode(numerics, quantization, m[id])
    }

    /** Of whatever vectors the codes are, `hits` are the `k` most similar, up to the tolerance of the format. */
    ghost predicate IsNearest(hits: seq<Hit>, query: Vector, k: nat)
      requires Valid() && |query| == dims > 0
      reads this
    {
      forall m: map<nat, Vector> :: Stores(m) ==>
        IsNearTopK(hits, Ideals(numerics, quantization, query, m), Tolerances(numerics, quantization, query, m), k)
    }

    lemma TopKIsNearest(hits: seq<Hit>, query: Vector, k: nat)
      requires Valid() && |query| == dims > 0 && IsTopK(hits, Scores(query), k)
      ensures IsNearest(hits, query, k)
    {
      hide IdealTo, ToleranceTo;
      forall m: map<nat, Vector> | Stores(m)
        ensures IsNearTopK(hits, Ideals(numerics, quantization, query, m),
                           Tolerances(numerics, quantization, query, m), k)
      {
        ScoresAreNear(query, m);
        TopKIsNear(hits, Scores(query), Ideals(numerics, quantization, query, m),
          Tolerances(numerics, quantization, query, m), k);
      }
    }

    lemma ScoresAreNear(query: Vector, m: map<nat, Vector>)
      requires Valid() && |query| == dims > 0 && Stores(m)
      ensures Scores(query).Keys == m.Keys
      ensures forall id :: id in m ==>
                Near(Ideals(numerics, quantization, query, m)[id], Scores(query)[id],
                     Tolerances(numerics, quantization, query, m)[id])
    {
      forall id | id in m
        ensures Near(Ideals(numerics, quantization, query, m)[id], Scores(query)[id],
                     Tolerances(numerics, quantization, query, m)[id])
      {
        EstimateIsNear(numerics, quantization, query, Normalized(numerics, m[id]));
      }
    }

    ghost function Scores(query: Vector): map<nat, real>
      requires Valid() && |query| == dims > 0
      reads this
    {
      map id | id in Contents() :: Estimate(query, Contents()[id])
    }

    ghost function RowScores(query: Vector): (scores: map<nat, real>)
      requires Valid() && |query| == dims > 0
      reads this
      ensures forall r: nat :: r in scores <==> r < |ids|
    {
      map r: nat | r < |ids| :: Estimate(query, RowCode(codes, |ids|, dims, r))
    }

    /** The `k` best rows, ties by row, under the ids they hold. */
    ghost function Best(query: Vector, k: nat): (best: seq<Hit>)
      requires Valid() && |query| == dims > 0
      reads this
      ensures |best| == Min(k, |ids|)
    {
      RankedRowsFit(query, codes, |ids|, dims);
      NameHits(RankedRows(query, codes, |ids|, dims)[..Min(k, |ids|)], ids)
    }

    method BestRows(query: Vector, k: nat) returns (best: seq<Hit>)
      requires Valid() && |query| == dims > 0
      ensures IsTopK(best, RowScores(query), k)
      ensures best == RankedRows(query, codes, |ids|, dims)[..Min(k, |ids|)]
    {
      var all := ScoreRows(query);
      assert all == RowHits(query, codes, |ids|, dims);
      best := TakeBest(all, k);
      BestRowsAreTopK(query, k);
    }

    /** Top `k` rows by (estimated) similarity, best first. */
    method Scan(query: Vector, k: nat) returns (hits: seq<Hit>)
      requires Valid() && |query| == dims > 0
      ensures hits == Best(query, k) && IsTopK(hits, Scores(query), k) && IsNearest(hits, query, k)
    {
      BestIsTopK(query, k);
      TopKIsNearest(Best(query, k), query, k);
      if ids == [] || k == 0 {
        return [];
      }
      var best := BestRows(query, k);
      RankedRowsFit(query, codes, |ids|, dims);
      hits := NameHits(best, ids);
    }

    lemma BestRowsAreTopK(query: Vector, k: nat)
      requires Valid() && |query| == dims > 0
      ensures IsTopK(RankedRows(query, codes, |ids|, dims)[..Min(k, |ids|)], RowScores(query), k)
    {
      var all := RowHits(query, codes, |ids|, dims);
      AllRowsCut(all, RankedRows(query, codes, |ids|, dims)[..Min(k, |ids|)], k);
      assert RowSims(all) == RowScores(query);
    }

    lemma BestIsTopK(query: Vector, k: nat)
      requires Valid() && |query| == dims > 0
      ensures IsTopK(Best(query, k), Scores(query), k)
    {
      BestRowsAreTopK(query, k);
      RankedRowsFit(query, codes, |ids|, dims);
      ScoresByRow(query);
      RenameTopK(RankedRows(query, codes, |ids|, dims)[..Min(k, |ids|)], RowScores(query), Best(query, k),
        Scores(query), ids, k);
    }

    /** Equally similar hits come in the order of their rows. */
    lemma BestInRowOrder(query: Vector, k: nat, i: nat, j: nat)
      requires Valid() && |query| == dims > 0 && i < j < |Best(query, k)|
      ensures var a, b := Best(query, k)[i], Best(query, k)[j];
              && a.id in positions && b.id in positions
              && (a.sim > b.sim || (a.sim == b.sim && positions[a.id] < positions[b.id]))
    {
      RankedRowsFit(query, codes, |ids|, dims);
      var ranked := RankedRows(query, codes, |ids|, dims);
      HitLeqIsTotalOrder();
      SortSorts(HitLeq, RowHits(query, codes, |ids|, dims));
      SortKeepsUnique(HitLeq, (h: Hit) => h.id, RowHits(query, codes, |ids|, dims));
      SortedHits(ranked);
    }

    lemma ScoresByRow(query: Vector)
      requires Valid() && |query| == dims > 0
      ensures Renames(RowScores(query), Scores(query), ids)
    {
      forall r: nat | r < |ids|
        ensures ids[r] in positions && Scores(query)[ids[r]] == RowScores(query)[r]
      {
        assert positions[ids[r]] == r;
      }
      forall id | id in Scores(query) ensures id in ids {
        assert ids[positions[id]] == id;
      }
    }

    method ScoreRows(query: Vector) returns (scored: seq<Hit>)
      requires Valid() && |query| == dims > 0
      ensures |scored| == |ids|
      ensures forall r: nat :: r < |ids| ==> scored[r] == Hit(r, Estimate(query, RowCode(codes, |ids|, dims, r)))
    {
      scored := [];
      var q, words := [], [];
      if codes.I8Codes? { q := QuantCodes(query); }
      if codes.BinaryCodes? { words := SignBits(query); }
      var row := 0;
      while row < |ids|
        invariant row <= |ids| && |scored| == row
        invariant forall r: nat :: r < row ==> scored[r] == Hit(r, Estimate(query, RowCode(codes, |ids|, dims, r)))
      {
        var score;
        match RowCode(codes, |ids|, dims, row) {
          case RealCode(v) => score := DotF32(query, v);
          case HalfCode(v) => score := DotF32(query, v);
          case ScaledCode(v, scale) => score := Rescale(DotI8(q, v), scale, QuantScale(query));
          case SignCode(v) =>
            var differing := HammingDistance(v, words);
            score := BinaryEstimate(differing, dims);
        }
        scored := scored + [Hit(row, score)];
        row := row + 1;
      }
    }

  }

  method DropRow(codes: Codes, row: nat, last: nat, dims: nat) returns (out: Codes)
    requires row <= last && CodesSized(codes, last + 1, dims)
    ensures CodesSized(out, last, dims) && FormatOf(out) == FormatOf(codes)
    ensures forall r: nat :: r < last ==>
              RowCode(out, last, dims, r) == RowCode(codes, last + 1, dims, if r == row then last else r)
  {
    match codes {
      case F32Codes(data) =>
        var d := SwapRow(data, row, last, dims);
        out := F32Codes(d);
      case F16Codes(halves) =>
        var d := SwapRow(halves, row, last, dims);
        out := F16Codes(d);
      case I8Codes(q, scales) =>
        var d := SwapRow(q, row, last, dims);
        var s := SwapRow(scales, row, last, 1);
        out := I8Codes(d, s);
      case BinaryCodes(words) =>
        var d := SwapRow(words, row, last, WordCount(dims));
        out := BinaryCodes(d);
    }
  }

  /** Every row with its estimate. */
  function RowHits(query: Vector, codes: Codes, rows: nat, dims: nat): (all: seq<Hit>)
    requires CodesSized(codes, rows, dims) && |query| == dims > 0
    ensures |all| == rows
  {
    seq(rows, r requires 0 <= r < rows && CodesSized(codes, rows, dims) && |query| == dims > 0 =>
      Hit(r, Estimate(query, RowCode(codes, rows, dims, r))))
  }

  function RankedRows(query: Vector, codes: Codes, rows: nat, dims: nat): (ranked: seq<Hit>)
    requires CodesSized(codes, rows, dims) && |query| == dims > 0
    ensures |ranked| == rows
  {
    Sort(HitLeq, RowHits(query, codes, rows, dims))
  }

  lemma RankedRowsFit(query: Vector, codes: Codes, rows: nat, dims: nat)
    requires CodesSized(codes, rows, dims) && |query| == dims > 0
    ensures forall i :: 0 <= i < rows ==> RankedRows(query, codes, rows, dims)[i].id < rows
  {
    var all := RowHits(query, codes, rows, dims);
    SortPermutes(HitLeq, all);
    forall i | 0 <= i < rows ensures RankedRows(query, codes, rows, dims)[i].id < rows {
      assert RankedRows(query, codes, rows, dims)[i] in Sort(HitLeq, all);
    }
  }

  /** The similarity found for each row. */
  function RowSims(all: seq<Hit>): (rows: map<nat, real>)
    ensures forall r: nat :: r in rows <==> r < |all|
    ensures forall r: nat :: r < |all| ==> rows[r] == all[r].sim
  {
    map r: nat | r < |all| :: all[r].sim
  }

  lemma AllRowsCut(all: seq<Hit>, best: seq<Hit>, k: nat)
    requires forall r: nat :: r < |all| ==> all[r].id == r
    requires |Sort(HitLeq, all)| == |all| && best == Sort(HitLeq, all)[..Min(k, |all|)]
    ensures IsTopK(best, RowSims(all), k)
  {
    forall r | r in RowSims(all) ensures r in Ids(all) { assert all[r] in all; }
    CompleteCovers(all, RowSims(all), k);
    CutIsTopK(all, RowSims(all), k);
  }

  function NameHits(rowHits: seq<Hit>, ids: seq<nat>): (hits: seq<Hit>)
    requires forall i :: 0 <= i < |rowHits| ==> rowHits[i].id < |ids|
    ensures RenamedHits(rowHits, hits, ids)
  {
    seq(|rowHits|, i requires 0 <= i < |rowHits| => Hit(ids[rowHits[i].id], rowHits[i].sim))
  }

  /** `scores` is `rows` with every row number replaced by the id stored there. */
  ghost predicate Renames(rows: map<nat, real>, scores: map<nat, real>, ids: seq<nat>) {
    && (forall r: nat :: r in rows <==> r < |ids|)
    && (forall i, j :: 0 <= i < j < |ids| ==> ids[i] != ids[j])
    && (forall id :: id in scores <==> id in ids)
    && (forall r: nat :: r < |ids| ==> scores[ids[r]] == rows[r])
  }

  ghost predicate RenamedHits(rowHits: seq<Hit>, hits: seq<Hit>, ids: seq<nat>) {
    && |hits| == |rowHits|
    && (forall i :: 0 <= i < |rowHits| ==> rowHits[i].id < |ids|)
    && (forall i :: 0 <= i < |hits| ==> hits[i] == Hit(ids[rowHits[i].id], rowHits[i].sim))
  }

  /** Replacing row numbers by the ids stored there keeps an answer an answer. */
  lemma RenameTopK(rowHits: seq<Hit>, rows: map<nat, real>, hits: seq<Hit>, scores: map<nat, real>, ids: seq<nat>,
        k: nat)
    requires IsTopK(rowHits, rows, k) && Renames(rows, scores, ids) && RenamedHits(rowHits, hits, ids)
    ensures IsTopK(hits, scores, k)
  {
    SameSize(rows, scores, ids);
    RenamedAreTrue(rowHits, rows, hits, scores, ids);
    forall id, h | id in scores && id !in Ids(hits) && h in hits ensures scores[id] <= h.sim {
      var r :| 0 <= r < |ids| && ids[r] == id;
      UnlistedRow(rowHits, hits, ids, r);
      var i :| 0 <= i < |hits| && hits[i] == h;
      assert rowHits[i] in rowHits;
    }
  }

  lemma RenamedAreTrue(rowHits: seq<Hit>, rows: map<nat, real>, hits: seq<Hit>, scores: map<nat, real>, ids: seq<nat>)
    requires UniqueIds(rowHits) && TrueScores(rowHits, rows) && Renames(rows, scores, ids)
    requires RenamedHits(rowHits, hits, ids)
    ensures UniqueIds(hits) && TrueScores(hits, scores)
  {
    assert forall i :: 0 <= i < |rowHits| ==> rowHits[i] in rowHits;
    assert forall i :: 0 <= i < |rowHits| ==> ids[rowHits[i].id] in ids;
  }

  lemma UnlistedRow(rowHits: seq<Hit>, hits: seq<Hit>, ids: seq<nat>, r: nat)
    requires RenamedHits(rowHits, hits, ids) && r < |ids| && ids[r] !in Ids(hits)
    ensures r !in Ids(rowHits)
  {
    forall j | 0 <= j < |rowHits| ensures rowHits[j].id != r {
      assert hits[j] in hits;
    }
  }

  lemma SameSize(rows: map<nat, real>, scores: map<nat, real>, ids: seq<nat>)
    requires Renames(rows, scores, ids)
    ensures |rows| == |scores|
  {
    var a := seq(|ids|, i requires 0 <= i => Hit(i, 0.0));
    var b := seq(|ids|, i requires 0 <= i < |ids| => Hit(ids[i], 0.0));
    UniqueIdsCount(a);
    UniqueIdsCount(b);
    forall r | r in rows ensures r in Ids(a) { assert a[r] in a; }
    assert rows.Keys == Ids(a);
    forall id | id in scores ensures id in Ids(b) {
      var i :| 0 <= i < |ids| && ids[i] == id;
      assert b[i] in b;
    }
    assert scores.Keys == Ids(b);
  }
}
