/** The storage formats: what each keeps of a vector, and how far its similarity is from the true one. */
module Formats {
  import opened Kernels

  /** Square root and half-precision rounding are library functions; nothing is assumed of them. */
  datatype Numerics = Numerics(sqrt: real -> real, toHalf: real -> real)

  datatype Quantization = F32 | F16 | I8 | Binary

  /** One vector's stored form. */
  datatype Code =
    | RealCode(row: seq<real>)
    | HalfCode(half: seq<real>)
    | ScaledCode(codes: seq<int>, scale: real)
    | SignCode(words: seq<nat>)

  function Normalized(num: Numerics, v: Vector): (n: Vector)
    ensures |n| == |v|
  {
    var norm := num.sqrt(Dot(v, v));
    if norm > EPSILON then seq(|v|, i requires 0 <= i < |v| => v[i] / norm) else v
  }

  function Halved(num: Numerics, v: Vector): (h: Vector)
    ensures |h| == |v|
  {
    seq(|v|, i requires 0 <= i < |v| => num.toHalf(v[i]))
  }

  /** What a format keeps of a normalized vector. */
  function CodeOf(num: Numerics, format: Quantization, n: Vector): Code {
    match format
    case F32 => RealCode(n)
    case F16 => HalfCode(Halved(num, n))
    case I8 => ScaledCode(QuantCodes(n), QuantScale(n))
    case Binary => SignCode(SignWords(n))
  }

  /** What a format keeps of a vector, whatever row it lands in. */
  function Encode(num: Numerics, format: Quantization, v: Vector): Code {
    CodeOf(num, format, Normalized(num, v))
  }

  predicate CodeFits(code: Code, dims: nat) {
    match code
    case RealCode(row) => |row| == dims
    case HalfCode(half) => |half| == dims
    case ScaledCode(codes, _) => |codes| == dims
    case SignCode(words) => |words| == WordCount(dims)
  }

  /** The similarity a format reports for a stored code. */
  function Estimate(query: Vector, code: Code): real
    requires |query| > 0 && CodeFits(code, |query|)
  {
    match code
    case RealCode(row) => Dot(query, row)
    case HalfCode(half) => Dot(query, half)
    case ScaledCode(codes, scale) => Rescale(DotI8(QuantCodes(query), codes), scale, QuantScale(query))
    case SignCode(words) => BinaryEstimate(Hamming(words, SignWords(query)), |query|)
  }

  // ----- Normalizing -----

  /** `n` is `v` divided by `s`. */
  ghost predicate Divides(n: Vector, s: real, v: Vector) {
    |n| == |v| && forall i :: 0 <= i < |v| ==> n[i] * s == v[i]
  }

  lemma {:induction false} DotDivided(q: Vector, n: Vector, s: real, v: Vector)
    requires Divides(n, s, v) && |q| == |v|
    ensures Dot(q, n) * s == Dot(q, v)
  {
    if v != [] {
      var k := |v| - 1;
      DotDivided(q[..k], n[..k], s, v[..k]);
      ScaleSum(Dot(q[..k], n[..k]), q[k], n[k], s, v[k]);
    }
  }

  lemma ScaleSum(d: real, q: real, n: real, s: real, v: real)
    requires n * s == v
    ensures (d + q * n) * s == d * s + q * v
  {}

  lemma {:induction false} DotCommutes(u: Vector, v: Vector)
    requires |u| == |v|
    ensures Dot(u, v) == Dot(v, u)
  {
    if v != [] {
      DotCommutes(u[..|u| - 1], v[..|v| - 1]);
    }
  }

  lemma NormalizedDivides(num: Numerics, v: Vector)
    requires num.sqrt(Dot(v, v)) > EPSILON
    ensures Divides(Normalized(num, v), num.sqrt(Dot(v, v)), v)
  {
    var s := num.sqrt(Dot(v, v));
    forall i | 0 <= i < |v| ensures Normalized(num, v)[i] * s == v[i] {
      Undivided(v[i], s);
    }
  }

  lemma Undivided(x: real, s: real)
    requires s != 0.0
    ensures x / s * s == x
  {}

  lemma UnitLength(x: real, y: real, s: real)
    requires x * s == y && y * s == s * s && s != 0.0
    ensures x == 1.0
  {
    NonzeroProduct(y - s, s);
    assert (y - s) * s == y * s - s * s;
    NonzeroProduct(x - 1.0, s);
    assert (x - 1.0) * s == x * s - s;
  }

  lemma NonzeroProduct(x: real, s: real)
    requires s != 0.0
    ensures x != 0.0 ==> x * s != 0.0
  {
    if x != 0.0 { assert x * s / s == x; }
  }

  /** A vector whose length is computed exactly, and is not negligible, is divided by it and becomes a unit vector. */
  lemma NormalizedIsUnit(num: Numerics, v: Vector)
    requires var s := num.sqrt(Dot(v, v)); s > EPSILON && s * s == Dot(v, v)
    ensures Divides(Normalized(num, v), num.sqrt(Dot(v, v)), v)
    ensures Dot(Normalized(num, v), Normalized(num, v)) == 1.0
  {
    var s, n := num.sqrt(Dot(v, v)), Normalized(num, v);
    NormalizedDivides(num, v);
    DotDivided(n, n, s, v);
    DotDivided(v, n, s, v);
    DotCommutes(n, v);
    UnitLength(Dot(n, n), Dot(n, v), s);
  }

  /** So the similarity of two such vectors, times both lengths, is their plain dot product. */
  lemma SimilarityIsCosine(num: Numerics, u: Vector, v: Vector)
    requires |u| == |v|
    requires num.sqrt(Dot(u, u)) > EPSILON && num.sqrt(Dot(v, v)) > EPSILON
    ensures Dot(Normalized(num, u), Normalized(num, v)) * num.sqrt(Dot(v, v)) * num.sqrt(Dot(u, u)) == Dot(u, v)
  {
    var m, n := Normalized(num, u), Normalized(num, v);
    NormalizedDivides(num, u);
    NormalizedDivides(num, v);
    DotDivided(m, n, num.sqrt(Dot(v, v)), v);
    DotCommutes(m, v);
    DotDivided(v, m, num.sqrt(Dot(u, u)), u);
    DotCommutes(v, u);
  }

  // ----- Estimates against true similarities -----

  /** The similarity to the normalized `n` that a format stands for: the cosine similarity or, when only signs are
      kept, the share of components that agree in sign minus the share that disagree. */
  function Ideal(format: Quantization, query: Vector, n: Vector): real
    requires |query| == |n| > 0
  {
    if format.Binary? then SignAgreement(|n| - SignDisagreements(n, query), SignDisagreements(n, query))
    else Dot(query, n)
  }

  /** The most that half precision moves a component. */
  function HalfError(num: Numerics, n: Vector): (e: real)
    ensures forall i :: 0 <= i < |n| ==> Abs(n[i] - num.toHalf(n[i])) <= e
    ensures n != [] ==> exists i :: 0 <= i < |n| && Abs(n[i] - num.toHalf(n[i])) == e
  {
    if n == [] then 0.0
    else
      var e, x := HalfError(num, n[..|n| - 1]), Abs(n[|n| - 1] - num.toHalf(n[|n| - 1]));
      if x > e || |n| == 1 then x else e
  }

  /** How far a format's similarity may be from the one it stands for. */
  function Tolerance(num: Numerics, format: Quantization, query: Vector, n: Vector): real
    requires |query| == |n|
  {
    match format
    case F32 => 0.0
    case F16 => Fold(RoundingError(0.0, HalfError(num, n)), query, n)
    case I8 => DotErrorBound(query, n)
    case Binary => 0.0
  }

  /** Every format's similarity is the one it stands for, up to its tolerance. */
  lemma EstimateIsNear(num: Numerics, format: Quantization, query: Vector, n: Vector)
    requires |query| == |n| > 0
    ensures CodeFits(CodeOf(num, format, n), |query|)
    ensures Near(Ideal(format, query, n), Estimate(query, CodeOf(num, format, n)), Tolerance(num, format, query, n))
  {
    match format
    case F32 =>
    case F16 => HalfIsNear(num, query, n);
    case I8 => ScaledIsNear(query, n);
    case Binary => SignsAreNear(query, n);
  }

  lemma ScaledIsNear(query: Vector, n: Vector)
    requires |query| == |n| > 0
    ensures Near(Dot(query, n), Estimate(query, ScaledCode(QuantCodes(n), QuantScale(n))), DotErrorBound(query, n))
  {
    QuantizedDotError(query, n);
  }

  lemma SignsAreNear(query: Vector, n: Vector)
    requires |query| == |n| > 0
    ensures CodeFits(SignCode(SignWords(n)), |query|)
    ensures Estimate(query, SignCode(SignWords(n))) ==
              SignAgreement(|n| - SignDisagreements(n, query), SignDisagreements(n, query))
  {
    BinaryEstimateIsAgreement(n, query);
  }

  lemma HalfIsNear(num: Numerics, query: Vector, n: Vector)
    requires |query| == |n|
    ensures Near(Dot(query, n), Dot(query, Halved(num, n)), Fold(RoundingError(0.0, HalfError(num, n)), query, n))
  {
    HalvedWithin(num, n);
    VectorsDotError(query, n, query, Halved(num, n), 0.0, HalfError(num, n));
  }

  lemma HalvedWithin(num: Numerics, n: Vector)
    ensures Within(n, Halved(num, n), HalfError(num, n))
  {
    assert forall i :: 0 <= i < |n| ==> Abs(n[i] - num.toHalf(n[i])) <= HalfError(num, n);
  }

  /** What `f` says of each vector. */
  ghost function Valued(m: map<nat, Vector>, f: Vector -> real): map<nat, real> {
    map id | id in m :: f(m[id])
  }

  lemma ValuedJoin(ma: map<nat, Vector>, mb: map<nat, Vector>, f: Vector -> real)
    ensures Valued(ma + mb, f) == Valued(ma, f) + Valued(mb, f)
  {
    assert forall id :: id in ma + mb ==> (ma + mb)[id] == if id in mb then mb[id] else ma[id];
  }

  function IdealTo(num: Numerics, format: Quantization, query: Vector): Vector -> real {
    v => if |v| == |query| > 0 then Ideal(format, query, Normalized(num, v)) else 0.0
  }

  function ToleranceTo(num: Numerics, format: Quantization, query: Vector): Vector -> real {
    v => if |v| == |query| > 0 then Tolerance(num, format, query, Normalized(num, v)) else 0.0
  }

  /** The similarities of stored vectors, all as long as the query, that a format stands for. */
  ghost function Ideals(num: Numerics, format: Quantization, query: Vector, m: map<nat, Vector>): map<nat, real> {
    Valued(m, IdealTo(num, format, query))
  }

  ghost function Tolerances(num: Numerics, format: Quantization, query: Vector, m: map<nat, Vector>): map<nat, real> {
    Valued(m, ToleranceTo(num, format, query))
  }

  function AbsSum(v: Vector): real {
    if v == [] then 0.0 else AbsSum(v[..|v| - 1]) + Abs(v[|v| - 1])
  }

  /** If half precision moves no component by more than `e`, the tolerance is at most `e` per unit of the query. */
  lemma HalfTolerance(num: Numerics, query: Vector, n: Vector, e: real)
    requires |query| == |n| && forall x :: x in n ==> Near(x, num.toHalf(x), e)
    ensures Tolerance(num, F16, query, n) <= e * AbsSum(query)
  {
    if n != [] { HalfErrorBound(num, n, e); }
    RoundingSum(query, n, HalfError(num, n), e);
  }

  lemma HalfErrorBound(num: Numerics, n: Vector, e: real)
    requires |n| > 0 && forall x :: x in n ==> Near(x, num.toHalf(x), e)
    ensures HalfError(num, n) <= e
  {
    var i :| 0 <= i < |n| && Abs(n[i] - num.toHalf(n[i])) == HalfError(num, n);
    assert n[i] in n;
  }

  lemma {:induction false} RoundingSum(q: Vector, n: Vector, d: real, e: real)
    requires |q| == |n| && (n != [] ==> d <= e)
    ensures Fold(RoundingError(0.0, d), q, n) <= e * AbsSum(q)
  {
    if q == [] {
      assert e * AbsSum(q) == 0.0;
    } else {
      var k := |q| - 1;
      RoundingSum(q[..k], n[..k], d, e);
      RoundingTerm(q[k], n[k], d, e, AbsSum(q[..k]));
    }
  }

  lemma RoundingTerm(x: real, y: real, d: real, e: real, a: real)
    requires d <= e
    ensures e * a + RoundingError(0.0, d)(x, y) <= e * (a + Abs(x))
  {
    LargerFactor(d, e, Abs(x));
    assert RoundingError(0.0, d)(x, y) == d * Abs(x);
    assert e * (a + Abs(x)) == e * a + e * Abs(x);
  }

  lemma LargerFactor(d: real, e: real, a: real)
    requires d <= e && a >= 0.0
    ensures d * a <= e * a
  {
    assert (e - d) * a >= 0.0;
  }
}
