/** The numeric kernels of `src/vector_index.rs` against their plain definitions, in exact arithmetic. */
module Kernels {
  import opened BitWords

  type Vector = seq<real>

  /** f32::EPSILON */
  const EPSILON: real := 1.0 / 8388608.0

  const I32_MAX: int := 2147483647

  /** The largest dimension whose i8 dot product cannot leave i32: 127 * 127 * 133144 <= I32_MAX. */
  const MAX_I8_DIMS: nat := 133144

  function Abs(x: real): real {
    if x >= 0.0 then x else -x
  }

  /** Adds `f` over corresponding components. */
  function Fold(f: (real, real) -> real, a: Vector, b: Vector): real
    requires |a| == |b|
  {
    if a == [] then 0.0 else Fold(f, a[..|a| - 1], b[..|b| - 1]) + f(a[|a| - 1], b[|b| - 1])
  }

  function Product(x: real, y: real): real {
    x * y
  }

  function Dot(a: Vector, b: Vector): real
    requires |a| == |b|
  {
    Fold(Product, a, b)
  }

  // ----- dot_f32: eight independent accumulators -----

  /** The dot product of the common prefix, which is what zipping two slices of any lengths means. */
  function ZipDot(a: Vector, b: Vector): real {
    var n := if |a| <= |b| then |a| else |b|;
    Dot(a[..n], b[..n])
  }

  function Sum(s: seq<real>): real {
    if s == [] then 0.0 else Sum(s[..|s| - 1]) + s[|s| - 1]
  }

  lemma {:induction false} SumUpdate(s: seq<real>, i: nat, x: real)
    requires i < |s|
    ensures Sum(s[i := x]) == Sum(s) - s[i] + x
  {
    var t := s[i := x];
    var n := |s| - 1;
    if i == n {
      assert t[..n] == s[..n];
    } else {
      SumUpdate(s[..n], i, x);
      assert t[..n] == s[..n][i := x];
    }
  }

  lemma {:induction false} SumZeros(s: seq<real>)
    requires forall i :: 0 <= i < |s| ==> s[i] == 0.0
    ensures Sum(s) == 0.0
  {
    if s != [] { SumZeros(s[..|s| - 1]); }
  }

  lemma DotStep(a: Vector, b: Vector, n: nat)
    requires n < |a| && n < |b|
    ensures Dot(a[..n + 1], b[..n + 1]) == Dot(a[..n], b[..n]) + a[n] * b[n]
  {
    assert a[..n + 1][..n] == a[..n] && b[..n + 1][..n] == b[..n];
  }

  /** What the kernel adds up: the chunks both slices have, and each slice's own remainder zipped. */
  function ChunkedDot(a: Vector, b: Vector): real {
    var chunks := if |a| / 8 <= |b| / 8 then |a| / 8 else |b| / 8;
    Dot(a[..8 * chunks], b[..8 * chunks]) + ZipDot(a[8 * (|a| / 8)..], b[8 * (|b| / 8)..])
  }

  method DotF32(a: Vector, b: Vector) returns (r: real)
    ensures r == ChunkedDot(a, b)
    ensures |a| == |b| ==> r == Dot(a, b)
  {
    var tail := DotTail(a[8 * (|a| / 8)..], b[8 * (|b| / 8)..]);
    var acc := new real[8](_ => 0.0);
    assert forall k :: 0 <= k < 8 ==> acc[..][k] == 0.0;
    SumZeros(acc[..]);
    var chunks := if |a| / 8 <= |b| / 8 then |a| / 8 else |b| / 8;
    var c := 0;
    while c < chunks
      invariant 0 <= c <= chunks
      invariant Sum(acc[..]) == Dot(a[..8 * c], b[..8 * c])
    {
      AddChunk(acc, a, b, c);
      c := c + 1;
    }
    var total := AddUp(acc);
    r := total + tail;
    if |a| == |b| { ChunkedDotIsDot(a, b); }
  }

  method DotTail(a: Vector, b: Vector) returns (tail: real)
    ensures tail == ZipDot(a, b)
  {
    tail := 0.0;
    var t := 0;
    while t < |a| && t < |b|
      invariant 0 <= t <= |a| && t <= |b|
      invariant tail == Dot(a[..t], b[..t])
    {
      DotStep(a, b, t);
      tail := tail + a[t] * b[t];
      t := t + 1;
    }
  }

  method AddChunk(acc: array<real>, a: Vector, b: Vector, c: nat)
    requires acc.Length == 8 && 8 * c + 8 <= |a| && 8 * c + 8 <= |b|
    requires Sum(acc[..]) == Dot(a[..8 * c], b[..8 * c])
    modifies acc
    ensures Sum(acc[..]) == Dot(a[..8 * c + 8], b[..8 * c + 8])
  {
    var i := 0;
    while i < 8
      invariant 0 <= i <= 8
      invariant Sum(acc[..]) == Dot(a[..8 * c + i], b[..8 * c + i])
    {
      var p := a[8 * c + i] * b[8 * c + i];
      DotStep(a, b, 8 * c + i);
      SumUpdate(acc[..], i, acc[i] + p);
      ghost var before := acc[..];
      acc[i] := acc[i] + p;
      assert acc[..] == before[i := before[i] + p];
      i := i + 1;
    }
  }

  method AddUp(acc: array<real>) returns (total: real)
    ensures total == Sum(acc[..])
  {
    total := 0.0;
    var j := 0;
    while j < acc.Length
      invariant 0 <= j <= acc.Length
      invariant total == Sum(acc[..j])
    {
      assert acc[..j + 1][..j] == acc[..j];
      total := total + acc[j];
      j := j + 1;
    }
    assert acc[..j] == acc[..];
  }

  lemma {:induction false} DotAppend(a: Vector, b: Vector, c: Vector, d: Vector)
    requires |a| == |b| && |c| == |d|
    ensures Dot(a + c, b + d) == Dot(a, b) + Dot(c, d)
  {
    if c == [] {
      assert a + c == a && b + d == b;
    } else {
      var n := |c| - 1;
      DotAppend(a, b, c[..n], d[..n]);
      assert (a + c)[..|a| + n] == a + c[..n] && (b + d)[..|b| + n] == b + d[..n];
    }
  }

  lemma ChunkedDotIsDot(a: Vector, b: Vector)
    requires |a| == |b|
    ensures ChunkedDot(a, b) == Dot(a, b)
  {
    var n := 8 * (|a| / 8);
    DotAppend(a[..n], b[..n], a[n..], b[n..]);
    assert a == a[..n] + a[n..] && b == b[..n] + b[n..];
    assert a[n..] == a[n..][..|a| - n] && b[n..] == b[n..][..|b| - n];
  }

  /** Slices whose remainders line up: the kernel is the zipped dot product exactly for these lengths. */
  predicate Aligned(la: nat, lb: nat) {
    la / 8 == lb / 8 || (la < lb && la % 8 == 0) || (lb < la && lb % 8 == 0)
  }

  lemma DotF32AgreesIffAligned(la: nat, lb: nat)
    ensures Aligned(la, lb) <==>
              forall a: Vector, b: Vector :: |a| == la && |b| == lb ==> ChunkedDot(a, b) == ZipDot(a, b)
  {
    if Aligned(la, lb) {
      forall a: Vector, b: Vector | |a| == la && |b| == lb ensures ChunkedDot(a, b) == ZipDot(a, b) {
        AlignedDot(a, b);
      }
    } else {
      var a, b := MisalignedWitness(la, lb);
      assert ChunkedDot(a, b) != ZipDot(a, b);
    }
  }

  lemma AlignedDot(a: Vector, b: Vector)
    requires Aligned(|a|, |b|)
    ensures ChunkedDot(a, b) == ZipDot(a, b)
  {
    var n := if |a| <= |b| then |a| else |b|;
    var m := 8 * (n / 8);
    var ta, tb := a[8 * (|a| / 8)..], b[8 * (|b| / 8)..];
    if |a| / 8 == |b| / 8 {
      DotAppend(a[..m], b[..m], a[m..n], b[m..n]);
      assert a[..n] == a[..m] + a[m..n] && b[..n] == b[..m] + b[m..n];
      assert ta[..n - m] == a[m..n] && tb[..n - m] == b[m..n];
    } else {
      assert m == n;
    }
  }

  lemma {:induction false} DotOfZeros(a: Vector, b: Vector)
    requires |a| == |b| && forall i :: 0 <= i < |a| ==> a[i] == 0.0 || b[i] == 0.0
    ensures Dot(a, b) == 0.0
  {
    if a != [] { DotOfZeros(a[..|a| - 1], b[..|b| - 1]); }
  }

  /** One non-zero product at the first index past the common chunks is lost. */
  lemma MisalignedWitness(la: nat, lb: nat) returns (a: Vector, b: Vector)
    requires !Aligned(la, lb)
    ensures |a| == la && |b| == lb && ChunkedDot(a, b) == 0.0 && ZipDot(a, b) == 1.0
  {
    var n := if la <= lb then la else lb;
    var m := 8 * (n / 8);
    a := seq(la, i => if i == m then 1.0 else 0.0);
    b := seq(lb, i => if i == m then 1.0 else 0.0);
    OneProduct(a, b, m, n);
    DotOfZeros(a[..m], b[..m]);
    var ta, tb := a[8 * (la / 8)..], b[8 * (lb / 8)..];
    var t := if |ta| <= |tb| then |ta| else |tb|;
    DotOfZeros(ta[..t], tb[..t]);
  }

  lemma OneProduct(a: Vector, b: Vector, m: nat, n: nat)
    requires m < n <= |a| && n <= |b|
    requires forall i :: 0 <= i < n ==> a[i] == (if i == m then 1.0 else 0.0) && b[i] == a[i]
    ensures Dot(a[..n], b[..n]) == 1.0
  {
    DotOfZeros(a[..m], b[..m]);
    DotOfZeros(a[m + 1..n], b[m + 1..n]);
    DotStep(a, b, m);
    DotAppend(a[..m + 1], b[..m + 1], a[m + 1..n], b[m + 1..n]);
    assert a[..n] == a[..m + 1] + a[m + 1..n] && b[..n] == b[..m + 1] + b[m + 1..n];
  }

  // ----- sign_bits: one bit per component, packed in words -----

  function WordCount(dims: nat): nat {
    (dims + 63) / 64
  }

  predicate SignAt(v: Vector, i: nat) {
    i < |v| && v[i] > 0.0
  }

  predicate BitAt(words: seq<nat>, i: nat)
    requires i < 64 * |words|
  {
    Bit(words[i / 64], i % 64)
  }

  /** `words` packs the signs of `v`: one bit per component, zero padding after the last. */
  ghost predicate PacksSigns(words: seq<nat>, v: Vector) {
    && |words| == WordCount(|v|)
    && (forall w :: 0 <= w < |words| ==> words[w] < WORD_LIMIT)
    && (forall i: nat :: i < 64 * |words| ==> BitAt(words, i) == SignAt(v, i))
  }

  function SignWord(v: Vector, w: nat, n: nat): nat {
    if n == 0 then 0 else SignWord(v, w, n - 1) + if SignAt(v, 64 * w + n - 1) then Pow2(n - 1) else 0
  }

  function SignWords(v: Vector): seq<nat> {
    seq(WordCount(|v|), w requires 0 <= w => SignWord(v, w, 64))
  }

  lemma {:induction false} SignWordBits(v: Vector, w: nat, n: nat)
    ensures SignWord(v, w, n) < Pow2(n)
    ensures forall k: nat :: k < n ==> Bit(SignWord(v, w, n), k) == SignAt(v, 64 * w + k)
  {
    if n > 0 {
      SignWordBits(v, w, n - 1);
      var low := SignWord(v, w, n - 1);
      forall k: nat | k < n ensures Bit(SignWord(v, w, n), k) == SignAt(v, 64 * w + k) {
        if SignAt(v, 64 * w + n - 1) {
          AddTopBit(low, n - 1, k);
        } else if k == n - 1 {
          NoBitAbove(low, n - 1);
        }
      }
    }
  }

  lemma {:induction false} NoBitAbove(a: nat, n: nat)
    requires a < Pow2(n)
    ensures !Bit(a, n)
  {
    if n > 0 { NoBitAbove(a / 2, n - 1); }
  }

  lemma {:induction false} AddTopBit(a: nat, n: nat, k: nat)
    requires a < Pow2(n) && k <= n
    ensures Bit(a + Pow2(n), k) == (k == n || Bit(a, k))
  {
    if k > 0 {
      assert (a + Pow2(n)) / 2 == a / 2 + Pow2(n - 1);
      AddTopBit(a / 2, n - 1, k - 1);
    }
  }

  lemma SignWordsPack(v: Vector)
    ensures PacksSigns(SignWords(v), v)
  {
    WordLimitIsPow2();
    forall w: nat | w < WordCount(|v|)
      ensures SignWords(v)[w] < WORD_LIMIT
      ensures forall k: nat :: k < 64 ==> Bit(SignWords(v)[w], k) == SignAt(v, 64 * w + k)
    {
      SignWordBits(v, w, 64);
    }
    forall i: nat | i < 64 * WordCount(|v|) ensures BitAt(SignWords(v), i) == SignAt(v, i) {
      assert i == 64 * (i / 64) + i % 64;
    }
  }

  lemma PackingIsUnique(a: seq<nat>, b: seq<nat>, v: Vector)
    requires PacksSigns(a, v) && PacksSigns(b, v)
    ensures a == b
  {
    forall w: nat | w < |a| ensures a[w] == b[w] {
      forall k: nat | k < 64 ensures Bit(a[w], k) == Bit(b[w], k) {
        assert BitAt(a, 64 * w + k) == BitAt(b, 64 * w + k);
      }
      WordSameBits(a[w], b[w]);
    }
  }

  method SignBits(v: Vector) returns (words: seq<nat>)
    ensures words == SignWords(v)
  {
    var a := new nat[WordCount(|v|)](_ => 0);
    forall i: nat | i < 64 * a.Length ensures !BitAt(a[..], i) {
      ZeroHasNoBits(i % 64);
    }
    var i := 0;
    while i < |v|
      invariant 0 <= i <= |v|
      invariant forall w :: 0 <= w < a.Length ==> a[w] < WORD_LIMIT
      invariant forall k: nat :: k < 64 * a.Length ==> BitAt(a[..], k) == (k < i && SignAt(v, k))
    {
      if v[i] > 0.0 {
        ghost var before := a[..];
        WordOrFits(a[i / 64], i % 64);
        a[i / 64] := Or(a[i / 64], Pow2(i % 64));
        forall k: nat | k < 64 * a.Length ensures BitAt(a[..], k) == (k < i + 1 && SignAt(v, k)) {
          SetBit(before, a[..], i, k);
          assert BitAt(before, k) == (k < i && SignAt(v, k));
        }
      }
      i := i + 1;
    }
    SignWordsPack(v);
    PackingIsUnique(a[..], SignWords(v), v);
    words := a[..];
  }

  lemma SetBit(before: seq<nat>, after: seq<nat>, i: nat, k: nat)
    requires i < 64 * |before| && k < 64 * |before|
    requires after == before[i / 64 := Or(before[i / 64], Pow2(i % 64))]
    ensures BitAt(after, k) == (k == i || BitAt(before, k))
  {
    BitOr(before[i / 64], Pow2(i % 64), k % 64);
    BitPow2(i % 64, k % 64);
  }

  /** The binary scan's distance: XOR word by word, then count ones. */
  function Hamming(a: seq<nat>, b: seq<nat>): nat
    requires |a| == |b|
  {
    if a == [] then 0 else Hamming(a[..|a| - 1], b[..|b| - 1]) + PopCount(Xor(a[|a| - 1], b[|b| - 1]))
  }

  method HammingDistance(a: seq<nat>, b: seq<nat>) returns (d: nat)
    requires |a| == |b|
    ensures d == Hamming(a, b)
  {
    d := 0;
    var w := 0;
    while w < |a|
      invariant 0 <= w <= |a|
      invariant d == Hamming(a[..w], b[..w])
    {
      assert a[..w + 1][..w] == a[..w] && b[..w + 1][..w] == b[..w];
      d := d + PopCount(Xor(a[w], b[w]));
      w := w + 1;
    }
    assert a[..w] == a && b[..w] == b;
  }

  /** How many components disagree in sign. */
  function SignDisagreements(u: Vector, v: Vector): (d: nat)
    requires |u| == |v|
    ensures d <= |u|
  {
    if u == [] then 0 else
    var differs := (u[|u| - 1] > 0.0) != (v[|v| - 1] > 0.0);
    SignDisagreements(u[..|u| - 1], v[..|v| - 1]) + if differs then 1 else 0
  }

  function DifferingBits(a: seq<nat>, b: seq<nat>, n: nat): nat
    requires |a| == |b| && n <= 64 * |a|
  {
    if n == 0 then 0
    else DifferingBits(a, b, n - 1) + if BitAt(a, n - 1) != BitAt(b, n - 1) then 1 else 0
  }

  lemma {:induction false} WordBlock(a: seq<nat>, b: seq<nat>, w: nat, k: nat)
    requires |a| == |b| && w < |a| && k <= 64
    ensures DifferingBits(a, b, 64 * w + k) == DifferingBits(a, b, 64 * w) + BitsBelow(Xor(a[w], b[w]), k)
  {
    if k > 0 {
      WordBlock(a, b, w, k - 1);
      BitXor(a[w], b[w], k - 1);
      assert (64 * w + k - 1) / 64 == w && (64 * w + k - 1) % 64 == k - 1;
    }
  }

  lemma HammingNext(a: seq<nat>, b: seq<nat>, w: nat)
    requires w < |a| == |b|
    ensures Hamming(a[..w + 1], b[..w + 1]) == Hamming(a[..w], b[..w]) + PopCount(Xor(a[w], b[w]))
  {
    assert a[..w + 1][..w] == a[..w] && b[..w + 1][..w] == b[..w];
  }

  lemma {:induction false} HammingCountsBits(a: seq<nat>, b: seq<nat>, w: nat)
    requires |a| == |b| && w <= |a|
    requires forall i :: 0 <= i < |a| ==> a[i] < WORD_LIMIT && b[i] < WORD_LIMIT
    ensures Hamming(a[..w], b[..w]) == DifferingBits(a, b, 64 * w)
  {
    if w > 0 {
      HammingCountsBits(a, b, w - 1);
      HammingNext(a, b, w - 1);
      NextWord(a, b, w - 1);
    }
  }

  lemma NextWord(a: seq<nat>, b: seq<nat>, w: nat)
    requires w < |a| == |b| && a[w] < WORD_LIMIT && b[w] < WORD_LIMIT
    ensures DifferingBits(a, b, 64 * (w + 1)) == DifferingBits(a, b, 64 * w) + PopCount(Xor(a[w], b[w]))
  {
    WordBlock(a, b, w, 64);
    WordXorPopCount(a[w], b[w]);
    assert 64 * w + 64 == 64 * (w + 1);
  }

  lemma {:induction false} BitsAreSigns(u: Vector, v: Vector, a: seq<nat>, b: seq<nat>, n: nat)
    requires |u| == |v| && PacksSigns(a, u) && PacksSigns(b, v) && n <= |u|
    ensures DifferingBits(a, b, n) == SignDisagreements(u[..n], v[..n])
  {
    if n > 0 {
      BitsAreSigns(u, v, a, b, n - 1);
      assert BitAt(a, n - 1) == SignAt(u, n - 1) && BitAt(b, n - 1) == SignAt(v, n - 1);
      assert u[..n][..n - 1] == u[..n - 1] && v[..n][..n - 1] == v[..n - 1];
    }
  }

  lemma {:induction false} PaddingAgrees(u: Vector, v: Vector, a: seq<nat>, b: seq<nat>, n: nat)
    requires |u| == |v| && PacksSigns(a, u) && PacksSigns(b, v) && |u| <= n <= 64 * |a|
    ensures DifferingBits(a, b, n) == DifferingBits(a, b, |u|)
  {
    if n > |u| {
      PaddingAgrees(u, v, a, b, n - 1);
      assert BitAt(a, n - 1) == SignAt(u, n - 1) && BitAt(b, n - 1) == SignAt(v, n - 1);
    }
  }

  /** Packing and counting ones is counting sign disagreements, padding bits included. */
  lemma HammingCountsSignDisagreements(u: Vector, v: Vector)
    requires |u| == |v|
    ensures Hamming(SignWords(u), SignWords(v)) == SignDisagreements(u, v)
  {
    SignWordsPack(u);
    SignWordsPack(v);
    PackedHamming(u, v, SignWords(u), SignWords(v));
  }

  lemma PackedHamming(u: Vector, v: Vector, a: seq<nat>, b: seq<nat>)
    requires |u| == |v| && PacksSigns(a, u) && PacksSigns(b, v)
    ensures Hamming(a, b) == SignDisagreements(u, v)
  {
    HammingCountsBits(a, b, |a|);
    PaddingAgrees(u, v, a, b, 64 * |a|);
    BitsAreSigns(u, v, a, b, |u|);
    assert a[..|a|] == a && b[..|b|] == b && u[..|u|] == u && v[..|v|] == v;
  }

  function BinaryEstimate(differing: nat, dims: nat): real
    requires dims > 0
  {
    1.0 - 2.0 * differing as real / dims as real
  }

  /** The share of components agreeing in sign minus the share disagreeing. */
  function SignAgreement(agree: nat, differ: nat): real
    requires agree + differ > 0
  {
    (agree - differ) as real / (agree + differ) as real
  }

  lemma BinaryEstimateIsAgreement(u: Vector, v: Vector)
    requires |u| == |v| && |u| > 0
    ensures BinaryEstimate(Hamming(SignWords(u), SignWords(v)), |u|)
         == SignAgreement(|u| - SignDisagreements(u, v), SignDisagreements(u, v))
    ensures -1.0 <= BinaryEstimate(Hamming(SignWords(u), SignWords(v)), |u|) <= 1.0
  {
    HammingCountsSignDisagreements(u, v);
    AgreementShare(|u|, SignDisagreements(u, v));
  }

  lemma AgreementShare(dims: nat, differ: nat)
    requires dims > 0 && differ <= dims
    ensures BinaryEstimate(differ, dims) == SignAgreement(dims - differ, differ)
    ensures -1.0 <= BinaryEstimate(differ, dims) <= 1.0
  {
    var d, n := differ as real, dims as real;
    assert (dims - differ - differ) as real == n - 2.0 * d;
    ShareOfReals(2.0 * d, n, 2.0 * d / n, (n - 2.0 * d) / n);
  }

  lemma ShareOfReals(a: real, n: real, q: real, p: real)
    requires n > 0.0 && 0.0 <= a <= 2.0 * n && q * n == a && p * n == n - a
    ensures 1.0 - q == p && 0.0 <= q <= 2.0
  {
    var w := 1.0 - q;
    Distributes(1.0, q, w, n);
    assert 1.0 * n == n;
    Cancel(p, w, n, n - a);
    Quotient(q, n, 2.0);
  }

  lemma Distributes(x: real, y: real, d: real, s: real)
    requires d == x - y
    ensures d * s == x * s - y * s
  {}

  lemma Cancel(x: real, y: real, n: real, t: real)
    requires n > 0.0 && x * n == t && y * n == t
    ensures x == y
  {
    var d, e := x - y, y - x;
    Distributes(x, y, d, n);
    Distributes(y, x, e, n);
    if d < 0.0 { NegativeProduct(d, n); } else if e < 0.0 { NegativeProduct(e, n); }
  }

  lemma Quotient(q: real, n: real, m: real)
    requires n > 0.0 && 0.0 <= q * n <= m * n
    ensures 0.0 <= q <= m
  {
    if q < 0.0 {
      NegativeProduct(q, n);
    } else if q > m {
      var d := m - q;
      Distributes(m, q, d, n);
      NegativeProduct(d, n);
    }
  }

  lemma NegativeProduct(x: real, n: real)
    requires x < 0.0 && n > 0.0
    ensures x * n < 0.0
  {}

  // ----- quantize_i8: one scale per vector -----

  function MaxAbs(v: Vector): (m: real)
    ensures m >= 0.0
    ensures forall i :: 0 <= i < |v| ==> Abs(v[i]) <= m
    ensures if v == [] then m == 0.0 else exists i :: 0 <= i < |v| && Abs(v[i]) == m
  {
    if v == [] then 0.0
    else
      var m, x := MaxAbs(v[..|v| - 1]), Abs(v[|v| - 1]);
      if x > m then x else m
  }

  /** f32::round: to the nearest integer, halves away from zero. */
  function Round(x: real): int {
    if x >= 0.0 then (x + 0.5).Floor else -(0.5 - x).Floor
  }

  lemma RoundIsNearest(x: real)
    ensures Abs(x - Round(x) as real) <= 0.5
    ensures Abs(x - Round(x) as real) == 0.5 ==> Abs(Round(x) as real) > Abs(x)
  {}

  function Clamp(x: int): int {
    if x < -127 then -127 else if x > 127 then 127 else x
  }

  function Code(x: real, s: real): int
    requires s != 0.0
  {
    Clamp(Round(x / s))
  }

  function QuantScale(v: Vector): real {
    if MaxAbs(v) <= EPSILON then 0.0 else MaxAbs(v) / 127.0
  }

  function CodesAt(v: Vector, s: real): (q: seq<int>)
    requires s > 0.0
    ensures |q| == |v|
    ensures forall i :: 0 <= i < |q| ==> -127 <= q[i] <= 127
  {
    seq(|v|, i requires 0 <= i < |v| => Code(v[i], s))
  }

  function QuantCodes(v: Vector): (q: seq<int>)
    ensures |q| == |v|
    ensures forall i :: 0 <= i < |q| ==> -127 <= q[i] <= 127
  {
    if MaxAbs(v) <= EPSILON then seq(|v|, _ => 0) else CodesAt(v, QuantScale(v))
  }

  function DotI8(a: seq<int>, b: seq<int>): int
    requires |a| == |b|
  {
    if a == [] then 0 else DotI8(a[..|a| - 1], b[..|b| - 1]) + a[|a| - 1] * b[|b| - 1]
  }

  function Rescale(dot: int, s: real, queryScale: real): real {
    dot as real * s * queryScale
  }

  function I8Estimate(u: Vector, v: Vector): real
    requires |u| == |v|
  {
    Rescale(DotI8(QuantCodes(u), QuantCodes(v)), QuantScale(v), QuantScale(u))
  }

  /** The largest error of one component: half a step, or the whole value for a vector at the cutoff. */
  function ComponentError(v: Vector): real {
    if MaxAbs(v) <= EPSILON then MaxAbs(v) else MaxAbs(v) / 254.0
  }

  /** The most that rounding both factors can change one product. */
  function RoundingError(eu: real, ev: real): (real, real) -> real {
    (a, b) => Abs(a) * ev + Abs(b) * eu + eu * ev
  }

  function DotErrorBound(u: Vector, v: Vector): real
    requires |u| == |v|
  {
    Fold(RoundingError(ComponentError(u), ComponentError(v)), u, v)
  }

  predicate Near(x: real, y: real, e: real) {
    -e <= x - y <= e
  }

  ghost predicate Within(v: Vector, p: Vector, e: real) {
    |p| == |v| && forall i :: 0 <= i < |v| ==> Near(v[i], p[i], e)
  }

  /** The vector that codes and a scale stand for. */
  function Scaled(q: seq<int>, s: real): (p: Vector)
    ensures |p| == |q|
  {
    seq(|q|, i requires 0 <= i < |q| => q[i] as real * s)
  }

  lemma QuantizedWithin(v: Vector)
    ensures Within(v, Scaled(QuantCodes(v), QuantScale(v)), ComponentError(v))
  {
    if MaxAbs(v) > EPSILON {
      CodesAtWithin(v, QuantScale(v));
    } else {
      ZerosWithin(v, MaxAbs(v));
    }
  }

  /** The whole range of codes is used: the largest components are coded as 127 or -127. */
  lemma LargestCodeIsFull(v: Vector, i: nat)
    requires MaxAbs(v) > EPSILON && i < |v| && Abs(v[i]) == MaxAbs(v)
    ensures QuantCodes(v)[i] == if v[i] > 0.0 then 127 else -127
  {
    hide Code, MaxAbs;
    FullCode(v[i], QuantScale(v));
  }

  lemma FullCode(x: real, s: real)
    requires s > 0.0 && Abs(x) == 127.0 * s
    ensures Code(x, s) == if x > 0.0 then 127 else -127
  {
    assert 127.0 * s / s == 127.0;
    assert x / s == if x > 0.0 then 127.0 else -127.0;
  }

  lemma CodesAtWithin(v: Vector, s: real)
    requires s > 0.0 && forall i :: 0 <= i < |v| ==> Abs(v[i]) <= 127.0 * s
    ensures Within(v, Scaled(CodesAt(v, s), s), s / 2.0)
  {
    forall i | 0 <= i < |v| ensures Near(v[i], Scaled(CodesAt(v, s), s)[i], s / 2.0) {
      CodeNear(v[i], s);
    }
  }

  lemma ZerosWithin(v: Vector, m: real)
    requires forall i :: 0 <= i < |v| ==> Abs(v[i]) <= m
    ensures Within(v, Scaled(seq(|v|, _ => 0), 0.0), m)
  {
    forall i | 0 <= i < |v| ensures Near(v[i], Scaled(seq(|v|, _ => 0), 0.0)[i], m) {
      assert (seq(|v|, _ => 0))[i] as real * 0.0 == 0.0;
      assert Abs(v[i]) <= m;
    }
  }

  lemma CodeNear(x: real, s: real)
    requires s > 0.0 && Abs(x) <= 127.0 * s
    ensures Near(x, Code(x, s) as real * s, s / 2.0)
  {
    RoundedCode(x, s);
  }

  /** No code is clamped, and rounding moves a component by at most half a step. */
  lemma RoundedCode(x: real, s: real)
    requires s > 0.0 && -127.0 * s <= x <= 127.0 * s
    ensures Near(x, Code(x, s) as real * s, s / 2.0)
  {
    var y := x / s;
    assert y * s == x;
    if y >= 0.0 {
      Quotient(y, s, 127.0);
    } else {
      NegativeProduct(y, s);
      assert -y * s == -x;
      Quotient(-y, s, 127.0);
    }
    assert Code(x, s) == Round(y);
    RoundingStep(x, y, s, Round(y) as real);
  }

  lemma RoundingStep(x: real, y: real, s: real, r: real)
    requires s > 0.0 && y * s == x && -0.5 <= y - r <= 0.5
    ensures -(s / 2.0) <= x - r * s <= s / 2.0
  {
    var e := y - r;
    SignedProduct(e, s, 0.5, s);
    Distributes(y, r, e, s);
    Halves(s);
    assert e * s == x - r * s;
  }

  lemma Halves(s: real)
    ensures 0.5 * s == s / 2.0
  {}

  lemma SignedProduct(x: real, y: real, m: real, n: real)
    requires -m <= x <= m && -n <= y <= n
    ensures -(m * n) <= x * y <= m * n
  {
    if x >= 0.0 {
      assert x * -n <= x * y <= x * n;
      assert x * n <= m * n;
    } else {
      assert x * n <= x * y <= x * -n;
      assert -x * n <= m * n;
    }
  }

  lemma ExpandProduct(a: real, b: real, da: real, db: real, qa: real, qb: real)
    requires qa == a - da && qb == b - db
    ensures a * b - qa * qb == a * db + b * da - da * db
  {
    assert qa * qb == (a - da) * (b - db);
  }

  lemma ProductError(a: real, b: real, qa: real, qb: real, ma: real, mb: real, ea: real, eb: real)
    requires -ma <= a <= ma && -mb <= b <= mb && -ea <= a - qa <= ea && -eb <= b - qb <= eb
    ensures -(ma * eb + mb * ea + ea * eb) <= a * b - qa * qb <= ma * eb + mb * ea + ea * eb
  {
    var da, db := a - qa, b - qb;
    SignedProduct(a, db, ma, eb);
    SignedProduct(b, da, mb, ea);
    SignedProduct(da, db, ea, eb);
    ExpandProduct(a, b, da, db, qa, qb);
  }

  /** Products that are close one by one have close sums. */
  lemma {:induction false} FoldNear(f: (real, real) -> real, e: (real, real) -> real, u: Vector, v: Vector, pu: Vector,
        pv: Vector)
    requires |u| == |v| == |pu| == |pv|
    requires forall i :: 0 <= i < |u| ==> Near(f(u[i], v[i]), f(pu[i], pv[i]), e(u[i], v[i]))
    ensures Near(Fold(f, u, v), Fold(f, pu, pv), Fold(e, u, v))
  {
    if u != [] {
      var n := |u| - 1;
      FoldNear(f, e, u[..n], v[..n], pu[..n], pv[..n]);
    }
  }

  /** Scaling the integer sum once is scaling every code. */
  lemma {:induction false} ScaledDotIsDot(qu: seq<int>, qv: seq<int>, su: real, sv: real)
    requires |qu| == |qv|
    ensures Rescale(DotI8(qu, qv), sv, su) == Dot(Scaled(qu, su), Scaled(qv, sv))
  {
    if qu == [] {
      assert 0.0 * sv * su == 0.0;
    } else {
      var n := |qu| - 1;
      ScaledDotIsDot(qu[..n], qv[..n], su, sv);
      ScaledPrefix(qu, su, n);
      ScaledPrefix(qv, sv, n);
      RescaleSum(DotI8(qu[..n], qv[..n]), qu[n], qv[n], su, sv);
    }
  }

  lemma ScaledPrefix(q: seq<int>, s: real, n: nat)
    requires n <= |q|
    ensures Scaled(q, s)[..n] == Scaled(q[..n], s)
  {
    forall i | 0 <= i < n ensures Scaled(q, s)[..n][i] == Scaled(q[..n], s)[i] {
      assert q[..n][i] == q[i];
    }
  }

  lemma RescaleSum(d: int, a: int, b: int, su: real, sv: real)
    ensures Rescale(d + a * b, sv, su) == Rescale(d, sv, su) + Product(a as real * su, b as real * sv)
  {
    var x, y := a as real, b as real;
    assert (d + a * b) as real == d as real + x * y;
    DistributeScales(d as real, x, y, su, sv);
  }

  lemma DistributeScales(d: real, a: real, b: real, su: real, sv: real)
    ensures (d + a * b) * sv * su == d * sv * su + (a * su) * (b * sv)
  {}

  lemma ProductNear(a: real, b: real, qa: real, qb: real, ea: real, eb: real)
    requires Near(a, qa, ea) && Near(b, qb, eb)
    ensures Near(Product(a, b), Product(qa, qb), RoundingError(ea, eb)(a, b))
  {
    var ma, mb := Abs(a), Abs(b);
    assert -ma <= a <= ma && -mb <= b <= mb;
    ProductError(a, b, qa, qb, ma, mb, ea, eb);
    assert RoundingError(ea, eb)(a, b) == ma * eb + mb * ea + ea * eb;
  }

  lemma VectorsDotError(u: Vector, v: Vector, pu: Vector, pv: Vector, eu: real, ev: real)
    requires |u| == |v| && Within(u, pu, eu) && Within(v, pv, ev)
    ensures Near(Dot(u, v), Dot(pu, pv), Fold(RoundingError(eu, ev), u, v))
  {
    forall i | 0 <= i < |u|
      ensures Near(Product(u[i], v[i]), Product(pu[i], pv[i]), RoundingError(eu, ev)(u[i], v[i]))
    {
      ProductNear(u[i], v[i], pu[i], pv[i], eu, ev);
    }
    FoldNear(Product, RoundingError(eu, ev), u, v, pu, pv);
  }

  lemma CodesDotError(u: Vector, v: Vector, qu: seq<int>, qv: seq<int>, su: real, sv: real, eu: real, ev: real)
    requires |u| == |v| == |qu| == |qv|
    requires Within(u, Scaled(qu, su), eu) && Within(v, Scaled(qv, sv), ev)
    ensures Near(Dot(u, v), Rescale(DotI8(qu, qv), sv, su), Fold(RoundingError(eu, ev), u, v))
  {
    VectorsDotError(u, v, Scaled(qu, su), Scaled(qv, sv), eu, ev);
    ScaledDotIsDot(qu, qv, su, sv);
  }

  /** The i8 estimate differs from the real dot product by at most the sum of the products' rounding errors. */
  lemma QuantizedDotError(u: Vector, v: Vector)
    requires |u| == |v|
    ensures Near(Dot(u, v), I8Estimate(u, v), DotErrorBound(u, v))
  {
    QuantizedWithin(u);
    QuantizedWithin(v);
    CodesDotError(u, v, QuantCodes(u), QuantCodes(v), QuantScale(u), QuantScale(v), ComponentError(u),
        ComponentError(v));
  }

  // ----- dot_i8: the i32 accumulator -----

  predicate IsI8Codes(q: seq<int>) {
    forall i :: 0 <= i < |q| ==> -127 <= q[i] <= 127
  }

  ghost predicate PartialSumsFit(a: seq<int>, b: seq<int>)
    requires |a| == |b|
  {
    forall n :: 0 <= n <= |a| ==> -I32_MAX - 1 <= DotI8(a[..n], b[..n]) <= I32_MAX
  }

  lemma {:induction false} I8DotBound(a: seq<int>, b: seq<int>)
    requires |a| == |b| && IsI8Codes(a) && IsI8Codes(b)
    ensures -16129 * |a| <= DotI8(a, b) <= 16129 * |a|
  {
    if a != [] {
      var n := |a| - 1;
      I8DotBound(a[..n], b[..n]);
      CodeProduct(a[n], b[n]);
    }
  }

  lemma CodeProduct(x: int, y: int)
    requires -127 <= x <= 127 && -127 <= y <= 127
    ensures -16129 <= x * y <= 16129
  {
    var z := if y >= 0 then y else -y;
    assert x * y == x * z || x * y == -(x * z);
    BoundedFactor(x, z, 127);
  }

  lemma BoundedFactor(x: int, z: nat, m: int)
    requires -m <= x <= m
    ensures -(m * z) <= x * z <= m * z
  {}

  lemma {:induction false} DotOfLargest(n: nat)
    ensures DotI8(seq(n, _ => 127), seq(n, _ => 127)) == 16129 * n
  {
    if n > 0 {
      DotOfLargest(n - 1);
      var q := seq(n, _ => 127);
      assert q[..n - 1] == seq(n - 1, _ => 127);
    }
  }

  /** The i32 sum is exact at every step for all codes exactly up to this dimension. */
  lemma I8DotNeverOverflowsIff(dims: nat)
    ensures dims <= MAX_I8_DIMS <==>
            forall a, b :: |a| == dims && |b| == dims && IsI8Codes(a) && IsI8Codes(b) ==> PartialSumsFit(a, b)
  {
    if dims <= MAX_I8_DIMS {
      forall a, b | |a| == dims && |b| == dims && IsI8Codes(a) && IsI8Codes(b) ensures PartialSumsFit(a, b) {
        forall n | 0 <= n <= dims ensures -I32_MAX - 1 <= DotI8(a[..n], b[..n]) <= I32_MAX {
          I8DotBound(a[..n], b[..n]);
        }
      }
    } else {
      var q := seq(dims, _ => 127);
      DotOfLargest(dims);
      assert q[..dims] == q;
      assert !PartialSumsFit(q, q);
    }
  }
}
