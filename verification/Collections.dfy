/** Small facts about numbers and finite collections. */
module Collections {
  const USIZE_MAX: nat := 0xFFFF_FFFF_FFFF_FFFF

  function Min(a: nat, b: nat): nat {
    if a <= b then a else b
  }

  function Members<T(==)>(s: seq<T>): set<T> {
    set x | x in s
  }

  function Range(n: nat): (r: set<nat>)
    ensures |r| == n && forall i: nat :: i in r <==> i < n
  {
    if n == 0 then {} else Range(n - 1) + {n - 1}
  }

  lemma SubsetCount<T>(a: set<T>, b: set<T>)
    requires a <= b
    ensures |a| <= |b|
    ensures |a| == |b| ==> a == b
  {
    assert b == a + (b - a);
  }

  function SumBy<T>(f: T -> real, s: seq<T>): real {
    if s == [] then 0.0 else SumBy(f, s[..|s| - 1]) + f(s[|s| - 1])
  }

  lemma {:induction false} SumWithout<T>(f: T -> real, s: seq<T>, k: nat)
    requires k < |s|
    ensures SumBy(f, s) == SumBy(f, s[..k] + s[k + 1..]) + f(s[k])
  {
    var n := |s| - 1;
    var rest := s[..k] + s[k + 1..];
    if k == n {
      assert rest == s[..n];
    } else {
      SumWithout(f, s[..n], k);
      assert rest[..|rest| - 1] == s[..n][..k] + s[..n][k + 1..];
    }
  }

  lemma {:induction false} SumPermutes<T>(f: T -> real, s: seq<T>, t: seq<T>)
    requires multiset(s) == multiset(t)
    ensures SumBy(f, s) == SumBy(f, t)
  {
    assert |multiset(s)| == |multiset(t)|;
    if s != [] {
      var n := |s| - 1;
      assert s == s[..n] + [s[n]];
      assert s[n] in multiset(t);
      var k: nat :| k < |t| && t[k] == s[n];
      assert t == t[..k] + [t[k]] + t[k + 1..];
      assert multiset(t[..k] + t[k + 1..]) == multiset(t) - multiset{t[k]};
      assert multiset(s[..n]) == multiset(s) - multiset{s[n]};
      SumPermutes(f, s[..n], t[..k] + t[k + 1..]);
      SumWithout(f, t, k);
    }
  }
}
