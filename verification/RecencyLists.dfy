/** Bounded lists of distinct facts, newest first: `insert_unique_front` and the activity list of `src/platform.rs`. */
module RecencyLists {

  /** Removes the first item with the key, if any. */
  function RemoveFirst<T, K(==)>(items: seq<T>, key: T -> K, k: K): seq<T> {
    if items == [] then []
    else if key(items[0]) == k then items[1..]
    else [items[0]] + RemoveFirst(items[1..], key, k)
  }

  function Truncated<T>(items: seq<T>, maxLen: nat): (cut: seq<T>)
    ensures cut <= items && |cut| == if |items| > maxLen then maxLen else |items|
  {
    if |items| > maxLen then items[..maxLen] else items
  }

  /** One insertion: an equal-keyed item is replaced, the new one comes first, the oldest fall off the end. */
  function Inserted<T, K(==)>(items: seq<T>, key: T -> K, value: T, maxLen: nat): seq<T> {
    Truncated([value] + RemoveFirst(items, key, key(value)), maxLen)
  }

  function InsertedAll<T, K(==)>(items: seq<T>, key: T -> K, values: seq<T>, maxLen: nat): seq<T> {
    if values == [] then items
    else Inserted(InsertedAll(items, key, values[..|values| - 1], maxLen), key, values[|values| - 1], maxLen)
  }

  method Position<T, K(==)>(items: seq<T>, key: T -> K, k: K) returns (index: nat)
    ensures index <= |items| && forall i :: 0 <= i < index ==> key(items[i]) != k
    ensures index < |items| ==> key(items[index]) == k
  {
    index := 0;
    while index < |items| && key(items[index]) != k
      invariant index <= |items| && forall i :: 0 <= i < index ==> key(items[i]) != k
    {
      index := index + 1;
    }
  }

  lemma {:induction false} RemoveAt<T, K>(items: seq<T>, key: T -> K, k: K, index: nat)
    requires index <= |items| && forall i :: 0 <= i < index ==> key(items[i]) != k
    requires index < |items| ==> key(items[index]) == k
    ensures RemoveFirst(items, key, k) == if index < |items| then items[..index] + items[index + 1..] else items
  {
    if items != [] && index > 0 {
      var rest := items[1..];
      RemoveAt(rest, key, k, index - 1);
      assert key(items[0]) != k;
      if index < |items| {
        assert [items[0]] + (rest[..index - 1] + rest[index..]) == items[..index] + items[index + 1..];
      } else {
        assert [items[0]] + rest == items;
      }
    }
  }

  method InsertUniqueFront<T, K(==)>(before: seq<T>, key: T -> K, value: T, maxLen: nat) returns (items: seq<T>)
    ensures items == Inserted(before, key, value, maxLen)
  {
    items := before;
    var index := Position(items, key, key(value));
    RemoveAt(items, key, key(value), index);
    if index < |items| {
      items := items[..index] + items[index + 1..];
    }
    items := [value] + items;
    if |items| > maxLen {
      items := items[..maxLen];
    }
  }

  // ----- The recency order of a history -----

  /** The position of the last item with the key. */
  function LastIndex<T, K(==)>(history: seq<T>, key: T -> K, k: K): (i: int)
    ensures -1 <= i < |history| && (i >= 0 ==> key(history[i]) == k)
    ensures forall j :: i < j < |history| ==> key(history[j]) != k
  {
    if history == [] then -1
    else if key(history[|history| - 1]) == k then |history| - 1
    else LastIndex(history[..|history| - 1], key, k)
  }

  ghost predicate DistinctKeys<T, K>(items: seq<T>, key: T -> K) {
    forall i, j :: 0 <= i < j < |items| ==> key(items[i]) != key(items[j])
  }

  ghost function KeysOf<T, K>(items: seq<T>, key: T -> K): set<K> {
    set x | x in items :: key(x)
  }

  ghost predicate Falling<T>(items: seq<T>, rank: T -> int) {
    forall i, j :: 0 <= i < j < |items| ==> rank(items[i]) > rank(items[j])
  }

  ghost predicate IsLastOfKey<T, K>(x: T, history: seq<T>, key: T -> K) {
    LastIndex(history, key, key(x)) >= 0 && x == history[LastIndex(history, key, key(x))]
  }

  /** Every key of the history once, as its last item, latest last item first. */
  ghost predicate IsRecencyOrder<T, K>(items: seq<T>, history: seq<T>, key: T -> K) {
    && DistinctKeys(items, key) && KeysOf(items, key) == KeysOf(history, key)
    && (forall x :: x in items ==> IsLastOfKey(x, history, key))
    && Falling(items, x => LastIndex(history, key, key(x)))
  }

  /** The unbounded list. */
  function Recency<T, K(==)>(history: seq<T>, key: T -> K): seq<T> {
    if history == [] then []
    else
      var last := history[|history| - 1];
      [last] + RemoveFirst(Recency(history[..|history| - 1], key), key, key(last))
  }

  lemma {:induction false} RemovalOnlyRemoves<T, K>(items: seq<T>, key: T -> K, k: K)
    ensures forall x :: x in RemoveFirst(items, key, k) ==> x in items
  {
    if items != [] && key(items[0]) != k {
      RemovalOnlyRemoves(items[1..], key, k);
    }
  }

  lemma HeadAndTailKeys<T, K>(x: T, rest: seq<T>, key: T -> K)
    ensures KeysOf([x] + rest, key) == {key(x)} + KeysOf(rest, key)
    ensures DistinctKeys([x] + rest, key) <==> key(x) !in KeysOf(rest, key) && DistinctKeys(rest, key)
  {
    var all := [x] + rest;
    assert forall i :: 0 <= i < |rest| ==> rest[i] in rest && rest[i] == all[i + 1];
    if DistinctKeys(all, key) {
      forall i | 0 <= i < |rest| ensures key(rest[i]) != key(x) {
        assert all[0] == x && all[i + 1] == rest[i];
      }
      forall i, j | 0 <= i < j < |rest| ensures key(rest[i]) != key(rest[j]) {
        assert all[i + 1] == rest[i] && all[j + 1] == rest[j];
      }
    }
  }

  lemma {:induction false} RemoveFromDistinct<T, K>(items: seq<T>, key: T -> K, k: K)
    requires DistinctKeys(items, key)
    ensures DistinctKeys(RemoveFirst(items, key, k), key)
    ensures KeysOf(RemoveFirst(items, key, k), key) == KeysOf(items, key) - {k}
  {
    if items != [] {
      assert items == [items[0]] + items[1..];
      HeadAndTailKeys(items[0], items[1..], key);
      if key(items[0]) != k {
        RemoveFromDistinct(items[1..], key, k);
        HeadAndTailKeys(items[0], RemoveFirst(items[1..], key, k), key);
      }
    }
  }

  /** Removal keeps the order of what is left. */
  lemma {:induction false} RemoveKeepsOrder<T, K>(items: seq<T>, key: T -> K, k: K, rank: T -> int)
    requires Falling(items, rank)
    ensures Falling(RemoveFirst(items, key, k), rank)
  {
    if items != [] && key(items[0]) != k {
      var rest := RemoveFirst(items[1..], key, k);
      RemoveKeepsOrder(items[1..], key, k, rank);
      RemovalOnlyRemoves(items[1..], key, k);
      forall x | x in items[1..] ensures rank(items[0]) > rank(x) {
        var i :| 0 <= i < |items[1..]| && items[1..][i] == x;
        assert items[i + 1] == x;
      }
      FallingAfterHead(items[0], rest, rank);
    }
  }

  lemma FallingAfterHead<T>(x: T, rest: seq<T>, rank: T -> int)
    requires Falling(rest, rank) && forall y :: y in rest ==> rank(x) > rank(y)
    ensures Falling([x] + rest, rank)
  {
    assert forall j :: 0 <= j < |rest| ==> rest[j] in rest;
  }

  /** An item of another key neither moves nor stops being the last of its key. */
  lemma LastStays<T, K>(history: seq<T>, key: T -> K, k: K)
    requires history != [] && key(history[|history| - 1]) != k
    ensures LastIndex(history, key, k) == LastIndex(history[..|history| - 1], key, k)
  {}

  lemma {:induction false} RecencyIsRecencyOrder<T, K>(history: seq<T>, key: T -> K)
    ensures IsRecencyOrder(Recency(history, key), history, key)
  {
    if history != [] {
      var n := |history| - 1;
      var front, last := history[..n], history[n];
      var before := Recency(front, key);
      RecencyIsRecencyOrder(front, key);
      RemoveFromDistinct(before, key, key(last));
      RemovalOnlyRemoves(before, key, key(last));
      RemoveKeepsOrder(before, key, key(last), x => LastIndex(front, key, key(x)));
      NewestFirst(history, key, RemoveFirst(before, key, key(last)));
    }
  }

  lemma NewestFirst<T, K>(history: seq<T>, key: T -> K, left: seq<T>)
    requires history != [] && DistinctKeys(left, key)
    requires KeysOf(left, key) == KeysOf(history[..|history| - 1], key) - {key(history[|history| - 1])}
    requires forall x :: x in left ==> IsLastOfKey(x, history[..|history| - 1], key)
    requires Falling(left, x => LastIndex(history[..|history| - 1], key, key(x)))
    ensures IsRecencyOrder([history[|history| - 1]] + left, history, key)
  {
    var n := |history| - 1;
    var front, last := history[..n], history[n];
    var items := [last] + left;
    assert history == front + [last];
    assert KeysOf(history, key) == KeysOf(front, key) + {key(last)};
    HeadAndTailKeys(last, left, key);
    forall x | x in left
      ensures key(x) != key(last) && IsLastOfKey(x, history, key)
      ensures LastIndex(history, key, key(x)) == LastIndex(front, key, key(x))
    {
      assert key(x) in KeysOf(left, key);
      LastStays(history, key, key(x));
    }
    assert IsLastOfKey(last, history, key);
    assert forall i :: 0 <= i < |left| ==> left[i] in left;
    FallingAfterHead(last, left, x => LastIndex(history, key, key(x)));
  }

  /** Cutting before an insertion loses nothing that survives the cut after it. */
  lemma {:induction false} CutThenRemove<T, K>(items: seq<T>, key: T -> K, k: K, m: nat)
    requires DistinctKeys(items, key)
    ensures Truncated(RemoveFirst(Truncated(items, m + 1), key, k), m) == Truncated(RemoveFirst(items, key, k), m)
  {
    if |items| <= m + 1 {
    } else if key(items[0]) == k {
      assert items[..m + 1][1..] == items[1..][..m];
    } else {
      var cut, rest := items[..m + 1], items[1..];
      assert cut[0] == items[0] && cut[1..] == Truncated(rest, m);
      if m > 0 {
        DistinctTail(items, key);
        CutThenRemove(rest, key, k, m - 1);
        CutAfterFirst(items[0], RemoveFirst(cut[1..], key, k), RemoveFirst(rest, key, k), m);
      }
    }
  }

  lemma DistinctTail<T, K>(items: seq<T>, key: T -> K)
    requires items != [] && DistinctKeys(items, key)
    ensures DistinctKeys(items[1..], key)
  {}

  /** After any insertions into an empty list, the bounded list is the start of the history's recency order: cutting
      at every step loses nothing against cutting once at the end. */
  lemma {:induction false} BoundedListIsRecency<T, K>(key: T -> K, history: seq<T>, maxLen: nat)
    ensures InsertedAll([], key, history, maxLen) == Truncated(Recency(history, key), maxLen)
    ensures IsRecencyOrder(Recency(history, key), history, key)
  {
    RecencyIsRecencyOrder(history, key);
    if history != [] {
      var n := |history| - 1;
      var front, last := history[..n], history[n];
      BoundedListIsRecency(key, front, maxLen);
      if maxLen > 0 {
        var before := Recency(front, key);
        CutThenRemove(before, key, key(last), maxLen - 1);
        CutAfterFirst(last, RemoveFirst(Truncated(before, maxLen), key, key(last)),
            RemoveFirst(before, key, key(last)), maxLen);
      }
    }
  }

  lemma CutAfterFirst<T>(x: T, a: seq<T>, b: seq<T>, maxLen: nat)
    requires maxLen > 0 && Truncated(a, maxLen - 1) == Truncated(b, maxLen - 1)
    ensures Truncated([x] + a, maxLen) == Truncated([x] + b, maxLen)
  {
    assert ([x] + a)[..|Truncated([x] + a, maxLen)|] == [x] + Truncated(a, maxLen - 1);
    assert ([x] + b)[..|Truncated([x] + b, maxLen)|] == [x] + Truncated(b, maxLen - 1);
  }
}
