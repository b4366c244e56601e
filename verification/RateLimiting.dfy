/** The token-bucket limiter of `src/api/auth.rs`, with idle buckets pruned. Times are in seconds. */
module RateLimiting {

  datatype Bucket = Bucket(tokens: real, lastRefill: real, rps: real, burst: real)

  datatype Call = Call(key: string, now: real)

  /** What a key's prefix decides: its refill rate and its burst. */
  datatype Limits = Limits(rps: real, burst: real)

  const PRUNE_THRESHOLD: nat := 4096

  /** `saturating_duration_since` */
  function Elapsed(now: real, earlier: real): real {
    if now >= earlier then now - earlier else 0.0
  }

  function Min(a: real, b: real): real {
    if a <= b then a else b
  }

  function NewBucket(now: real, l: Limits): Bucket {
    Bucket(l.burst, now, l.rps, l.burst)
  }

  function Refilled(b: Bucket, now: real): Bucket {
    Bucket(Min(b.tokens + Elapsed(now, b.lastRefill) * b.rps, b.burst), now, b.rps, b.burst)
  }

  /** `try_consume`: refill, then take one token if there is one. */
  function Consume(b: Bucket, now: real): (Bucket, bool) {
    var r := Refilled(b, now);
    if r.tokens >= 1.0 then (r.(tokens := r.tokens - 1.0), true) else (r, false)
  }

  predicate IsRefilled(b: Bucket, now: real) {
    b.tokens + Elapsed(now, b.lastRefill) * b.rps >= b.burst
  }

  type Buckets = map<string, Bucket>

  /** The limiter that never forgets a bucket. */
  function PlainStep(buckets: Buckets, call: Call, l: Limits): (Buckets, bool) {
    var b := if call.key in buckets then buckets[call.key] else NewBucket(call.now, l);
    var (b', ok) := Consume(b, call.now);
    (buckets[call.key := b'], ok)
  }

  /** The buckets that have not refilled. */
  function Retained(buckets: Buckets, now: real): Buckets {
    map k | k in buckets && !IsRefilled(buckets[k], now) :: buckets[k]
  }

  function Pruned(buckets: Buckets, call: Call): Buckets {
    if |buckets| >= PRUNE_THRESHOLD && call.key !in buckets then Retained(buckets, call.now) else buckets
  }

  function Step(buckets: Buckets, call: Call, l: Limits): (Buckets, bool) {
    PlainStep(Pruned(buckets, call), call, l)
  }

  class RateLimiter {
    var buckets: Buckets

    constructor ()
      ensures buckets == map[]
    {
      buckets := map[];
    }

    method AllowWith(key: string, rps: real, burst: real, now: real) returns (allowed: bool)
      modifies this
      ensures (buckets, allowed) == Step(old(buckets), Call(key, now), Limits(rps, burst))
    {
      hide Retained, Consume;
      ghost var call := Call(key, now);
      ghost var kept := Pruned(buckets, call);
      if |buckets| >= PRUNE_THRESHOLD && key !in buckets {
        buckets := Retained(buckets, now);
      }
      if key !in buckets {
        buckets := buckets[key := NewBucket(now, Limits(rps, burst))];
      }
      var bucket;
      bucket, allowed := TryConsume(buckets[key], now);
      buckets := buckets[key := bucket];
      assert buckets == kept[key := bucket];
    }
  }

  method TryConsume(b: Bucket, now: real) returns (bucket: Bucket, allowed: bool)
    ensures (bucket, allowed) == Consume(b, now)
  {
    var elapsed := Elapsed(now, b.lastRefill);
    bucket := b.(tokens := Min(b.tokens + elapsed * b.rps, b.burst), lastRefill := now);
    allowed := bucket.tokens >= 1.0;
    if allowed {
      bucket := bucket.(tokens := bucket.tokens - 1.0);
    }
  }

  // ----- Runs -----

  ghost predicate SaneLimits(limits: string -> Limits) {
    forall k :: limits(k).rps >= 0.0 && limits(k).burst >= 0.0
  }

  ghost predicate TimeOrdered(calls: seq<Call>) {
    forall i, j :: 0 <= i < j < |calls| ==> calls[i].now <= calls[j].now
  }

  /** The buckets after the first `n` calls, with pruning and without. */
  function After(calls: seq<Call>, limits: string -> Limits, n: nat): Buckets
    requires n <= |calls|
  {
    if n == 0 then map[] else Step(After(calls, limits, n - 1), calls[n - 1], limits(calls[n - 1].key)).0
  }

  function PlainAfter(calls: seq<Call>, limits: string -> Limits, n: nat): Buckets
    requires n <= |calls|
  {
    if n == 0 then map[] else PlainStep(PlainAfter(calls, limits, n - 1), calls[n - 1], limits(calls[n - 1].key)).0
  }

  function Answer(calls: seq<Call>, limits: string -> Limits, n: nat): bool
    requires n < |calls|
  {
    Step(After(calls, limits, n), calls[n], limits(calls[n].key)).1
  }

  function PlainAnswer(calls: seq<Call>, limits: string -> Limits, n: nat): bool
    requires n < |calls|
  {
    PlainStep(PlainAfter(calls, limits, n), calls[n], limits(calls[n].key)).1
  }

  /** Buckets carry their key's limits and hold between none and a full burst. */
  ghost predicate Sound(buckets: Buckets, limits: string -> Limits) {
    forall k :: k in buckets ==>
      && buckets[k].rps == limits(k).rps && buckets[k].burst == limits(k).burst
      && 0.0 <= buckets[k].tokens <= buckets[k].burst
  }

  lemma StepIsSound(buckets: Buckets, call: Call, limits: string -> Limits)
    requires SaneLimits(limits) && Sound(buckets, limits)
    ensures Sound(Step(buckets, call, limits(call.key)).0, limits)
    ensures Sound(PlainStep(buckets, call, limits(call.key)).0, limits)
  {
    ConsumeIsSound(if call.key in buckets then buckets[call.key] else NewBucket(call.now, limits(call.key)), call.now);
    var p := Pruned(buckets, call);
    ConsumeIsSound(if call.key in p then p[call.key] else NewBucket(call.now, limits(call.key)), call.now);
  }

  lemma ConsumeIsSound(b: Bucket, now: real)
    requires 0.0 <= b.tokens <= b.burst && b.rps >= 0.0
    ensures var b' := Consume(b, now).0;
            0.0 <= b'.tokens <= b'.burst && b'.lastRefill == now && b'.rps == b.rps && b'.burst == b.burst
  {
    assert Elapsed(now, b.lastRefill) * b.rps >= 0.0;
  }

  lemma {:induction false} AfterIsSound(calls: seq<Call>, limits: string -> Limits, n: nat)
    requires SaneLimits(limits) && n <= |calls|
    ensures Sound(After(calls, limits, n), limits) && Sound(PlainAfter(calls, limits, n), limits)
  {
    if n > 0 {
      AfterIsSound(calls, limits, n - 1);
      StepIsSound(After(calls, limits, n - 1), calls[n - 1], limits);
      StepIsSound(PlainAfter(calls, limits, n - 1), calls[n - 1], limits);
    }
  }

  // ----- When pruning can be observed. The clock is read before the lock, so times may come in any order. -----

  /** The buckets that were kept are those of the limiter that never forgets. */
  ghost predicate Shadows(pruned: Buckets, plain: Buckets) {
    forall k :: k in pruned ==> k in plain && pruned[k] == plain[k]
  }

  /** If the call's own bucket was dropped, it is refilled by the call's instant. */
  predicate ReturnsRefilled(pruned: Buckets, plain: Buckets, call: Call) {
    call.key in plain && call.key !in pruned ==> IsRefilled(plain[call.key], call.now)
  }

  /** A bucket consumes like a new one exactly when it is refilled. */
  lemma RefilledIsNew(b: Bucket, now: real, l: Limits)
    requires b.rps == l.rps && b.burst == l.burst
    ensures Consume(b, now) == Consume(NewBucket(now, l), now) <==> IsRefilled(b, now)
  {
    assert Elapsed(now, now) * l.rps == 0.0;
  }

  lemma ShadowsUpdate(pruned: Buckets, plain: Buckets, k: string, b: Bucket, b': Bucket)
    requires Shadows(pruned, plain)
    ensures Shadows(pruned[k := b], plain[k := b']) <==> b == b'
  {
    assert k in pruned[k := b];
  }

  /** The bucket a call consumes from. */
  function BucketOf(buckets: Buckets, call: Call, l: Limits): Bucket {
    if call.key in buckets then buckets[call.key] else NewBucket(call.now, l)
  }

  lemma StepConsumes(buckets: Buckets, call: Call, l: Limits, next: (Bucket, bool))
    requires next == Consume(BucketOf(Pruned(buckets, call), call, l), call.now)
    ensures Step(buckets, call, l) == (Pruned(buckets, call)[call.key := next.0], next.1)
  {}

  lemma PlainStepConsumes(buckets: Buckets, call: Call, l: Limits, next: (Bucket, bool))
    requires next == Consume(BucketOf(buckets, call, l), call.now)
    ensures PlainStep(buckets, call, l) == (buckets[call.key := next.0], next.1)
  {}

  lemma SameConsumption(pruned: Buckets, plain: Buckets, call: Call, l: Limits)
    requires Shadows(pruned, plain)
    requires call.key in plain ==> plain[call.key].rps == l.rps && plain[call.key].burst == l.burst
    ensures Consume(BucketOf(Pruned(pruned, call), call, l), call.now) == Consume(BucketOf(plain, call, l), call.now)
       <==> ReturnsRefilled(pruned, plain, call)
  {
    if call.key in plain && call.key !in pruned {
      RefilledIsNew(plain[call.key], call.now, l);
    }
  }

  /** One call keeps the two limiters alike exactly when a dropped bucket comes back refilled. */
  lemma StepSimulates(pruned: Buckets, plain: Buckets, call: Call, limits: string -> Limits)
    requires Sound(plain, limits) && Shadows(pruned, plain)
    ensures var (b, ok) := Step(pruned, call, limits(call.key));
            var (b', ok') := PlainStep(plain, call, limits(call.key));
            ok == ok' && Shadows(b, b') <==> ReturnsRefilled(pruned, plain, call)
  {
    var p, l := Pruned(pruned, call), limits(call.key);
    var next, next' := Consume(BucketOf(p, call, l), call.now), Consume(BucketOf(plain, call, l), call.now);
    StepConsumes(pruned, call, l, next);
    PlainStepConsumes(plain, call, l, next');
    ShadowsUpdate(p, plain, call.key, next.0, next'.0);
    SameConsumption(pruned, plain, call, l);
  }

  ghost predicate ShadowsAt(calls: seq<Call>, limits: string -> Limits, n: nat)
    requires n <= |calls|
  {
    Shadows(After(calls, limits, n), PlainAfter(calls, limits, n))
  }

  /** Call `n` is answered as if no bucket were ever dropped, and leaves no bucket that could show otherwise. */
  ghost predicate AlikeAt(calls: seq<Call>, limits: string -> Limits, n: nat)
    requires n < |calls|
  {
    Answer(calls, limits, n) == PlainAnswer(calls, limits, n) && ShadowsAt(calls, limits, n + 1)
  }

  ghost predicate ReturnsAt(calls: seq<Call>, limits: string -> Limits, n: nat)
    requires n < |calls|
  {
    ReturnsRefilled(After(calls, limits, n), PlainAfter(calls, limits, n), calls[n])
  }

  lemma CallSimulates(calls: seq<Call>, limits: string -> Limits, n: nat)
    requires SaneLimits(limits) && n < |calls| && ShadowsAt(calls, limits, n)
    ensures AlikeAt(calls, limits, n) <==> ReturnsAt(calls, limits, n)
  {
    AfterIsSound(calls, limits, n);
    StepSimulates(After(calls, limits, n), PlainAfter(calls, limits, n), calls[n], limits);
  }

  /** Two properties that agree wherever the first has held so far, hold throughout together. */
  lemma {:induction false} StepwiseIff(a: nat -> bool, b: nat -> bool, n: nat)
    requires forall m: nat :: m < n && (forall q: nat :: q < m ==> a(q)) ==> (a(m) <==> b(m))
    ensures (forall m: nat :: m < n ==> a(m)) <==> (forall m: nat :: m < n ==> b(m))
  {
    if n > 0 {
      StepwiseIff(a, b, n - 1);
    }
  }

  lemma AlikeSoFar(calls: seq<Call>, limits: string -> Limits, n: nat)
    requires SaneLimits(limits) && n < |calls| && (n > 0 ==> AlikeAt(calls, limits, n - 1))
    ensures AlikeAt(calls, limits, n) <==> ReturnsAt(calls, limits, n)
  {
    CallSimulates(calls, limits, n);
  }

  /** In any order of instants: a run cannot be told from one of the limiter that never forgets exactly when every
      dropped bucket whose key calls again is refilled by that call. */
  lemma PruningIsUnobservableIff(calls: seq<Call>, limits: string -> Limits)
    requires SaneLimits(limits)
    ensures (forall n: nat :: n < |calls| ==> AlikeAt(calls, limits, n)) <==>
              (forall n: nat :: n < |calls| ==> ReturnsAt(calls, limits, n))
  {
    hide AlikeAt, ReturnsAt, After, PlainAfter;
    var a := (n: nat) => n < |calls| && AlikeAt(calls, limits, n);
    var b := (n: nat) => n < |calls| && ReturnsAt(calls, limits, n);
    forall n: nat | n < |calls| && (forall q: nat :: q < n ==> a(q)) ensures a(n) <==> b(n) {
      assert n > 0 ==> a(n - 1);
      AlikeSoFar(calls, limits, n);
    }
    StepwiseIff(a, b, |calls|);
    assert forall n: nat :: n < |calls| ==> (a(n) <==> AlikeAt(calls, limits, n));
    assert forall n: nat :: n < |calls| ==> (b(n) <==> ReturnsAt(calls, limits, n));
  }

  /** Call `m` finds the map full and its key new. */
  predicate Prunes(calls: seq<Call>, limits: string -> Limits, m: nat)
    requires m < |calls|
  {
    |After(calls, limits, m)| >= PRUNE_THRESHOLD && calls[m].key !in After(calls, limits, m)
  }

  /** No call carries an earlier instant than a pruning before it. */
  ghost predicate Settled(calls: seq<Call>, limits: string -> Limits) {
    forall m, n :: 0 <= m < n < |calls| && Prunes(calls, limits, m) ==> calls[m].now <= calls[n].now
  }

  ghost predicate DroppedBy(calls: seq<Call>, limits: string -> Limits, m: nat, b: Bucket)
    requires m < |calls|
  {
    Prunes(calls, limits, m) && IsRefilled(b, calls[m].now)
  }

  /** One of the first `n` calls has dropped this bucket. */
  ghost predicate Dropped(calls: seq<Call>, limits: string -> Limits, n: nat, b: Bucket)
    requires n <= |calls|
  {
    exists m: nat :: m < n && DroppedBy(calls, limits, m, b)
  }

  ghost predicate DropsExplained(calls: seq<Call>, limits: string -> Limits, n: nat)
    requires n <= |calls|
  {
    forall k :: k in PlainAfter(calls, limits, n) && k !in After(calls, limits, n) ==>
      Dropped(calls, limits, n, PlainAfter(calls, limits, n)[k])
  }

  lemma DropsExplainedNext(calls: seq<Call>, limits: string -> Limits, n: nat)
    requires n < |calls| && DropsExplained(calls, limits, n) && ShadowsAt(calls, limits, n)
    ensures DropsExplained(calls, limits, n + 1)
  {
    var plain, plain' := PlainAfter(calls, limits, n), PlainAfter(calls, limits, n + 1);
    forall k | k in plain' && k !in After(calls, limits, n + 1) ensures Dropped(calls, limits, n + 1, plain'[k]) {
      assert k in plain && plain'[k] == plain[k];
      if k in After(calls, limits, n) {
        assert DroppedBy(calls, limits, n, plain'[k]);
      } else {
        assert Dropped(calls, limits, n, plain[k]);
      }
    }
  }

  lemma RefilledStays(b: Bucket, now: real, later: real)
    requires IsRefilled(b, now) && now <= later && b.rps >= 0.0
    ensures IsRefilled(b, later)
  {
    GainBounds(Elapsed(later, b.lastRefill), Elapsed(now, b.lastRefill), b.rps);
  }

  lemma GainBounds(more: real, less: real, rps: real)
    requires less <= more && rps >= 0.0
    ensures less * rps <= more * rps
  {
    assert (more - less) * rps >= 0.0;
  }

  lemma SettledReturn(calls: seq<Call>, limits: string -> Limits, n: nat)
    requires SaneLimits(limits) && Settled(calls, limits) && n < |calls| && DropsExplained(calls, limits, n)
    ensures ReturnsAt(calls, limits, n)
  {
    var k, plain := calls[n].key, PlainAfter(calls, limits, n);
    if k in plain && k !in After(calls, limits, n) {
      assert Dropped(calls, limits, n, plain[k]);
      var m: nat :| m < n && DroppedBy(calls, limits, m, plain[k]);
      AfterIsSound(calls, limits, n);
      RefilledStays(plain[k], calls[m].now, calls[n].now);
    }
  }

  lemma SettledCall(calls: seq<Call>, limits: string -> Limits, n: nat, next: nat)
    requires SaneLimits(limits) && Settled(calls, limits) && n < |calls| && next == n + 1
    requires DropsExplained(calls, limits, n) && ShadowsAt(calls, limits, n)
    ensures DropsExplained(calls, limits, next) && ShadowsAt(calls, limits, next)
  {
    SettledReturn(calls, limits, n);
    CallSimulates(calls, limits, n);
    DropsExplainedNext(calls, limits, n);
  }

  lemma NothingDropped(calls: seq<Call>, limits: string -> Limits, n: nat)
    requires n == 0
    ensures DropsExplained(calls, limits, n) && ShadowsAt(calls, limits, n)
  {}

  lemma {:induction false} SettledStaysAlike(calls: seq<Call>, limits: string -> Limits, n: nat)
    requires SaneLimits(limits) && Settled(calls, limits) && n <= |calls|
    ensures DropsExplained(calls, limits, n) && ShadowsAt(calls, limits, n)
  {
    hide Settled, DropsExplained, ShadowsAt;
    if n == 0 {
      NothingDropped(calls, limits, n);
    } else {
      SettledStaysAlike(calls, limits, n - 1);
      SettledCall(calls, limits, n - 1, n);
    }
  }

  /** Dropping refilled buckets cannot be observed unless a call carries an earlier instant than a pruning before it. */
  lemma PruningIsUnobservable(calls: seq<Call>, limits: string -> Limits, n: nat)
    requires SaneLimits(limits) && Settled(calls, limits) && n < |calls|
    ensures Answer(calls, limits, n) == PlainAnswer(calls, limits, n)
  {
    SettledStaysAlike(calls, limits, n);
    SettledReturn(calls, limits, n);
    CallSimulates(calls, limits, n);
  }

  // ----- An early return that is observed -----

  function Name(i: nat): (name: string)
    ensures |name| == i
  {
    seq(i, _ => 'k')
  }

  function OneEach(n: nat): (calls: seq<Call>)
    ensures |calls| == n
  {
    seq(n, i requires 0 <= i < n => Call(Name(i), 0.0))
  }

  /** One token a second, one at most. */
  function Slow(k: string): Limits {
    Limits(1.0, 1.0)
  }

  /** One call from each of as many keys as fill the map, a later one of a new key, and the first key again with its
      first instant. */
  function EarlyReturn(full: nat): (calls: seq<Call>)
    ensures |calls| == full + 2
  {
    OneEach(full) + [Call(Name(full), 1.0), Call(Name(0), 0.0)]
  }

  function Spent(): Bucket {
    Bucket(0.0, 0.0, 1.0, 1.0)
  }

  lemma NothingRefills(b: Bucket)
    requires b.tokens <= b.burst
    ensures Refilled(b, b.lastRefill) == b
  {
    assert 0.0 * b.rps == 0.0;
  }

  lemma FirstTokenIsSpent()
    ensures Consume(NewBucket(0.0, Slow("")), 0.0) == (Spent(), true)
    ensures Consume(Spent(), 0.0) == (Spent(), false)
    ensures IsRefilled(Spent(), 1.0)
  {
    NothingRefills(NewBucket(0.0, Slow("")));
    NothingRefills(Spent());
  }

  lemma FirstToken() returns (spent: Bucket)
    ensures forall k :: Consume(NewBucket(0.0, Slow(k)), 0.0).1
    ensures spent == Spent() && !Consume(spent, 0.0).1 && IsRefilled(spent, 1.0)
  {
    FirstTokenIsSpent();
    spent := Spent();
    forall k ensures Consume(NewBucket(0.0, Slow(k)), 0.0).1 { assert Slow(k) == Slow(""); }
  }

  /** The first `n` keys have spent their token. */
  ghost predicate Filled(b: Buckets, n: nat) {
    |b| == n && (forall k :: k in b ==> b[k] == Spent() && |k| < n) && (n > 0 ==> Name(0) in b)
  }

  lemma FillOneMore(b: Buckets, n: nat)
    requires Filled(b, n)
    ensures Filled(b[Name(n) := Spent()], n + 1)
  {
    assert b[Name(n) := Spent()].Keys == b.Keys + {Name(n)};
  }

  lemma FillingCall(b: Buckets, call: Call, l: Limits, spent: Bucket)
    requires call.key !in b && |b| < PRUNE_THRESHOLD && Consume(NewBucket(call.now, l), call.now) == (spent, true)
    ensures Step(b, call, l) == PlainStep(b, call, l) == (b[call.key := spent], true)
  {}

  lemma PruningCall(b: Buckets, call: Call, l: Limits, k: string, spent: Bucket)
    requires call.key !in b && |b| >= PRUNE_THRESHOLD && k in b && b[k] == spent && IsRefilled(spent, call.now)
    ensures k !in Step(b, call, l).0 && k in PlainStep(b, call, l).0 && PlainStep(b, call, l).0[k] == spent
  {}

  lemma ReturningCall(pruned: Buckets, plain: Buckets, call: Call, l: Limits, spent: Bucket)
    requires call.key !in pruned && call.key in plain && plain[call.key] == spent
    requires Consume(NewBucket(call.now, l), call.now).1 && !Consume(spent, call.now).1
    ensures Step(pruned, call, l).1 && !PlainStep(plain, call, l).1
  {}

  lemma EarlyCalls(full: nat)
    ensures var calls := EarlyReturn(full);
            && (forall i :: 0 <= i < full ==> calls[i] == Call(Name(i), 0.0))
            && calls[full] == Call(Name(full), 1.0) && calls[full + 1] == Call(Name(0), 0.0)
  {}

  lemma EarlyInOrder(full: nat)
    ensures TimeOrdered(EarlyReturn(full)[..full + 1])
  {
    EarlyCalls(full);
  }

  lemma AfterNext(calls: seq<Call>, limits: string -> Limits, n: nat, call: Call)
    requires n < |calls| && calls[n] == call
    ensures After(calls, limits, n + 1) == Step(After(calls, limits, n), call, limits(call.key)).0
    ensures PlainAfter(calls, limits, n + 1) == PlainStep(PlainAfter(calls, limits, n), call, limits(call.key)).0
  {}

  ghost predicate FilledTo(calls: seq<Call>, n: nat)
    requires n <= |calls|
  {
    Filled(After(calls, Slow, n), n) && PlainAfter(calls, Slow, n) == After(calls, Slow, n)
  }

  lemma FillNext(calls: seq<Call>, n: nat, next: nat)
    requires n < |calls| && n < PRUNE_THRESHOLD && next == n + 1 && calls[n] == Call(Name(n), 0.0) && FilledTo(calls, n)
    ensures FilledTo(calls, next)
  {
    FirstTokenIsSpent();
    assert Name(n) !in After(calls, Slow, n);
    FillingCall(After(calls, Slow, n), calls[n], Slow(""), Spent());
    FillOneMore(After(calls, Slow, n), n);
    AfterNext(calls, Slow, n, calls[n]);
  }

  lemma {:induction false} Filling(calls: seq<Call>, n: nat)
    requires n <= |calls| && n <= PRUNE_THRESHOLD && forall i :: 0 <= i < n ==> calls[i] == Call(Name(i), 0.0)
    ensures FilledTo(calls, n)
  {
    if n > 0 {
      Filling(calls, n - 1);
      FillNext(calls, n - 1, n);
    }
  }

  /** A pruning call and an earlier return, over a map that nothing has been dropped from. */
  lemma PruneAndReturn(calls: seq<Call>, limits: string -> Limits, n: nat, spent: Bucket)
    requires n + 1 < |calls| && PlainAfter(calls, limits, n) == After(calls, limits, n)
    requires Prunes(calls, limits, n) && calls[n + 1].key in After(calls, limits, n)
    requires After(calls, limits, n)[calls[n + 1].key] == spent && IsRefilled(spent, calls[n].now)
    requires var call := calls[n + 1];
             Consume(NewBucket(call.now, limits(call.key)), call.now).1 && !Consume(spent, call.now).1
    ensures Answer(calls, limits, n + 1) && !PlainAnswer(calls, limits, n + 1)
  {
    var call := calls[n + 1];
    PruningCall(After(calls, limits, n), calls[n], limits(calls[n].key), call.key, spent);
    AfterNext(calls, limits, n, calls[n]);
    ReturningCall(After(calls, limits, n + 1), PlainAfter(calls, limits, n + 1), call, limits(call.key), spent);
  }

  /** Pruning is observed: the last call, alone out of order, is admitted although its key has no token left. */
  lemma EarlyReturnIsObserved(full: nat)
    requires full == PRUNE_THRESHOLD
    ensures TimeOrdered(EarlyReturn(full)[..full + 1])
    ensures Answer(EarlyReturn(full), Slow, full + 1) && !PlainAnswer(EarlyReturn(full), Slow, full + 1)
  {
    var calls := EarlyReturn(full);
    var spent := FirstToken();
    EarlyCalls(full);
    EarlyInOrder(full);
    Filling(calls, full);
    assert Prunes(calls, Slow, full);
    PruneAndReturn(calls, Slow, full, spent);
  }

  // ----- How many calls get through -----

  /** The tokens a key could use at `now`: a key without a bucket has a full burst. */
  function Level(buckets: Buckets, k: string, limits: string -> Limits, now: real): real {
    if k in buckets then Refilled(buckets[k], now).tokens else limits(k).burst
  }

  /** How many of the calls `i..j` are admitted calls of `k`. */
  function Admitted(k: string, calls: seq<Call>, limits: string -> Limits, i: nat, j: nat): nat
    requires i <= j <= |calls|
  {
    if i == j then 0
    else Admitted(k, calls, limits, i, j - 1) + Cost(k, calls, limits, j - 1)
  }

  /** Tokens gained in `t` seconds. */
  function Accrued(rps: real, t: real): real {
    rps * t
  }

  /** One call costs an admitted key one token and nobody else any; waiting adds at most rps per second. */
  lemma StepSpends(buckets: Buckets, call: Call, k: string, limits: string -> Limits, now: real)
    requires SaneLimits(limits) && Sound(buckets, limits)
    ensures var (b, ok) := Step(buckets, call, limits(call.key));
            Level(b, k, limits, call.now) + (if call.key == k && ok then 1.0 else 0.0)
              <= Level(buckets, k, limits, now) + Accrued(limits(k).rps, Elapsed(call.now, now))
  {
    var p := Pruned(buckets, call);
    LevelGrowth(buckets, k, limits, now, call.now);
    assert Level(p, k, limits, call.now) == Level(buckets, k, limits, call.now);
    if call.key == k {
      var b := if k in p then p[k] else NewBucket(call.now, limits(k));
      assert Elapsed(call.now, call.now) * limits(k).rps == 0.0;
      ConsumeIsSound(b, call.now);
    }
  }

  lemma LevelGrowth(buckets: Buckets, k: string, limits: string -> Limits, now: real, later: real)
    requires SaneLimits(limits) && Sound(buckets, limits)
    ensures Level(buckets, k, limits, later) <=
              Level(buckets, k, limits, now) + Accrued(limits(k).rps, Elapsed(later, now))
  {
    AccruedIsGain(limits(k).rps, Elapsed(later, now));
    if k in buckets {
      var e, e' := Elapsed(now, buckets[k].lastRefill), Elapsed(later, buckets[k].lastRefill);
      GainSplits(e', e, Elapsed(later, now), limits(k).rps);
    }
  }

  lemma AccruedIsGain(rps: real, t: real)
    requires rps >= 0.0 && t >= 0.0
    ensures Accrued(rps, t) >= 0.0
  {}

  lemma GainSplits(more: real, a: real, b: real, rps: real)
    requires more <= a + b && rps >= 0.0
    ensures more * rps <= a * rps + Accrued(rps, b)
  {
    GainBounds(a + b, more, rps);
    assert (a + b) * rps == a * rps + rps * b;
  }

  /** How far the instants of the calls `i..j` move forward in all; moves back count nothing. */
  function Forward(calls: seq<Call>, i: nat, j: nat): (t: real)
    requires i < j <= |calls|
    ensures t >= 0.0
  {
    if j == i + 1 then 0.0 else Forward(calls, i, j - 1) + Elapsed(calls[j - 1].now, calls[j - 2].now)
  }

  lemma {:induction false} ForwardInOrder(calls: seq<Call>, i: nat, j: nat)
    requires TimeOrdered(calls) && i < j <= |calls|
    ensures Forward(calls, i, j) == calls[j - 1].now - calls[i].now
  {
    if j > i + 1 {
      ForwardInOrder(calls, i, j - 1);
    }
  }

  function Sum(f: nat -> real, i: nat, j: nat): real
    requires i <= j
  {
    if i == j then 0.0 else Sum(f, i, j - 1) + f(j - 1)
  }

  /** What is spent, and what is left, came from what was there and what was gained. */
  lemma {:induction false} Telescopes(cost: nat -> real, gain: nat -> real, level: nat -> real, i: nat, j: nat)
    requires i <= j && forall n: nat :: i <= n < j ==> cost(n) + level(n + 1) <= level(n) + gain(n)
    ensures Sum(cost, i, j) + level(j) <= level(i) + Sum(gain, i, j)
  {
    if i < j {
      Telescopes(cost, gain, level, i, j - 1);
    }
  }

  function Cost(k: string, calls: seq<Call>, limits: string -> Limits, n: nat): nat
    requires n < |calls|
  {
    if calls[n].key == k && Answer(calls, limits, n) then 1 else 0
  }

  lemma CallSpends(calls: seq<Call>, limits: string -> Limits, k: string, n: nat, t: real)
    requires SaneLimits(limits) && n < |calls|
    ensures Level(After(calls, limits, n + 1), k, limits, calls[n].now) + Cost(k, calls, limits, n) as real
              <= Level(After(calls, limits, n), k, limits, t) + Accrued(limits(k).rps, Elapsed(calls[n].now, t))
  {
    AfterIsSound(calls, limits, n);
    StepSpends(After(calls, limits, n), calls[n], k, limits, t);
  }

  /** What is left for `k` after call `n - 1`; at the start of the stretch, a full burst. */
  function LevelFrom(calls: seq<Call>, limits: string -> Limits, k: string, i: nat, n: nat): real {
    if n <= i then limits(k).burst
    else if n <= |calls| then Level(After(calls, limits, n), k, limits, calls[n - 1].now)
    else 0.0
  }

  function GainFrom(calls: seq<Call>, limits: string -> Limits, k: string, i: nat, n: nat): real {
    if i < n < |calls| then Accrued(limits(k).rps, Elapsed(calls[n].now, calls[n - 1].now)) else 0.0
  }

  function CostOf(calls: seq<Call>, limits: string -> Limits, k: string, n: nat): real {
    if n < |calls| then Cost(k, calls, limits, n) as real else 0.0
  }

  lemma EachCallSpends(calls: seq<Call>, limits: string -> Limits, k: string, i: nat, n: nat)
    requires SaneLimits(limits) && i <= n < |calls|
    ensures CostOf(calls, limits, k, n) + LevelFrom(calls, limits, k, i, n + 1)
              <= LevelFrom(calls, limits, k, i, n) + GainFrom(calls, limits, k, i, n)
  {
    if n > i {
      CallSpends(calls, limits, k, n, calls[n - 1].now);
    } else {
      AfterIsSound(calls, limits, n);
      CallSpends(calls, limits, k, n, calls[n].now);
      LevelInRange(After(calls, limits, n), k, limits, calls[n].now);
    }
  }

  lemma {:induction false} CostsAreAdmitted(calls: seq<Call>, limits: string -> Limits, k: string, cost: nat -> real,
        i: nat, j: nat)
    requires i <= j <= |calls| && forall n: nat :: i <= n < j ==> cost(n) == CostOf(calls, limits, k, n)
    ensures Sum(cost, i, j) == Admitted(k, calls, limits, i, j) as real
  {
    if i < j {
      CostsAreAdmitted(calls, limits, k, cost, i, j - 1);
      assert cost(j - 1) == CostOf(calls, limits, k, j - 1);
    }
  }

  lemma {:induction false} GainsAreForward(calls: seq<Call>, limits: string -> Limits, k: string, gain: nat -> real,
        i: nat, j: nat)
    requires i < j <= |calls| && forall n: nat :: i <= n < j ==> gain(n) == GainFrom(calls, limits, k, i, n)
    ensures Sum(gain, i, j) == Accrued(limits(k).rps, Forward(calls, i, j))
  {
    if j == i + 1 {
      assert Sum(gain, i, j) == Sum(gain, i, i) + gain(i) == 0.0;
    } else {
      GainsAreForward(calls, limits, k, gain, i, j - 1);
      AccruedAdds(limits(k).rps, Forward(calls, i, j - 1), Elapsed(calls[j - 1].now, calls[j - 2].now));
    }
  }

  lemma AccruedAdds(r: real, x: real, y: real)
    ensures Accrued(r, x) + Accrued(r, y) == Accrued(r, x + y)
  {}

  lemma LevelInRange(buckets: Buckets, k: string, limits: string -> Limits, now: real)
    requires SaneLimits(limits) && Sound(buckets, limits)
    ensures 0.0 <= Level(buckets, k, limits, now) <= limits(k).burst
  {
    if k in buckets {
      assert Elapsed(now, buckets[k].lastRefill) * buckets[k].rps >= 0.0;
    }
  }

  /** Over any stretch of a run, in any order of instants, a key gets at most its burst plus what refills while the
      instants move forward. */
  lemma AdmissionBound(calls: seq<Call>, limits: string -> Limits, k: string, i: nat, j: nat)
    requires SaneLimits(limits) && i < j <= |calls|
    ensures Admitted(k, calls, limits, i, j) as real <= limits(k).burst + Accrued(limits(k).rps, Forward(calls, i, j))
  {
    hide CostOf, GainFrom, LevelFrom, Admitted, Accrued, Forward;
    var cost := (n: nat) => CostOf(calls, limits, k, n);
    var gain := (n: nat) => GainFrom(calls, limits, k, i, n);
    var level := (n: nat) => LevelFrom(calls, limits, k, i, n);
    forall n: nat | i <= n < j ensures cost(n) + level(n + 1) <= level(n) + gain(n) {
      EachCallSpends(calls, limits, k, i, n);
    }
    Telescopes(cost, gain, level, i, j);
    CostsAreAdmitted(calls, limits, k, cost, i, j);
    GainsAreForward(calls, limits, k, gain, i, j);
    LevelIsLeft(calls, limits, k, i, j);
  }

  lemma LevelIsLeft(calls: seq<Call>, limits: string -> Limits, k: string, i: nat, j: nat)
    requires SaneLimits(limits) && i < j <= |calls|
    ensures LevelFrom(calls, limits, k, i, j) >= 0.0 && LevelFrom(calls, limits, k, i, i) == limits(k).burst
  {
    AfterIsSound(calls, limits, j);
    LevelInRange(After(calls, limits, j), k, limits, calls[j - 1].now);
  }

  /** With instants in order, that is what refills in the time of the stretch. */
  lemma AdmissionBoundInOrder(calls: seq<Call>, limits: string -> Limits, k: string, i: nat, j: nat)
    requires SaneLimits(limits) && TimeOrdered(calls) && i < j <= |calls|
    ensures Admitted(k, calls, limits, i, j) as real <=
              limits(k).burst + Accrued(limits(k).rps, calls[j - 1].now - calls[i].now)
  {
    AdmissionBound(calls, limits, k, i, j);
    ForwardInOrder(calls, i, j);
  }

  // ----- Patience is rewarded -----

  /** `k`'s bucket, if it has one, was last touched at `t`. */
  ghost predicate RestedSince(buckets: Buckets, k: string, t: real) {
    k in buckets ==> buckets[k].lastRefill == t
  }

  lemma {:induction false} StaysRested(calls: seq<Call>, limits: string -> Limits, i: nat, n: nat)
    requires i < n <= |calls| && forall m :: i < m < n ==> calls[m].key != calls[i].key
    ensures RestedSince(After(calls, limits, n), calls[i].key, calls[i].now)
  {
    if n > i + 1 {
      StaysRested(calls, limits, i, n - 1);
    }
  }

  lemma RestedCallIsAdmitted(buckets: Buckets, call: Call, limits: string -> Limits, t: real)
    requires SaneLimits(limits) && Sound(buckets, limits) && RestedSince(buckets, call.key, t)
    requires t <= call.now && limits(call.key).burst >= 1.0 && Accrued(limits(call.key).rps, call.now - t) >= 1.0
    ensures Step(buckets, call, limits(call.key)).1
  {
    var l := limits(call.key);
    assert Elapsed(call.now, call.now) * l.rps == 0.0;
    if call.key in buckets {
      assert Elapsed(call.now, buckets[call.key].lastRefill) * l.rps == Accrued(l.rps, call.now - t);
    }
  }

  /** A call is admitted whenever one token has refilled since that key's previous call, whatever order other calls
      come in. */
  lemma WaitingOneTokenIsEnough(calls: seq<Call>, limits: string -> Limits, i: nat, j: nat)
    requires SaneLimits(limits) && i < j < |calls| && calls[i].key == calls[j].key
    requires forall m :: i < m < j ==> calls[m].key != calls[j].key
    requires limits(calls[j].key).burst >= 1.0 && Accrued(limits(calls[j].key).rps, calls[j].now - calls[i].now) >= 1.0
    ensures Answer(calls, limits, j)
  {
    AfterIsSound(calls, limits, j);
    StaysRested(calls, limits, i, j);
    if calls[j].now < calls[i].now {
      NothingBackwards(limits(calls[j].key).rps, calls[j].now - calls[i].now);
      assert false;
    }
    RestedCallIsAdmitted(After(calls, limits, j), calls[j], limits, calls[i].now);
  }

  lemma NothingBackwards(rps: real, t: real)
    requires rps >= 0.0 && t <= 0.0
    ensures Accrued(rps, t) <= 0.0
  {
    assert rps * (-t) >= 0.0;
  }

  // ----- Exactly which calls get through -----

  /** The instants at which `k` called, among the first `n` calls. */
  function OwnTimes(calls: seq<Call>, k: string, n: nat): seq<real>
    requires n <= |calls|
  {
    if n == 0 then []
    else if calls[n - 1].key == k then OwnTimes(calls, k, n - 1) + [calls[n - 1].now]
    else OwnTimes(calls, k, n - 1)
  }

  /** How far the instants from the one at `s` on move forward in all. */
  function Advance(ts: seq<real>, s: nat): real
    requires s < |ts|
  {
    if s == |ts| - 1 then 0.0 else Advance(ts[..|ts| - 1], s) + Elapsed(ts[|ts| - 1], ts[|ts| - 2])
  }

  /** The rule, without tokens: over every stretch that ends with the last call, the calls let through and this one
      number at most the burst plus what refills in that stretch. */
  ghost predicate Affordable(l: Limits, ts: seq<real>)
    requires ts != []
    decreases |ts|, 0
  {
    forall s: nat :: s < |ts| ==>
      Granted(l, ts[..|ts| - 1], s) as real + 1.0 <= l.burst + Accrued(l.rps, Advance(ts, s))
  }

  /** How many of the calls from the one at `s` on the rule lets through. */
  ghost function Granted(l: Limits, ts: seq<real>, s: nat): nat
    requires s <= |ts|
    decreases |ts|, 1
  {
    if s == |ts| then 0 else Granted(l, ts[..|ts| - 1], s) + if Affordable(l, ts) then 1 else 0
  }

  /** The bucket of a key that calls at these instants, as its last call finds it. */
  function Found(l: Limits, ts: seq<real>): Bucket
    requires ts != []
    decreases |ts|
  {
    if |ts| == 1 then NewBucket(ts[0], l) else Consume(Found(l, ts[..|ts| - 1]), ts[|ts| - 2]).0
  }

  /** The tokens there are for the last call. */
  function Tokens(l: Limits, ts: seq<real>): real
    requires ts != []
  {
    Refilled(Found(l, ts), ts[|ts| - 1]).tokens
  }

  function Taken(l: Limits, ts: seq<real>): real
    requires ts != []
  {
    if Tokens(l, ts) >= 1.0 then 1.0 else 0.0
  }

  lemma {:induction false} FoundCarriesLimits(l: Limits, ts: seq<real>)
    requires ts != []
    ensures Found(l, ts).rps == l.rps && Found(l, ts).burst == l.burst
    ensures Found(l, ts).lastRefill == if |ts| == 1 then ts[0] else ts[|ts| - 2]
    decreases |ts|
  {
    if |ts| > 1 {
      FoundCarriesLimits(l, ts[..|ts| - 1]);
    }
  }

  /** A call takes a token or none; waiting adds tokens up to the burst. */
  lemma TokensNext(l: Limits, ts: seq<real>)
    requires ts != []
    ensures |ts| == 1 ==> Tokens(l, ts) == l.burst
    ensures |ts| > 1 ==>
              var past := ts[..|ts| - 1];
              Tokens(l, ts) ==
                Min(Tokens(l, past) - Taken(l, past) + Accrued(l.rps, Elapsed(ts[|ts| - 1], ts[|ts| - 2])), l.burst)
  {
    FoundCarriesLimits(l, ts);
    if |ts| == 1 {
      RefillAccrues(Found(l, ts), ts[0]);
      assert Accrued(l.rps, 0.0) == 0.0;
    } else {
      FoundCarriesLimits(l, ts[..|ts| - 1]);
      RefillAccrues(Found(l, ts), ts[|ts| - 1]);
    }
  }

  lemma RefillAccrues(b: Bucket, now: real)
    ensures Refilled(b, now).tokens == Min(b.tokens + Accrued(b.rps, Elapsed(now, b.lastRefill)), b.burst)
  {}

  /** What the stretch from the call at `s` leaves for the last one. */
  ghost function Room(l: Limits, ts: seq<real>, s: nat): real
    requires s < |ts|
  {
    l.burst + Accrued(l.rps, Advance(ts, s)) - Granted(l, ts[..|ts| - 1], s) as real
  }

  ghost predicate TokensAreRoom(l: Limits, ts: seq<real>)
    requires ts != []
  {
    && (forall s: nat :: s < |ts| ==> Tokens(l, ts) <= Room(l, ts, s))
    && (exists s: nat :: s < |ts| && Tokens(l, ts) == Room(l, ts, s))
  }

  lemma RoomNext(l: Limits, ts: seq<real>, s: nat)
    requires s < |ts| - 1
    ensures Room(l, ts, s) == Room(l, ts[..|ts| - 1], s) + Accrued(l.rps, Elapsed(ts[|ts| - 1], ts[|ts| - 2]))
                                - if Affordable(l, ts[..|ts| - 1]) then 1.0 else 0.0
  {
    var past := ts[..|ts| - 1];
    AccruedAdds(l.rps, Advance(past, s), Elapsed(ts[|ts| - 1], ts[|ts| - 2]));
  }

  lemma RoomAtEnd(l: Limits, ts: seq<real>)
    requires ts != []
    ensures Room(l, ts, |ts| - 1) == l.burst
  {
    assert Accrued(l.rps, 0.0) == 0.0;
  }

  lemma RoomDecides(l: Limits, ts: seq<real>)
    requires ts != [] && TokensAreRoom(l, ts)
    ensures Affordable(l, ts) <==> Tokens(l, ts) >= 1.0
  {
    var s: nat :| s < |ts| && Tokens(l, ts) == Room(l, ts, s);
    if Affordable(l, ts) {
      assert Granted(l, ts[..|ts| - 1], s) as real + 1.0 <= l.burst + Accrued(l.rps, Advance(ts, s));
    } else {
      var r: nat :| r < |ts| && Granted(l, ts[..|ts| - 1], r) as real + 1.0 > l.burst + Accrued(l.rps, Advance(ts, r));
      assert Tokens(l, ts) <= Room(l, ts, r);
    }
  }

  /** The tokens there are, are the least room that any stretch leaves. */
  lemma {:induction false} TokensAreLeastRoom(l: Limits, ts: seq<real>)
    requires ts != []
    ensures TokensAreRoom(l, ts)
    decreases |ts|
  {
    RoomAtEnd(l, ts);
    TokensNext(l, ts);
    if |ts| == 1 {
      assert Tokens(l, ts) == Room(l, ts, 0);
    } else {
      var past := ts[..|ts| - 1];
      TokensAreLeastRoom(l, past);
      RoomDecides(l, past);
      forall s: nat | s < |ts| ensures Tokens(l, ts) <= Room(l, ts, s) {
        if s < |ts| - 1 { RoomNext(l, ts, s); }
      }
      var s: nat :| s < |past| && Tokens(l, past) == Room(l, past, s);
      RoomNext(l, ts, s);
      assert Tokens(l, ts) == Room(l, ts, s) || Tokens(l, ts) == Room(l, ts, |ts| - 1);
    }
  }

  /** Without pruning, a key's bucket is what its own calls make of it. */
  lemma {:induction false} OwnBucket(calls: seq<Call>, limits: string -> Limits, k: string, n: nat)
    requires n <= |calls|
    ensures var plain, ts := PlainAfter(calls, limits, n), OwnTimes(calls, k, n);
            && (k in plain <==> ts != [])
            && (ts != [] ==> plain[k] == Consume(Found(limits(k), ts), ts[|ts| - 1]).0)
  {
    if n > 0 {
      OwnBucket(calls, limits, k, n - 1);
      if calls[n - 1].key == k { OwnNext(calls, k, n - 1); }
    }
  }

  lemma OwnNext(calls: seq<Call>, k: string, n: nat)
    requires n < |calls| && calls[n].key == k
    ensures var ts := OwnTimes(calls, k, n + 1);
            && ts != [] && ts[|ts| - 1] == calls[n].now && ts[..|ts| - 1] == OwnTimes(calls, k, n)
  {}

  /** Where no bucket is ever dropped, a call gets through exactly when the rule lets it, by its key's own calls. */
  lemma PlainAnswerIff(calls: seq<Call>, limits: string -> Limits, n: nat)
    requires n < |calls|
    ensures PlainAnswer(calls, limits, n) <==>
              Affordable(limits(calls[n].key), OwnTimes(calls, calls[n].key, n) + [calls[n].now])
  {
    var k := calls[n].key;
    var ts := OwnTimes(calls, k, n) + [calls[n].now];
    OwnTokens(calls, limits, n, ts);
    TokensAreLeastRoom(limits(k), ts);
    RoomDecides(limits(k), ts);
  }

  lemma OwnTokens(calls: seq<Call>, limits: string -> Limits, n: nat, ts: seq<real>)
    requires n < |calls| && ts == OwnTimes(calls, calls[n].key, n) + [calls[n].now]
    ensures PlainAnswer(calls, limits, n) <==> Tokens(limits(calls[n].key), ts) >= 1.0
  {
    OwnBucket(calls, limits, calls[n].key, n);
    assert ts[..|ts| - 1] == OwnTimes(calls, calls[n].key, n);
  }

  /** And so it is with pruning, unless a call carries an earlier instant than a pruning before it. */
  lemma AnswerIff(calls: seq<Call>, limits: string -> Limits, n: nat)
    requires SaneLimits(limits) && Settled(calls, limits) && n < |calls|
    ensures Answer(calls, limits, n) <==>
              Affordable(limits(calls[n].key), OwnTimes(calls, calls[n].key, n) + [calls[n].now])
  {
    PruningIsUnobservable(calls, limits, n);
    PlainAnswerIff(calls, limits, n);
  }

  lemma {:induction false} AdmittedAreGranted(calls: seq<Call>, limits: string -> Limits, k: string, n: nat)
    requires SaneLimits(limits) && Settled(calls, limits) && n <= |calls|
    ensures Admitted(k, calls, limits, 0, n) == Granted(limits(k), OwnTimes(calls, k, n), 0)
  {
    hide Affordable;
    if n > 0 {
      AdmittedAreGranted(calls, limits, k, n - 1);
      if calls[n - 1].key == k {
        AnswerIff(calls, limits, n - 1);
        OwnNext(calls, k, n - 1);
      }
    }
  }

  lemma {:induction false} GrantedFalls(l: Limits, ts: seq<real>, s: nat)
    requires s <= |ts|
    ensures Granted(l, ts, s) <= Granted(l, ts, 0)
    decreases |ts|
  {
    hide Affordable;
    if s < |ts| { GrantedFalls(l, ts[..|ts| - 1], s); }
  }

  ghost predicate OneInstant(ts: seq<real>) {
    forall i, j :: 0 <= i < |ts| && 0 <= j < |ts| ==> ts[i] == ts[j]
  }

  lemma {:induction false} NoAdvance(ts: seq<real>, s: nat)
    requires OneInstant(ts) && s < |ts|
    ensures Advance(ts, s) == 0.0
  {
    if s < |ts| - 1 { NoAdvance(ts[..|ts| - 1], s); }
  }

  lemma AffordableAtOnce(l: Limits, ts: seq<real>)
    requires OneInstant(ts) && ts != []
    ensures Affordable(l, ts) <==> Granted(l, ts[..|ts| - 1], 0) as real + 1.0 <= l.burst
  {
    assert Accrued(l.rps, 0.0) == 0.0;
    forall s: nat | s < |ts|
      ensures Advance(ts, s) == 0.0 && Granted(l, ts[..|ts| - 1], s) <= Granted(l, ts[..|ts| - 1], 0)
    {
      NoAdvance(ts, s);
      GrantedFalls(l, ts[..|ts| - 1], s);
    }
    assert Affordable(l, ts) ==>
        Granted(l, ts[..|ts| - 1], 0) as real + 1.0 <= l.burst + Accrued(l.rps, Advance(ts, 0));
  }

  lemma {:induction false} GrantedAtOnce(l: Limits, ts: seq<real>)
    requires OneInstant(ts) && l.burst >= 0.0
    ensures Granted(l, ts, 0) == if |ts| <= l.burst.Floor then |ts| else l.burst.Floor
    decreases |ts|
  {
    hide Affordable;
    if ts != [] {
      GrantedAtOnce(l, ts[..|ts| - 1]);
      AffordableAtOnce(l, ts);
    }
  }

  /** Of calls that all come at one instant, a new key gets the whole tokens of its burst, and one token a call. */
  lemma BurstAtOnce(calls: seq<Call>, limits: string -> Limits, k: string, n: nat)
    requires SaneLimits(limits) && Settled(calls, limits) && n <= |calls| && OneInstant(OwnTimes(calls, k, n))
    ensures var asked, whole := |OwnTimes(calls, k, n)|, limits(k).burst.Floor;
            Admitted(k, calls, limits, 0, n) == if asked <= whole then asked else whole
  {
    AdmittedAreGranted(calls, limits, k, n);
    GrantedAtOnce(limits(k), OwnTimes(calls, k, n));
  }
}
