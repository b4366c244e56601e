/** The write-behind platform state: the buffered writer of `src/api/mod.rs` over the store of `src/platform.rs`. */
module PlatformWriter {
  import opened RecencyLists

  const MAX_STABLE_FACTS: nat := 64
  const MAX_ACTIVITY_FACTS: nat := 120
  const FLUSH_THRESHOLD: nat := 512

  datatype Usage = Usage(requests: nat, ingest: nat, query: nat, temporalQuery: nat, reset: nat, health: nat,
        version: nat)

  datatype Activity = Activity(fact: string, source: string, timestamp: nat)

  datatype Profile = Profile(stableFacts: seq<string>, recentActivity: seq<Activity>, lastUpdated: nat)

  /** The sentences a text yields; the detection itself is left to the caller. */
  datatype Extractor = Extractor(stable: string -> seq<string>, activity: string -> seq<string>)

  /** A user and an endpoint. */
  type Key = (string, string)

  datatype Note = Note(user: string, text: string, timestamp: nat, source: string)

  datatype Op = Used(key: Key) | Noted(note: Note)

  // ----- What one operation does when applied at once -----

  const NO_USAGE := Usage(0, 0, 0, 0, 0, 0, 0)

  const NO_PROFILE := Profile([], [], 0)

  predicate IsWordChar(c: char) {
    'a' <= c <= 'z' || 'A' <= c <= 'Z' || '0' <= c <= '9' || c == '_'
  }

  predicate IsSafeUserId(id: string) {
    8 <= |id| <= 128 && "usr_" <= id && forall i :: 0 <= i < |id| ==> IsWordChar(id[i])
  }

  /** What an endpoint's own counter gains: unknown endpoints only count as requests. */
  function Gain(endpoint: string, counted: string, n: nat): nat {
    if endpoint == counted then n else 0
  }

  function Bumped(u: Usage, endpoint: string, n: nat): Usage {
    Usage(
      u.requests + n,
      u.ingest + Gain(endpoint, "ingest", n),
      u.query + Gain(endpoint, "query", n),
      u.temporalQuery + Gain(endpoint, "temporal_query", n),
      u.reset + Gain(endpoint, "reset", n),
      u.health + Gain(endpoint, "health", n),
      u.version + Gain(endpoint, "version", n))
  }

  function RowOf(usage: map<string, Usage>, user: string): Usage {
    if user in usage then usage[user] else NO_USAGE
  }

  function Charged(row: Usage, key: Key, n: nat): Usage {
    if IsSafeUserId(key.0) then Bumped(row, key.1, n) else row
  }

  /** Creates the user's row if needed, even for an id that then fails the format check. */
  function AddUsage(usage: map<string, Usage>, key: Key, n: nat): map<string, Usage> {
    if n == 0 then usage else usage[key.0 := Charged(RowOf(usage, key.0), key, n)]
  }

  function FactOf(fact: string): string {
    fact
  }

  function SlotOf(a: Activity): Key {
    (a.fact, a.source)
  }

  function Activities(facts: seq<string>, source: string, timestamp: nat): (items: seq<Activity>)
    ensures |items| == |facts|
  {
    seq(|facts|, i requires 0 <= i < |facts| => Activity(facts[i], source, timestamp))
  }

  function NoteActivities(x: Extractor, note: Note): seq<Activity> {
    Activities(x.activity(note.text), note.source, note.timestamp)
  }

  function ProfileOf(profiles: map<string, Profile>, user: string): Profile {
    if user in profiles then profiles[user] else NO_PROFILE
  }

  function Updated(x: Extractor, p: Profile, note: Note): Profile {
    Profile(
      InsertedAll(p.stableFacts, FactOf, x.stable(note.text), MAX_STABLE_FACTS),
      InsertedAll(p.recentActivity, SlotOf, Activities(x.activity(note.text), note.source, note.timestamp),
          MAX_ACTIVITY_FACTS),
      if note.timestamp >= p.lastUpdated then note.timestamp else p.lastUpdated)
  }

  function AddNote(x: Extractor, profiles: map<string, Profile>, note: Note): map<string, Profile> {
    if x.stable(note.text) == [] && x.activity(note.text) == [] then profiles
    else profiles[note.user := Updated(x, ProfileOf(profiles, note.user), note)]
  }

  datatype State = State(usage: map<string, Usage>, profiles: map<string, Profile>)

  function Apply(x: Extractor, s: State, op: Op): State {
    match op
    case Used(key) => s.(usage := AddUsage(s.usage, key, 1))
    case Noted(note) => s.(profiles := AddNote(x, s.profiles, note))
  }

  /** Every operation applied at once, in order. */
  function Immediate(x: Extractor, s: State, ops: seq<Op>): State {
    if ops == [] then s else Apply(x, Immediate(x, s, ops[..|ops| - 1]), ops[|ops| - 1])
  }

  // ----- What the buffer holds -----

  function Coalesced(ops: seq<Op>): map<Key, nat> {
    if ops == [] then map[]
    else
      var before := Coalesced(ops[..|ops| - 1]);
      match ops[|ops| - 1]
      case Used(key) => before[key := Count(before, key) + 1]
      case Noted(_) => before
  }

  function Count(pending: map<Key, nat>, key: Key): nat {
    if key in pending then pending[key] else 0
  }

  function Notes(ops: seq<Op>): seq<Note> {
    if ops == [] then []
    else Notes(ops[..|ops| - 1]) + if ops[|ops| - 1].Noted? then [ops[|ops| - 1].note] else []
  }

  /** The pending keys in some order: the hash map's own is unspecified. */
  ghost predicate Lists(keys: seq<Key>, pending: map<Key, nat>) {
    && (forall i, j :: 0 <= i < j < |keys| ==> keys[i] != keys[j])
    && (forall k :: k in keys <==> k in pending)
  }

  /** The usage after flushing the counts of `keys`, in that order. */
  function AddCounts(usage: map<string, Usage>, keys: seq<Key>, pending: map<Key, nat>): map<string, Usage> {
    if keys == [] then usage
    else
      var key := keys[|keys| - 1];
      AddUsage(AddCounts(usage, keys[..|keys| - 1], pending), key, Count(pending, key))
  }

  function AddNotes(x: Extractor, profiles: map<string, Profile>, notes: seq<Note>): map<string, Profile> {
    if notes == [] then profiles
    else AddNote(x, AddNotes(x, profiles, notes[..|notes| - 1]), notes[|notes| - 1])
  }

  // ----- Coalescing loses nothing -----

  lemma CountsMerge(usage: map<string, Usage>, key: Key, a: nat, b: nat)
    ensures AddUsage(AddUsage(usage, key, a), key, b) == AddUsage(usage, key, a + b)
  {}

  lemma CountsCommute(usage: map<string, Usage>, k: Key, a: nat, l: Key, b: nat)
    ensures AddUsage(AddUsage(usage, k, a), l, b) == AddUsage(AddUsage(usage, l, b), k, a)
  {
    if a != 0 && b != 0 {
      if k.0 == l.0 {
        ChargesCommute(RowOf(usage, k.0), k, a, l, b);
      } else {
        assert AddUsage(AddUsage(usage, k, a), l, b) ==
                 usage[k.0 := Charged(RowOf(usage, k.0), k, a)][l.0 := Charged(RowOf(usage, l.0), l, b)];
      }
    }
  }

  lemma ChargesCommute(row: Usage, k: Key, a: nat, l: Key, b: nat)
    requires k.0 == l.0
    ensures Charged(Charged(row, k, a), l, b) == Charged(Charged(row, l, b), k, a)
  {}

  lemma {:induction false} AnyKeyLast(usage: map<string, Usage>, keys: seq<Key>, pending: map<Key, nat>, i: nat)
    requires i < |keys|
    ensures AddCounts(usage, keys, pending) ==
              AddUsage(AddCounts(usage, keys[..i] + keys[i + 1..], pending), keys[i], Count(pending, keys[i]))
  {
    var n := |keys| - 1;
    var rest := keys[..i] + keys[i + 1..];
    if i == n {
      assert rest == keys[..n];
    } else {
      AnyKeyLast(usage, keys[..n], pending, i);
      var inner := keys[..n][..i] + keys[..n][i + 1..];
      assert rest[..|rest| - 1] == inner && rest[|rest| - 1] == keys[n] && keys[..n][i] == keys[i];
      CountsCommute(AddCounts(usage, inner, pending), keys[i], Count(pending, keys[i]),
        keys[n], Count(pending, keys[n]));
    }
  }

  lemma {:induction false} AgreeingCounts(usage: map<string, Usage>, keys: seq<Key>, p: map<Key, nat>, q: map<Key, nat>)
    requires forall k :: k in keys ==> Count(p, k) == Count(q, k)
    ensures AddCounts(usage, keys, p) == AddCounts(usage, keys, q)
  {
    if keys != [] {
      AgreeingCounts(usage, keys[..|keys| - 1], p, q);
    }
  }

  lemma Dropped(keys: seq<Key>, i: nat)
    requires i < |keys| && forall a, b :: 0 <= a < b < |keys| ==> keys[a] != keys[b]
    ensures var rest := keys[..i] + keys[i + 1..];
            && (forall a, b :: 0 <= a < b < |rest| ==> rest[a] != rest[b])
            && forall k :: k in rest <==> k in keys && k != keys[i]
  {}

  /** Flushing the coalesced counts, in any order, does what the operations would have done one at a time. */
  lemma {:induction false} CoalescedFlushIsImmediate(x: Extractor, s: State, ops: seq<Op>, keys: seq<Key>)
    requires Lists(keys, Coalesced(ops))
    ensures AddCounts(s.usage, keys, Coalesced(ops)) == Immediate(x, s, ops).usage
    decreases |ops|, 0
  {
    assert keys != [] ==> keys[0] in Coalesced(ops);
    if ops != [] {
      var front, op := ops[..|ops| - 1], ops[|ops| - 1];
      if op.Noted? {
        CoalescedFlushIsImmediate(x, s, front, keys);
      } else {
        FlushWithOneMore(x, s, front, op.key, keys);
      }
    }
  }

  lemma {:induction false} FlushWithOneMore(x: Extractor, s: State, front: seq<Op>, key: Key, keys: seq<Key>)
    requires Lists(keys, Coalesced(front)[key := Count(Coalesced(front), key) + 1])
    ensures AddCounts(s.usage, keys, Coalesced(front)[key := Count(Coalesced(front), key) + 1]) ==
              AddUsage(Immediate(x, s, front).usage, key, 1)
    decreases |front|, 2
  {
    assert key in keys;
    var i: nat :| i < |keys| && keys[i] == key;
    AnyKeyLast(s.usage, keys, Coalesced(front)[key := Count(Coalesced(front), key) + 1], i);
    Dropped(keys, i);
    OneMore(x, s, front, keys[..i] + keys[i + 1..], key);
  }

  lemma {:induction false} OneMore(x: Extractor, s: State, front: seq<Op>, rest: seq<Key>, key: Key)
    requires forall i, j :: 0 <= i < j < |rest| ==> rest[i] != rest[j]
    requires forall k :: k in rest <==> k in Coalesced(front) && k != key
    ensures var before := Coalesced(front);
            AddUsage(AddCounts(s.usage, rest, before[key := Count(before, key) + 1]), key,
                Count(before, key) + 1) == AddUsage(Immediate(x, s, front).usage, key, 1)
    decreases |front|, 1
  {
    var before := Coalesced(front);
    AgreeingCounts(s.usage, rest, before[key := Count(before, key) + 1], before);
    if key in before {
      var all := rest + [key];
      CoalescedFlushIsImmediate(x, s, front, all);
      assert all[..|rest|] == rest;
      CountsMerge(AddCounts(s.usage, rest, before), key, before[key], 1);
    } else {
      CoalescedFlushIsImmediate(x, s, front, rest);
    }
  }

  /** Notes are kept apart from counts, in their order. */
  lemma {:induction false} NotesFlushIsImmediate(x: Extractor, s: State, ops: seq<Op>)
    ensures AddNotes(x, s.profiles, Notes(ops)) == Immediate(x, s, ops).profiles
  {
    if ops != [] {
      var front := ops[..|ops| - 1];
      NotesFlushIsImmediate(x, s, front);
      if ops[|ops| - 1].Noted? {
        assert Notes(ops)[..|Notes(ops)| - 1] == Notes(front);
      } else {
        assert Notes(ops) == Notes(front);
      }
    }
  }

  lemma {:induction false} ImmediateSplits(x: Extractor, s: State, a: seq<Op>, b: seq<Op>)
    ensures Immediate(x, s, a + b) == Immediate(x, Immediate(x, s, a), b)
  {
    if b == [] {
      assert a + b == a;
    } else {
      ImmediateSplits(x, s, a, b[..|b| - 1]);
      assert (a + b)[..|a + b| - 1] == a + b[..|b| - 1];
    }
  }

  // ----- The store -----

  class PlatformStore {
    const extractor: Extractor
    var usage: map<string, Usage>
    var profiles: map<string, Profile>

    constructor (x: Extractor)
      ensures extractor == x && usage == map[] && profiles == map[]
    {
      extractor, usage, profiles := x, map[], map[];
    }

    function Contents(): State
      reads this
    {
      State(usage, profiles)
    }

    /** `ok` is false when the id fails its check, after the row was made. */
    method RecordUsageN(key: Key, count: nat) returns (ok: bool)
      modifies `usage
      ensures usage == AddUsage(old(usage), key, count)
      ensures ok <==> count == 0 || IsSafeUserId(key.0)
    {
      if count == 0 {
        return true;
      }
      if key.0 !in usage {
        usage := usage[key.0 := NO_USAGE];
      }
      if !IsSafeUserId(key.0) {
        return false;
      }
      usage := usage[key.0 := Bumped(usage[key.0], key.1, count)];
      return true;
    }

    method UpdateProfileFromText(note: Note)
      modifies `profiles
      ensures profiles == AddNote(extractor, old(profiles), note)
    {
      var stable, activity := extractor.stable(note.text), extractor.activity(note.text);
      if stable == [] && activity == [] {
        return;
      }
      var profile := ProfileOf(profiles, note.user);
      var facts := PushFacts(profile.stableFacts, FactOf, stable, MAX_STABLE_FACTS);
      var recent := PushFacts(profile.recentActivity, SlotOf, Activities(activity, note.source, note.timestamp),
          MAX_ACTIVITY_FACTS);
      var last := if note.timestamp >= profile.lastUpdated then note.timestamp else profile.lastUpdated;
      profiles := profiles[note.user := Profile(facts, recent, last)];
    }
  }

  method PushFacts<T, K(==)>(before: seq<T>, key: T -> K, facts: seq<T>, maxLen: nat) returns (items: seq<T>)
    ensures items == InsertedAll(before, key, facts, maxLen)
  {
    items := before;
    var i := 0;
    while i < |facts|
      invariant 0 <= i <= |facts| && items == InsertedAll(before, key, facts[..i], maxLen)
    {
      assert facts[..i + 1][..i] == facts[..i];
      items := InsertUniqueFront(items, key, facts[i], maxLen);
      i := i + 1;
    }
    assert facts[..i] == facts;
  }

  // ----- The writer -----

  datatype Event = Received(op: Op) | Ticked

  function Ops(events: seq<Event>): seq<Op> {
    if events == [] then []
    else Ops(events[..|events| - 1]) + if events[|events| - 1].Received? then [events[|events| - 1].op] else []
  }

  class Writer {
    const store: PlatformStore
    var pendingUsage: map<Key, nat>
    var pendingNotes: seq<Note>
    /** What the store held at the start, the operations flushed to it and those received since. */
    ghost const origin: State
    ghost var flushed: seq<Op>
    ghost var since: seq<Op>

    ghost predicate Valid()
      reads this, store
    {
      && pendingUsage == Coalesced(since) && pendingNotes == Notes(since)
      && store.Contents() == Immediate(store.extractor, origin, flushed)
      && |pendingUsage| + |pendingNotes| < FLUSH_THRESHOLD
    }

    ghost function Accepted(): seq<Op>
      reads this
    {
      flushed + since
    }

    constructor (s: PlatformStore)
      ensures Valid() && store == s && origin == s.Contents() && Accepted() == []
    {
      store, pendingUsage, pendingNotes := s, map[], [];
      origin, flushed, since := s.Contents(), [], [];
    }

    /** Takes the whole buffer and writes it: counts in the order the hash map yields them, then notes as they came. */
    method Flush()
      requires pendingUsage == Coalesced(since) && pendingNotes == Notes(since)
      requires store.Contents() == Immediate(store.extractor, origin, flushed)
      modifies this, store
      ensures Valid() && since == [] && Accepted() == old(Accepted())
    {
      var usage, notes := pendingUsage, pendingNotes;
      pendingUsage, pendingNotes := map[], [];
      FlushUsage(usage);
      FlushNotes(notes);
      CoalescedEverything(store.extractor, origin, flushed, since);
      flushed, since := flushed + since, [];
    }

    method FlushUsage(pending: map<Key, nat>)
      requires pending == Coalesced(since)
      modifies store`usage
      ensures store.usage == Immediate(store.extractor, old(store.Contents()), since).usage
    {
      var left := pending.Keys;
      ghost var keys: seq<Key> := [];
      while left != {}
        invariant left <= pending.Keys
        invariant forall i, j :: 0 <= i < j < |keys| ==> keys[i] != keys[j]
        invariant forall k :: k in keys <==> k in pending.Keys - left
        invariant store.usage == AddCounts(old(store.usage), keys, pending)
        decreases left
      {
        var key :| key in left;
        var ok := store.RecordUsageN(key, pending[key]);
        assert (keys + [key])[..|keys|] == keys;
        assert key !in keys && forall i :: 0 <= i < |keys| ==> keys[i] in keys;
        keys := keys + [key];
        left := left - {key};
      }
      CoalescedFlushIsImmediate(store.extractor, old(store.Contents()), since, keys);
    }

    method FlushNotes(notes: seq<Note>)
      modifies store`profiles
      ensures store.profiles == AddNotes(store.extractor, old(store.profiles), notes)
    {
      var i := 0;
      while i < |notes|
        invariant 0 <= i <= |notes| && store.profiles == AddNotes(store.extractor, old(store.profiles), notes[..i])
      {
        assert notes[..i + 1][..i] == notes[..i];
        store.UpdateProfileFromText(notes[i]);
        i := i + 1;
      }
      assert notes[..i] == notes;
    }

    method Receive(op: Op)
      requires Valid()
      modifies this, store
      ensures Valid() && Accepted() == old(Accepted()) + [op]
    {
      assert (since + [op])[..|since|] == since;
      match op {
        case Used(key) => pendingUsage := pendingUsage[key := Count(pendingUsage, key) + 1];
        case Noted(note) => pendingNotes := pendingNotes + [note];
      }
      since := since + [op];
      assert Accepted() == old(Accepted()) + [op];
      if |pendingUsage| + |pendingNotes| >= FLUSH_THRESHOLD {
        Flush();
      }
    }

    /** The ticker, and the flush that ends the loop when the channel closes. */
    method Tick()
      requires Valid()
      modifies this, store
      ensures Valid() && Accepted() == old(Accepted())
      ensures store.Contents() == Immediate(store.extractor, origin, Accepted())
    {
      if pendingUsage != map[] || pendingNotes != [] {
        Flush();
      } else {
        SomethingPending(since);
      }
      assert flushed + [] == flushed;
    }

    /** The whole loop: any interleaving of operations and ticks, then the close. The store ends as if every operation
        had been applied at once, in order. */
    method Serve(events: seq<Event>)
      requires Valid() && Accepted() == []
      modifies this, store
      ensures Valid() && store.Contents() == Immediate(store.extractor, origin, Ops(events))
    {
      var i := 0;
      while i < |events|
        invariant 0 <= i <= |events| && Valid() && Accepted() == Ops(events[..i])
      {
        assert events[..i + 1][..i] == events[..i];
        match events[i] {
          case Received(op) => Receive(op);
          case Ticked => Tick();
        }
        i := i + 1;
      }
      assert events[..i] == events;
      Tick();
    }

    /** At every step what is stored and what is pending make up what was received: flushing the counts in any order
        and the notes in theirs would reach the immediate state. */
    lemma StoredAndPendingMakeReceived(keys: seq<Key>)
      requires Valid() && Lists(keys, pendingUsage)
      ensures var immediate := Immediate(store.extractor, origin, Accepted());
              && AddCounts(store.usage, keys, pendingUsage) == immediate.usage
              && AddNotes(store.extractor, store.profiles, pendingNotes) == immediate.profiles
    {
      CoalescedFlushIsImmediate(store.extractor, store.Contents(), since, keys);
      NotesFlushIsImmediate(store.extractor, store.Contents(), since);
      ImmediateSplits(store.extractor, origin, flushed, since);
    }
  }

  lemma CoalescedEverything(x: Extractor, origin: State, flushed: seq<Op>, since: seq<Op>)
    ensures var s := Immediate(x, origin, flushed);
            State(Immediate(x, s, since).usage, AddNotes(x, s.profiles, Notes(since))) == Immediate(x, origin,
                flushed + since)
  {
    NotesFlushIsImmediate(x, Immediate(x, origin, flushed), since);
    ImmediateSplits(x, origin, flushed, since);
  }

  lemma SomethingPending(ops: seq<Op>)
    ensures ops == [] || Coalesced(ops) != map[] || Notes(ops) != []
  {
    assert ops != [] && ops[|ops| - 1].Used? ==> ops[|ops| - 1].key in Coalesced(ops);
  }

  // ----- Profiles as recency lists -----

  /** The stable facts a user's notes yielded, in order. */
  function FactHistory(x: Extractor, ops: seq<Op>, user: string): seq<string> {
    if ops == [] then []
    else
      var op := ops[|ops| - 1];
      FactHistory(x, ops[..|ops| - 1], user) + if op.Noted? && op.note.user == user then x.stable(op.note.text) else []
  }

  function ActivityHistory(x: Extractor, ops: seq<Op>, user: string): seq<Activity> {
    if ops == [] then []
    else
      var op := ops[|ops| - 1];
      var added := if op.Noted? && op.note.user == user then NoteActivities(x, op.note) else [];
      ActivityHistory(x, ops[..|ops| - 1], user) + added
  }

  lemma {:induction false} InsertedSplits<T, K>(items: seq<T>, key: T -> K, a: seq<T>, b: seq<T>, maxLen: nat)
    ensures InsertedAll(items, key, a + b, maxLen) == InsertedAll(InsertedAll(items, key, a, maxLen), key, b, maxLen)
  {
    if b == [] {
      assert a + b == a;
    } else {
      InsertedSplits(items, key, a, b[..|b| - 1], maxLen);
      assert (a + b)[..|a + b| - 1] == a + b[..|b| - 1];
    }
  }

  lemma {:induction false} ProfileFollowsHistory(x: Extractor, usage: map<string, Usage>, ops: seq<Op>, user: string)
    ensures var p := ProfileOf(Immediate(x, State(usage, map[]), ops).profiles, user);
            && p.stableFacts == InsertedAll([], FactOf, FactHistory(x, ops, user), MAX_STABLE_FACTS)
            && p.recentActivity == InsertedAll([], SlotOf, ActivityHistory(x, ops, user), MAX_ACTIVITY_FACTS)
  {
    if ops != [] {
      var front, op := ops[..|ops| - 1], ops[|ops| - 1];
      ProfileFollowsHistory(x, usage, front, user);
      if op.Noted? && op.note.user == user {
        InsertedSplits([], FactOf, FactHistory(x, front, user), x.stable(op.note.text), MAX_STABLE_FACTS);
        InsertedSplits([], SlotOf, ActivityHistory(x, front, user),
            NoteActivities(x, op.note), MAX_ACTIVITY_FACTS);
      } else {
        assert FactHistory(x, ops, user) == FactHistory(x, front, user);
        assert ActivityHistory(x, ops, user) == ActivityHistory(x, front, user);
      }
    }
  }

  /** A profile holds the 64 most recent distinct facts and the 120 most recent distinct activities of everything the
      user's notes yielded, newest first, however the writes were buffered. */
  lemma ProfileIsMostRecent(x: Extractor, usage: map<string, Usage>, ops: seq<Op>, user: string)
    ensures var p := ProfileOf(Immediate(x, State(usage, map[]), ops).profiles, user);
            && p.stableFacts == Truncated(Recency(FactHistory(x, ops, user), FactOf), 64)
            && p.recentActivity == Truncated(Recency(ActivityHistory(x, ops, user), SlotOf), 120)
  {
    ProfileFollowsHistory(x, usage, ops, user);
    BoundedListIsRecency(FactOf, FactHistory(x, ops, user), MAX_STABLE_FACTS);
    BoundedListIsRecency(SlotOf, ActivityHistory(x, ops, user), MAX_ACTIVITY_FACTS);
  }

  /** No fact is listed twice, and while there is room nothing the notes yielded is missing. */
  lemma FactsAreComplete(x: Extractor, usage: map<string, Usage>, ops: seq<Op>, user: string)
    ensures var facts := ProfileOf(Immediate(x, State(usage, map[]), ops).profiles, user).stableFacts;
            && (forall i, j :: 0 <= i < j < |facts| ==> facts[i] != facts[j])
            && (|facts| < 64 ==> forall f :: f in facts <==> f in FactHistory(x, ops, user))
  {
    hide InsertedAll;
    ProfileFollowsHistory(x, usage, ops, user);
    KeptIfRoom(FactHistory(x, ops, user), FactOf, MAX_STABLE_FACTS);
    var facts := ProfileOf(Immediate(x, State(usage, map[]), ops).profiles, user).stableFacts;
    forall i, j | 0 <= i < j < |facts| ensures facts[i] != facts[j] {
      assert FactOf(facts[i]) != FactOf(facts[j]);
    }
  }

  /** No activity is listed twice with the same source, and while there is room none that the notes yielded is
      missing. */
  lemma ActivitiesAreComplete(x: Extractor, usage: map<string, Usage>, ops: seq<Op>, user: string)
    ensures var recent := ProfileOf(Immediate(x, State(usage, map[]), ops).profiles, user).recentActivity;
            && (forall i, j :: 0 <= i < j < |recent| ==>
                  recent[i].fact != recent[j].fact || recent[i].source != recent[j].source)
            && (forall a :: a in recent ==> a in ActivityHistory(x, ops, user))
            && (|recent| < 120 ==> forall a :: a in ActivityHistory(x, ops, user) ==>
                  exists b :: b in recent && b.fact == a.fact && b.source == a.source)
  {
    hide InsertedAll, Immediate, ActivityHistory, SlotOf;
    ProfileFollowsHistory(x, usage, ops, user);
    SlotsAreComplete(ActivityHistory(x, ops, user));
  }

  lemma SlotsAreComplete(history: seq<Activity>)
    ensures var recent := InsertedAll([], SlotOf, history, MAX_ACTIVITY_FACTS);
            && (forall i, j :: 0 <= i < j < |recent| ==>
                  recent[i].fact != recent[j].fact || recent[i].source != recent[j].source)
            && (forall a :: a in recent ==> a in history)
            && (|recent| < 120 ==> forall a :: a in history ==>
                  exists b :: b in recent && b.fact == a.fact && b.source == a.source)
  {
    hide InsertedAll;
    KeptIfRoom(history, SlotOf, MAX_ACTIVITY_FACTS);
    var recent := InsertedAll([], SlotOf, history, MAX_ACTIVITY_FACTS);
    forall i, j | 0 <= i < j < |recent|
      ensures recent[i].fact != recent[j].fact || recent[i].source != recent[j].source
    {
      assert SlotOf(recent[i]) != SlotOf(recent[j]);
    }
  }

  lemma KeptIfRoom<T, K>(history: seq<T>, key: T -> K, maxLen: nat)
    ensures var items := InsertedAll([], key, history, maxLen);
            && DistinctKeys(items, key) && (forall a :: a in items ==> a in history)
            && (|items| < maxLen ==> forall a :: a in history ==> exists b :: b in items && key(b) == key(a))
  {
    BoundedListIsRecency(key, history, maxLen);
    var items, all := InsertedAll([], key, history, maxLen), Recency(history, key);
    forall a | a in items ensures a in history {
      assert a in all;
    }
    if |items| < maxLen {
      forall a | a in history ensures exists b :: b in items && key(b) == key(a) {
        assert key(a) in KeysOf(all, key);
      }
    }
  }

  /** The activities of a user are those of the user's notes, with the note's source and time. */
  lemma {:induction false} ActivitiesAreNoted(x: Extractor, ops: seq<Op>, user: string, a: Activity)
    ensures a in ActivityHistory(x, ops, user) <==>
              exists op :: op in ops && op.Noted? && op.note.user == user && a.fact in x.activity(op.note.text) &&
                a.source == op.note.source && a.timestamp == op.note.timestamp
  {
    if ops != [] {
      var front, op := ops[..|ops| - 1], ops[|ops| - 1];
      ActivitiesAreNoted(x, front, user, a);
      assert ops == front + [op];
      if op.Noted? { ActivitiesOfNote(x, op.note, a); }
    }
  }

  lemma ActivitiesOfNote(x: Extractor, note: Note, a: Activity)
    ensures a in NoteActivities(x, note) <==>
              a.fact in x.activity(note.text) && a.source == note.source && a.timestamp == note.timestamp
  {
    var facts := x.activity(note.text);
    if a.fact in facts && a.source == note.source && a.timestamp == note.timestamp {
      var i :| 0 <= i < |facts| && facts[i] == a.fact;
      assert NoteActivities(x, note)[i] == a;
    }
  }

  /** A note of the user that yields something. */
  predicate Yields(x: Extractor, op: Op, user: string) {
    op.Noted? && op.note.user == user && (x.stable(op.note.text) != [] || x.activity(op.note.text) != [])
  }

  /** Exactly the users whose notes yield something have a profile, as recent as the newest such note. */
  lemma {:induction false} ProfileIsAsRecent(x: Extractor, usage: map<string, Usage>, ops: seq<Op>, user: string)
    ensures var profiles := Immediate(x, State(usage, map[]), ops).profiles;
            var last := ProfileOf(profiles, user).lastUpdated;
            && (user in profiles <==> exists op :: op in ops && Yields(x, op, user))
            && (forall op :: op in ops && Yields(x, op, user) ==> op.note.timestamp <= last)
            && (user in profiles ==> exists op :: op in ops && Yields(x, op, user) && op.note.timestamp == last)
  {
    if ops != [] {
      var front, op := ops[..|ops| - 1], ops[|ops| - 1];
      ProfileIsAsRecent(x, usage, front, user);
      var before, after := Immediate(x, State(usage, map[]), front).profiles, Immediate(x, State(usage, map[]),
          ops).profiles;
      assert ops == front + [op];
      if Yields(x, op, user) {
        assert ProfileOf(after, user).lastUpdated ==
                 if op.note.timestamp >= ProfileOf(before, user).lastUpdated then op.note.timestamp
                 else ProfileOf(before, user).lastUpdated;
      } else {
        assert user in after <==> user in before;
        assert ProfileOf(after, user) == ProfileOf(before, user);
      }
    }
  }

  // ----- Counters -----

  /** How often the user called, and how often at one endpoint. */
  function Calls(ops: seq<Op>, user: string): nat {
    if ops == [] then 0
    else Calls(ops[..|ops| - 1], user) + if ops[|ops| - 1].Used? && ops[|ops| - 1].key.0 == user then 1 else 0
  }

  function CallsAt(ops: seq<Op>, key: Key): nat {
    if ops == [] then 0 else CallsAt(ops[..|ops| - 1], key) + if ops[|ops| - 1] == Used(key) then 1 else 0
  }

  /** Every counter of a user with a well-formed id grows by the calls at its endpoint, the requests by all calls; those
      of other ids stay. A row is there once an id has called. */
  lemma {:induction false} UsageIsCounted(x: Extractor, s: State, ops: seq<Op>, user: string)
    ensures var before, after := RowOf(s.usage, user), RowOf(Immediate(x, s, ops).usage, user);
            if !IsSafeUserId(user) then after == before else
            && after.requests == before.requests + Calls(ops, user)
            && after.ingest == before.ingest + CallsAt(ops, (user, "ingest"))
            && after.query == before.query + CallsAt(ops, (user, "query"))
            && after.temporalQuery == before.temporalQuery + CallsAt(ops, (user, "temporal_query"))
            && after.reset == before.reset + CallsAt(ops, (user, "reset"))
            && after.health == before.health + CallsAt(ops, (user, "health"))
            && after.version == before.version + CallsAt(ops, (user, "version"))
    ensures user in Immediate(x, s, ops).usage <==> user in s.usage || Calls(ops, user) > 0
  {
    hide AddUsage, RowOf, IsSafeUserId;
    if ops != [] {
      var front, op := ops[..|ops| - 1], ops[|ops| - 1];
      UsageIsCounted(x, s, front, user);
      RowAfter(x, Immediate(x, s, front), op, user);
    }
  }

  lemma RowAfter(x: Extractor, s: State, op: Op, user: string)
    ensures var calls := op.Used? && op.key.0 == user;
            && RowOf(Apply(x, s, op).usage, user) ==
                 (if calls then Charged(RowOf(s.usage, user), op.key, 1) else RowOf(s.usage, user))
            && (user in Apply(x, s, op).usage <==> user in s.usage || calls)
  {}

  /** A well-formed id is `usr_` and 4 to 124 letters, digits and underscores. */
  lemma SafeIdIff(id: string)
    ensures IsSafeUserId(id) <==>
              exists rest :: id == "usr_" + rest && 4 <= |rest| <= 124 && forall c :: c in rest ==> IsWordChar(c)
  {
    if IsSafeUserId(id) {
      var rest := id[4..];
      assert id == "usr_" + rest;
      assert forall c :: c in rest ==> c in id;
    }
    if rest :| id == "usr_" + rest && 4 <= |rest| <= 124 && forall c :: c in rest ==> IsWordChar(c) {
      assert forall i :: 4 <= i < |id| ==> id[i] == rest[i - 4];
    }
  }
}
