/** The lock protocol of the vector index, as interleaved steps of any number of threads.
    Readers load a segment under its slot's lock; writers change the source first and the slot afterwards. */
module SlotProtocol {
  import opened Collections
  import opened Kernels
  import opened VectorIndexes
  import opened Wrappers

  type Source = map<Entity, map<nat, Vector>>

  datatype Segment = Segment(flat: bool, rows: map<nat, Vector>)

  /** One slot: its segment and the parking_lot lock around it. */
  datatype Cell = Cell(segment: Option<Segment>, writer: Option<nat>, upgrader: Option<nat>, readers: set<nat>)

  datatype Op = Insert(entity: Entity, items: seq<Item>) | Remove(entity: Entity, id: nat)

  /** Where a thread is inside `with_segment`, `insert_batch`, `remove` or `clear`. */
  datatype Pc =
    | WantSlot(entity: Entity)
    | HasSlot(entity: Entity, cell: nat)
    | Peeking(entity: Entity, cell: nat)
    | Loading(entity: Entity, cell: nat)
    | Fetched(entity: Entity, cell: nat, rows: map<nat, Vector>)
    | ReadingUpgradable(entity: Entity, cell: nat)
    | ReadingShared(entity: Entity, cell: nat)
    | Stored(op: Op)
    | StoredWithSlot(op: Op, cell: nat)
    | Cleared(target: Option<Entity>)

  datatype State = State(
    source: Source,
    slots: map<Entity, nat>,
    cells: map<nat, Cell>,
    threads: map<nat, Pc>)

  datatype Event =
    | BeginRead(t: nat, entity: Entity)
    | GetSlot(t: nat, newCell: nat)
    | LockUpgradable(t: nat)
    | Upgrade(t: nat)
    | FetchRows(t: nat)
    | StoreSegment(t: nat)
    | LoadFails(t: nat)
    | Release(t: nat)
    | BeginOp(t: nat, op: Op)
    | GetOpSlot(t: nat, newCell: nat)
    | ApplyOp(t: nat)
    | BeginClear(t: nat, target: Option<Entity>)
    | DropSlots(t: nat)

  function RowsOf(source: Source, e: Entity): map<nat, Vector> {
    if e in source then source[e] else map[]
  }

  function Applied(op: Op, rows: map<nat, Vector>): map<nat, Vector> {
    match op
    case Insert(_, items) => InsertAll(rows, items)
    case Remove(_, id) => rows - {id}
  }

  function OpIds(op: Op): set<nat> {
    match op
    case Insert(_, items) => ItemIds(items)
    case Remove(_, id) => {id}
  }

  /** `record_insert` / `record_remove`: an inserted id is taken away from every other entity. */
  function SourceAfter(op: Op, source: Source): Source {
    match op
    case Insert(e, items) =>
      (map f | f in source :: source[f] - ItemIds(items))[e := InsertAll(RowsOf(source, e), items)]
    case Remove(e, id) => if e in source then source[e := source[e] - {id}] else source
  }

  predicate Covers(target: Option<Entity>, e: Entity) {
    target == None || target == Some(e)
  }

  function SourceCleared(target: Option<Entity>, source: Source): Source {
    match target
    case None => map[]
    case Some(e) => source - {e}
  }

  /** The slot's new segment; crossing the threshold drops a flat one. */
  function SegmentAfter(op: Op, segment: Option<Segment>, threshold: nat): (after: Option<Segment>)
    ensures after.Some? ==> segment.Some? && after.value.flat == segment.value.flat
    ensures after.Some? ==> after.value.rows == Applied(op, segment.value.rows)
    ensures segment.Some? ==>
              (after == None <==> segment.value.flat && op.Insert? && |Applied(op, segment.value.rows)| > threshold)
  {
    match segment
    case None => None
    case Some(seg) =>
      var rows := Applied(op, seg.rows);
      if seg.flat && op.Insert? && |rows| > threshold then None else Some(Segment(seg.flat, rows))
  }

  const EMPTY_CELL := Cell(None, None, None, {})

  predicate SlotStep(s: State, e: Entity, newCell: nat, cell: nat, slots: map<Entity, nat>, cells: map<nat, Cell>) {
    if e in s.slots then cell == s.slots[e] && slots == s.slots && cells == s.cells
    else
      && newCell !in s.cells && cell == newCell
      && slots == s.slots[e := newCell] && cells == s.cells[newCell := EMPTY_CELL]
  }

  predicate CanWrite(cell: Cell) {
    cell.writer == None && cell.upgrader == None && cell.readers == {}
  }

  predicate Step(s: State, ev: Event, s': State, threshold: nat) {
    match ev
    case BeginRead(t, e) =>
      t !in s.threads && s' == s.(threads := s.threads[t := WantSlot(e)])
    case GetSlot(t, newCell) =>
      && t in s.threads && s.threads[t].WantSlot?
      && var e := s.threads[t].entity;
      && e in s'.slots && SlotStep(s, e, newCell, s'.slots[e], s'.slots, s'.cells)
      && s'.source == s.source && s'.threads == s.threads[t := HasSlot(e, s'.slots[e])]
    case LockUpgradable(t) =>
      && t in s.threads && s.threads[t].HasSlot? && s.threads[t].cell in s.cells
      && var c := s.threads[t].cell; var e := s.threads[t].entity; var cell := s.cells[c];
      && cell.writer == None && cell.upgrader == None
      && s' == s.(cells := s.cells[c := cell.(upgrader := Some(t))],
                  threads := s.threads[t := if cell.segment.Some? then ReadingUpgradable(e, c) else Peeking(e, c)])
    case Upgrade(t) =>
      && t in s.threads && s.threads[t].Peeking? && s.threads[t].cell in s.cells
      && var c := s.threads[t].cell; var cell := s.cells[c];
      && cell.upgrader == Some(t) && cell.readers == {}
      && s' == s.(cells := s.cells[c := cell.(upgrader := None, writer := Some(t))],
                  threads := s.threads[t := Loading(s.threads[t].entity, c)])
    case FetchRows(t) =>
      && t in s.threads && s.threads[t].Loading?
      && var e := s.threads[t].entity;
      && s' == s.(threads := s.threads[t := Fetched(e, s.threads[t].cell, RowsOf(s.source, e))])
    case StoreSegment(t) =>
      && t in s.threads && s.threads[t].Fetched? && s.threads[t].cell in s.cells
      && var c := s.threads[t].cell; var rows := s.threads[t].rows; var cell := s.cells[c];
      && var loaded := Some(Segment(|rows| <= threshold, rows));
      && s' == s.(cells := s.cells[c := cell.(segment := loaded, writer := None, readers := cell.readers + {t})],
                  threads := s.threads[t := ReadingShared(s.threads[t].entity, c)])
    case LoadFails(t) =>
      && t in s.threads && (s.threads[t].Loading? || s.threads[t].Fetched?) && s.threads[t].cell in s.cells
      && var c := s.threads[t].cell;
      && s' == s.(cells := s.cells[c := s.cells[c].(writer := None)], threads := s.threads - {t})
    case Release(t) =>
      && t in s.threads && (s.threads[t].ReadingShared? || s.threads[t].ReadingUpgradable?)
      && s.threads[t].cell in s.cells
      && var c := s.threads[t].cell; var cell := s.cells[c]; var shared := s.threads[t].ReadingShared?;
      && var released := if shared then cell.(readers := cell.readers - {t}) else cell.(upgrader := None);
      && s' == s.(cells := s.cells[c := released],
                  threads := s.threads - {t})
    case BeginOp(t, op) =>
      && t !in s.threads && OpIds(op) != {}
      && s' == s.(source := SourceAfter(op, s.source), threads := s.threads[t := Stored(op)])
    case GetOpSlot(t, newCell) =>
      && t in s.threads && s.threads[t].Stored?
      && var op := s.threads[t].op;
      && op.entity in s'.slots && SlotStep(s, op.entity, newCell, s'.slots[op.entity], s'.slots, s'.cells)
      && s'.source == s.source && s'.threads == s.threads[t := StoredWithSlot(op, s'.slots[op.entity])]
    case ApplyOp(t) =>
      && t in s.threads && s.threads[t].StoredWithSlot? && s.threads[t].cell in s.cells
      && var c := s.threads[t].cell; var cell := s.cells[c];
      && CanWrite(cell)
      && var applied := cell.(segment := SegmentAfter(s.threads[t].op, cell.segment, threshold));
      && s' == s.(cells := s.cells[c := applied], threads := s.threads - {t})
    case BeginClear(t, target) =>
      && t !in s.threads
      && s' == s.(source := SourceCleared(target, s.source), threads := s.threads[t := Cleared(target)])
    case DropSlots(t) =>
      && t in s.threads && s.threads[t].Cleared?
      && var kept := map e | e in s.slots && !Covers(s.threads[t].target, e) :: s.slots[e];
      && s' == s.(slots := kept, threads := s.threads - {t})
  }

  function SegmentIn(s: State, c: nat): Option<Segment> {
    if c in s.cells then s.cells[c].segment else None
  }

  /** Entities get slots by asking for one, keep them, and lose them only to a clear of theirs or of all. */
  lemma SlotsChange(s: State, ev: Event, s': State, threshold: nat, e: Entity)
    requires Step(s, ev, s', threshold)
    ensures e in s.slots && e in s'.slots ==> s'.slots[e] == s.slots[e]
    ensures e !in s.slots && e in s'.slots ==> ev.GetSlot? || ev.GetOpSlot?
    ensures ev.DropSlots? ==>
              var target := s.threads[ev.t].target;
              e in s'.slots <==> e in s.slots && target != None && target != Some(e)
    ensures e in s.slots && e !in s'.slots ==> ev.DropSlots?
  {}

  /** Segments appear only by loading, flat exactly when the rows that were read fit the threshold. */
  lemma SegmentAppears(s: State, ev: Event, s': State, threshold: nat, c: nat)
    requires Step(s, ev, s', threshold) && SegmentIn(s, c) == None && SegmentIn(s', c).Some?
    ensures ev.StoreSegment? && ev.t in s.threads && s.threads[ev.t].Fetched? && s.threads[ev.t].cell == c
    ensures SegmentIn(s', c).value.rows == s.threads[ev.t].rows
    ensures SegmentIn(s', c).value.flat <==> |s.threads[ev.t].rows| <= threshold
  {}

  /** Loaded segments change only by applying a mutation to their slot. */
  lemma SegmentChanges(s: State, ev: Event, s': State, threshold: nat, c: nat)
    requires Step(s, ev, s', threshold) && SegmentIn(s, c).Some? && SegmentIn(s', c) != SegmentIn(s, c)
    requires ev.StoreSegment? && ev.t in s.threads && s.threads[ev.t].Fetched? ==> s.threads[ev.t].cell != c
    ensures ev.ApplyOp? && ev.t in s.threads && s.threads[ev.t].StoredWithSlot? && s.threads[ev.t].cell == c
    ensures var op, before := s.threads[ev.t].op, SegmentIn(s, c).value;
            var rows := Applied(op, before.rows);
            SegmentIn(s', c) ==
              if before.flat && op.Insert? && |rows| > threshold then None else Some(Segment(before.flat, rows))
  {}

  // ----- What the callers must respect -----

  datatype Mutation = Change(op: Op) | Wipe(target: Option<Entity>)

  /** The write to the source that an event makes. */
  function Begins(ev: Event): Option<Mutation> {
    match ev
    case BeginOp(_, op) => Some(Change(op))
    case BeginClear(_, target) => Some(Wipe(target))
    case _ => None
  }

  /** The write a thread has made to the source but not yet to the slots. */
  function Pending(s: State, t: nat): Option<Mutation> {
    if t !in s.threads then None else
    match s.threads[t]
    case Stored(op) => Some(Change(op))
    case StoredWithSlot(op, _) => Some(Change(op))
    case Cleared(target) => Some(Wipe(target))
    case _ => None
  }

  /** The ids a mutation will write to an entity's slot. */
  predicate Writes(m: Mutation, e: Entity, id: nat) {
    match m
    case Change(op) => op.entity == e && id in OpIds(op)
    case Wipe(target) => Covers(target, e)
  }

  /** An insert also takes its ids from every other entity's source rows, but not from their slots. */
  predicate Strips(m: Mutation, e: Entity, id: nat) {
    m.Change? && m.op.Insert? && m.op.entity != e && id in OpIds(m.op)
  }

  function At(rows: map<nat, Vector>, id: nat): Option<Vector> {
    if id in rows then Some(rows[id]) else None
  }

  /** What a mutation leaves at an id it writes: the last vector given for it, or nothing. */
  function Outcome(m: Mutation, id: nat): Option<Vector> {
    if m.Change? && m.op.Insert? then At(InsertAll(map[], m.op.items), id) else None
  }

  /** What a mutation leaves in the source, where it touches it. */
  function Leaves(m: Mutation, e: Entity, id: nat): Option<Option<Vector>> {
    if Writes(m, e, id) then Some(Outcome(m, id)) else if Strips(m, e, id) then Some(None) else None
  }

  /** `second` may begin while `first` is in flight: it leaves every id that `first` has still to write to a slot
      as `first` left it. A clear in flight still drops the slot, so anything may follow it. */
  predicate Compatible(first: Mutation, second: Mutation) {
    first.Change? ==>
      forall id :: id in OpIds(first.op) ==> Leaves(second, first.op.entity, id) in {None, Some(Outcome(first, id))}
  }

  /** The event begins no mutation that is incompatible with one in flight. */
  ghost predicate Orderly(s: State, ev: Event) {
    Begins(ev).Some? ==>
      forall t :: Pending(s, t).Some? ==> Compatible(Pending(s, t).value, Begins(ev).value)
  }

  predicate InSegment(s: State, e: Entity, id: nat) {
    && e in s.slots && s.slots[e] in s.cells && s.cells[s.slots[e]].segment.Some?
    && id in s.cells[s.slots[e]].segment.value.rows
  }

  predicate InFetched(s: State, t: nat, e: Entity, id: nat) {
    && t in s.threads && s.threads[t].Fetched? && s.threads[t].entity == e
    && e in s.slots && s.slots[e] == s.threads[t].cell && id in s.threads[t].rows
  }

  /** The entity's loaded segment holds the id, or rows just fetched for it do. */
  ghost predicate Cached(s: State, e: Entity, id: nat) {
    InSegment(s, e, id) || exists t :: InFetched(s, t, e, id)
  }

  /** No inserted id is cached for another entity, except where a mutation in flight is about to settle it. */
  ghost predicate KeepsEntities(s: State, ev: Event) {
    ev.BeginOp? ==>
      forall e, id :: Strips(Change(ev.op), e, id) && Cached(s, e, id) ==> Awaited(s, e, id)
  }

  // ----- The invariant -----

  /** A mutation of this id by this thread has still to reach the entity's slot. */
  predicate Awaits(s: State, t: nat, e: Entity, id: nat) {
    t in s.threads &&
    match s.threads[t]
    case Stored(op) => Writes(Change(op), e, id)
    case StoredWithSlot(op, c) => e in s.slots && s.slots[e] == c && Writes(Change(op), e, id)
    case Cleared(target) => Covers(target, e)
    case _ => false
  }

  ghost predicate Awaited(s: State, e: Entity, id: nat) {
    exists t :: Awaits(s, t, e, id)
  }

  /** `rows` hold what the source holds, except at ids whose mutation has still to come. */
  ghost predicate Agrees(s: State, e: Entity, rows: map<nat, Vector>) {
    forall id :: !Awaited(s, e, id) ==> At(rows, id) == At(RowsOf(s.source, e), id)
  }

  /** The source holds what the change has written. */
  ghost predicate InSource(source: Source, op: Op) {
    forall id :: id in OpIds(op) ==> At(RowsOf(source, op.entity), id) == Outcome(Change(op), id)
  }

  /** Slots are never shared or reused between entities. */
  ghost predicate Owns(s: State, e: Entity, c: nat) {
    c in s.cells && forall f :: f in s.slots && s.slots[f] == c ==> f == e
  }

  ghost predicate PcInv(s: State, t: nat, pc: Pc) {
    match pc
    case WantSlot(_) => true
    case HasSlot(e, c) => Owns(s, e, c)
    case Peeking(e, c) => Owns(s, e, c) && s.cells[c].upgrader == Some(t) && s.cells[c].segment == None
    case Loading(e, c) => Owns(s, e, c) && s.cells[c].writer == Some(t) && s.cells[c].segment == None
    case Fetched(e, c, rows) =>
      && Owns(s, e, c) && s.cells[c].writer == Some(t) && s.cells[c].segment == None
      && (e in s.slots && s.slots[e] == c ==> Agrees(s, e, rows))
    case ReadingUpgradable(e, c) => Owns(s, e, c) && s.cells[c].upgrader == Some(t) && s.cells[c].segment.Some?
    case ReadingShared(e, c) => Owns(s, e, c) && t in s.cells[c].readers && s.cells[c].segment.Some?
    case Stored(op) => InSource(s.source, op)
    case StoredWithSlot(op, c) => Owns(s, op.entity, c) && InSource(s.source, op)
    case Cleared(_) => true
  }

  /** A writer excludes every other holder, and an upgrader every writer. */
  ghost predicate CellInv(cell: Cell) {
    cell.writer.Some? ==> cell.upgrader == None && cell.readers == {}
  }

  ghost predicate SlotInv(s: State, e: Entity, threshold: nat)
    requires e in s.slots
  {
    && s.slots[e] in s.cells
    && var segment := s.cells[s.slots[e]].segment;
       segment.Some? ==> Agrees(s, e, segment.value.rows) && (segment.value.flat ==> |segment.value.rows| <= threshold)
  }

  ghost predicate Inv(s: State, threshold: nat) {
    && (forall e, f :: e in s.slots && f in s.slots && s.slots[e] == s.slots[f] ==> e == f)
    && (forall e :: e in s.slots ==> SlotInv(s, e, threshold))
    && (forall c :: c in s.cells ==> CellInv(s.cells[c]))
    && (forall t :: t in s.threads ==> PcInv(s, t, s.threads[t]))
  }

  ghost predicate Init(s: State) {
    s.slots == map[] && s.cells == map[] && s.threads == map[]
  }

  // ----- Every step keeps the invariant: steps that leave the source alone -----

  /** No mutation of the entity has reached its slot. */
  ghost predicate KeepsAwaiting(s: State, s': State, e: Entity) {
    forall t, id :: Awaits(s, t, e, id) ==> Awaits(s', t, e, id)
  }

  lemma QuietAgrees(s: State, s': State, e: Entity, rows: map<nat, Vector>)
    requires s'.source == s.source && KeepsAwaiting(s, s', e) && Agrees(s, e, rows)
    ensures Agrees(s', e, rows)
  {
    forall id | !Awaited(s', e, id) ensures !Awaited(s, e, id) {
      assert forall t :: Awaits(s, t, e, id) ==> Awaits(s', t, e, id);
    }
  }

  /** Steps that keep source and slots and end no mutation. */
  ghost predicate Quiet(s: State, s': State) {
    && s'.source == s.source
    && (forall e :: e in s.slots ==> e in s'.slots && s'.slots[e] == s.slots[e] && KeepsAwaiting(s, s', e))
    && (forall e :: e in s'.slots && e !in s.slots ==> s'.slots[e] !in s.cells)
  }

  lemma QuietSlots(s: State, s': State, threshold: nat)
    requires Inv(s, threshold) && Quiet(s, s') && s'.slots == s.slots
    requires forall e :: e in s.slots ==>
               s.slots[e] in s'.cells && s'.cells[s.slots[e]].segment == s.cells[s.slots[e]].segment
    ensures forall e :: e in s'.slots ==> SlotInv(s', e, threshold)
  {
    forall e | e in s'.slots ensures SlotInv(s', e, threshold) {
      assert SlotInv(s, e, threshold);
      var segment := s.cells[s.slots[e]].segment;
      if segment.Some? { QuietAgrees(s, s', e, segment.value.rows); }
    }
  }

  /** A thread that waits with fetched rows keeps its claim through a quiet step. */
  lemma QuietFetched(s: State, s': State, t: nat)
    requires Quiet(s, s') && t in s.threads && s.threads[t].Fetched? && PcInv(s, t, s.threads[t])
    ensures var e, c := s.threads[t].entity, s.threads[t].cell;
            e in s'.slots && s'.slots[e] == c ==> Agrees(s', e, s.threads[t].rows)
  {
    var e := s.threads[t].entity;
    if e in s'.slots && s'.slots[e] == s.threads[t].cell { QuietAgrees(s, s', e, s.threads[t].rows); }
  }

  predicate IsReadStep(ev: Event) {
    ev.BeginRead? || ev.LockUpgradable? || ev.Upgrade? || ev.Release? || ev.LoadFails?
  }

  lemma ReadStepThreads(s: State, ev: Event, s': State, threshold: nat)
    requires Inv(s, threshold) && Step(s, ev, s', threshold) && IsReadStep(ev) && Quiet(s, s')
    ensures forall t :: t in s'.threads ==> PcInv(s', t, s'.threads[t])
  {
    forall t | t in s'.threads ensures PcInv(s', t, s'.threads[t]) {
      if t in s.threads {
        assert PcInv(s, t, s.threads[t]);
        ReadStepThread(s, ev, s', threshold, t);
      }
    }
  }

  lemma ReadStepThread(s: State, ev: Event, s': State, threshold: nat, t: nat)
    requires Step(s, ev, s', threshold) && IsReadStep(ev) && Quiet(s, s')
    requires t in s.threads && t in s'.threads && PcInv(s, t, s.threads[t])
    requires forall c :: c in s.cells ==> CellInv(s.cells[c])
    requires ev.t in s.threads ==> PcInv(s, ev.t, s.threads[ev.t])
    ensures PcInv(s', t, s'.threads[t])
  {
    if s.threads[t].Fetched? { QuietFetched(s, s', t); }
  }

  lemma ReadStepIsQuiet(s: State, ev: Event, s': State, threshold: nat)
    requires Step(s, ev, s', threshold) && IsReadStep(ev)
    ensures Quiet(s, s') && s'.slots == s.slots && s.cells.Keys == s'.cells.Keys
    ensures forall c :: c in s.cells ==> s'.cells[c].segment == s.cells[c].segment
  {
    assert forall t, e, id :: Awaits(s, t, e, id) ==> Awaits(s', t, e, id);
  }

  lemma ReadStepKeepsInv(s: State, ev: Event, s': State, threshold: nat)
    requires Inv(s, threshold) && Step(s, ev, s', threshold) && IsReadStep(ev)
    ensures Inv(s', threshold)
  {
    ReadStepIsQuiet(s, ev, s', threshold);
    assert forall e :: e in s.slots ==> SlotInv(s, e, threshold);
    QuietSlots(s, s', threshold);
    ReadStepThreads(s, ev, s', threshold);
  }

  lemma FetchKeepsInv(s: State, t: nat, s': State, threshold: nat)
    requires Inv(s, threshold) && Step(s, FetchRows(t), s', threshold)
    ensures Inv(s', threshold)
  {
    assert Quiet(s, s');
    QuietSlots(s, s', threshold);
    forall u | u in s'.threads ensures PcInv(s', u, s'.threads[u]) {
      assert PcInv(s, u, s.threads[u]);
      if u != t && s.threads[u].Fetched? { QuietFetched(s, s', u); }
    }
  }

  lemma StoreKeepsInv(s: State, t: nat, s': State, threshold: nat)
    requires Inv(s, threshold) && Step(s, StoreSegment(t), s', threshold)
    ensures Inv(s', threshold)
  {
    assert Quiet(s, s');
    assert PcInv(s, t, s.threads[t]);
    forall e | e in s'.slots ensures SlotInv(s', e, threshold) {
      assert SlotInv(s, e, threshold);
      var segment := s'.cells[s.slots[e]].segment;
      if segment.Some? { QuietAgrees(s, s', e, segment.value.rows); }
    }
    forall u | u in s'.threads ensures PcInv(s', u, s'.threads[u]) {
      assert PcInv(s, u, s.threads[u]);
      if s.threads[u].Fetched? { QuietFetched(s, s', u); }
    }
  }

  lemma SlotStepSlots(s: State, ev: Event, s': State, threshold: nat)
    requires Inv(s, threshold) && Step(s, ev, s', threshold) && (ev.GetSlot? || ev.GetOpSlot?) && Quiet(s, s')
    ensures forall e :: e in s'.slots ==> SlotInv(s', e, threshold)
  {
    forall e | e in s'.slots ensures SlotInv(s', e, threshold) {
      if e in s.slots {
        assert SlotInv(s, e, threshold);
        var segment := s.cells[s.slots[e]].segment;
        if segment.Some? { QuietAgrees(s, s', e, segment.value.rows); }
      }
    }
  }

  lemma SlotStepThreads(s: State, ev: Event, s': State, threshold: nat)
    requires Inv(s, threshold) && Step(s, ev, s', threshold) && (ev.GetSlot? || ev.GetOpSlot?) && Quiet(s, s')
    ensures forall u :: u in s'.threads ==> PcInv(s', u, s'.threads[u])
  {
    assert forall e :: e in s.slots ==> s.slots[e] in s.cells by {
      assert forall e :: e in s.slots ==> SlotInv(s, e, threshold);
    }
    forall u | u in s'.threads ensures PcInv(s', u, s'.threads[u]) {
      SlotStepThread(s, ev, s', threshold, u);
    }
  }

  lemma SlotStepThread(s: State, ev: Event, s': State, threshold: nat, u: nat)
    requires Step(s, ev, s', threshold) && (ev.GetSlot? || ev.GetOpSlot?) && Quiet(s, s')
    requires u in s'.threads && u in s.threads && PcInv(s, u, s.threads[u])
    requires forall e :: e in s.slots ==> s.slots[e] in s.cells
    requires forall e, f :: e in s.slots && f in s.slots && s.slots[e] == s.slots[f] ==> e == f
    ensures PcInv(s', u, s'.threads[u])
  {
    if s.threads[u].Fetched? {
      QuietFetched(s, s', u);
    }
  }

  lemma SlotStepIsQuiet(s: State, ev: Event, s': State, threshold: nat)
    requires Step(s, ev, s', threshold) && (ev.GetSlot? || ev.GetOpSlot?)
    ensures Quiet(s, s')
  {}

  lemma SlotStepCells(s: State, ev: Event, s': State, threshold: nat)
    requires Inv(s, threshold) && Step(s, ev, s', threshold) && (ev.GetSlot? || ev.GetOpSlot?)
    ensures forall e, f :: e in s'.slots && f in s'.slots && s'.slots[e] == s'.slots[f] ==> e == f
    ensures forall c :: c in s'.cells ==> CellInv(s'.cells[c])
  {
    assert forall e :: e in s.slots ==> SlotInv(s, e, threshold);
  }

  lemma SlotStepKeepsInv(s: State, ev: Event, s': State, threshold: nat)
    requires Inv(s, threshold) && Step(s, ev, s', threshold) && (ev.GetSlot? || ev.GetOpSlot?)
    ensures Inv(s', threshold)
  {
    SlotStepIsQuiet(s, ev, s', threshold);
    SlotStepSlots(s, ev, s', threshold);
    SlotStepThreads(s, ev, s', threshold);
    SlotStepCells(s, ev, s', threshold);
  }

  // ----- Every step keeps the invariant: steps of insert, remove and clear -----

  lemma {:induction false} InsertAllAt(m: map<nat, Vector>, items: seq<Item>, id: nat)
    ensures At(InsertAll(m, items), id) == if id in ItemIds(items) then At(InsertAll(map[], items), id) else At(m, id)
  {
    if items == [] {
    } else {
      var n := |items| - 1;
      InsertAllAt(m, items[..n], id);
      assert items == items[..n] + [items[n]];
      assert ItemIds(items) == ItemIds(items[..n]) + {items[n].0};
    }
  }

  lemma AppliedAt(op: Op, rows: map<nat, Vector>, id: nat)
    ensures At(Applied(op, rows), id) == if id in OpIds(op) then Outcome(Change(op), id) else At(rows, id)
  {
    if op.Insert? { InsertAllAt(rows, op.items, id); }
  }

  lemma SameRows(a: map<nat, Vector>, b: map<nat, Vector>)
    requires forall id :: At(a, id) == At(b, id)
    ensures a == b
  {
    forall id ensures (id in a <==> id in b) && (id in a ==> a[id] == b[id]) {
      assert At(a, id) == At(b, id);
    }
  }

  lemma AppliedTwice(op: Op, rows: map<nat, Vector>)
    ensures Applied(op, Applied(op, rows)) == Applied(op, rows)
  {
    forall id ensures At(Applied(op, Applied(op, rows)), id) == At(Applied(op, rows), id) {
      AppliedAt(op, rows, id);
      AppliedAt(op, Applied(op, rows), id);
    }
    SameRows(Applied(op, Applied(op, rows)), Applied(op, rows));
  }

  function SourceWith(m: Mutation, source: Source): Source {
    match m
    case Change(op) => SourceAfter(op, source)
    case Wipe(target) => SourceCleared(target, source)
  }

  /** What a mutation does to the source, id by id. */
  lemma SourceAt(m: Mutation, source: Source, e: Entity, id: nat)
    ensures At(RowsOf(SourceWith(m, source), e), id) ==
              if Leaves(m, e, id).Some? then Leaves(m, e, id).value else At(RowsOf(source, e), id)
  {
    if m.Change? && e == m.op.entity {
      OwnRows(m.op, source);
      AppliedAt(m.op, RowsOf(source, e), id);
    }
  }

  lemma OwnRows(op: Op, source: Source)
    ensures RowsOf(SourceAfter(op, source), op.entity) == Applied(op, RowsOf(source, op.entity))
  {
    if op.Remove? && op.entity !in source {
      assert RowsOf(source, op.entity) - {op.id} == map[];
    }
  }

  ghost predicate IsBegin(s: State, ev: Event, s': State, t: nat, m: Mutation) {
    && Begins(ev) == Some(m) && Step(s, ev, s', 0) && t == ev.t
    && Orderly(s, ev) && KeepsEntities(s, ev)
  }

  lemma BeginAgrees(s: State, ev: Event, s': State, t: nat, m: Mutation, e: Entity, rows: map<nat, Vector>)
    requires IsBegin(s, ev, s', t, m) && Agrees(s, e, rows)
    requires forall id :: id in rows && Strips(m, e, id) ==> Awaited(s, e, id)
    ensures Agrees(s', e, rows)
  {
    forall id | !Awaited(s', e, id) ensures At(rows, id) == At(RowsOf(s'.source, e), id) {
      assert !Awaits(s', t, e, id);
      assert forall u :: Awaits(s, u, e, id) ==> Awaits(s', u, e, id);
      SourceAt(m, s.source, e, id);
    }
  }

  lemma BeginInSource(s: State, ev: Event, s': State, t: nat, m: Mutation, u: nat)
    requires IsBegin(s, ev, s', t, m)
    requires Pending(s, u).Some? && Pending(s, u).value.Change? && InSource(s.source, Pending(s, u).value.op)
    ensures InSource(s'.source, Pending(s, u).value.op)
  {
    var op := Pending(s, u).value.op;
    assert Compatible(Change(op), m);
    forall id | id in OpIds(op) ensures At(RowsOf(s'.source, op.entity), id) == Outcome(Change(op), id) {
      SourceAt(m, s.source, op.entity, id);
    }
  }

  lemma OwnInSource(op: Op, source: Source)
    ensures InSource(SourceAfter(op, source), op)
  {
    forall id | id in OpIds(op) ensures At(RowsOf(SourceAfter(op, source), op.entity), id) == Outcome(Change(op), id) {
      SourceAt(Change(op), source, op.entity, id);
    }
  }

  lemma BeginThreads(s: State, ev: Event, s': State, t: nat, m: Mutation, threshold: nat)
    requires Inv(s, threshold) && IsBegin(s, ev, s', t, m)
    ensures forall u :: u in s'.threads ==> PcInv(s', u, s'.threads[u])
  {
    forall u | u in s'.threads ensures PcInv(s', u, s'.threads[u]) {
      if u == t {
        if m.Change? { OwnInSource(m.op, s.source); }
      } else {
        assert PcInv(s, u, s.threads[u]);
        match s.threads[u] {
          case Fetched(e, c, rows) =>
            if e in s.slots && s.slots[e] == c {
              assert forall id :: id in rows ==> InFetched(s, u, e, id);
              BeginAgrees(s, ev, s', t, m, e, rows);
            }
          case Stored(_) => BeginInSource(s, ev, s', t, m, u);
          case StoredWithSlot(_, _) => BeginInSource(s, ev, s', t, m, u);
          case _ =>
        }
      }
    }
  }

  lemma BeginKeepsInv(s: State, ev: Event, s': State, t: nat, m: Mutation, threshold: nat)
    requires Inv(s, threshold) && IsBegin(s, ev, s', t, m)
    ensures Inv(s', threshold)
  {
    forall e | e in s'.slots ensures SlotInv(s', e, threshold) {
      assert SlotInv(s, e, threshold);
      var segment := s.cells[s.slots[e]].segment;
      if segment.Some? {
        assert forall id :: id in segment.value.rows ==> InSegment(s, e, id);
        BeginAgrees(s, ev, s', t, m, e, segment.value.rows);
      }
    }
    BeginThreads(s, ev, s', t, m, threshold);
  }

  /** Applying a change settles its ids; whatever else was awaited still is. */
  lemma AppliedAgrees(s: State, t: nat, s': State, threshold: nat, rows: map<nat, Vector>)
    requires Step(s, ApplyOp(t), s', threshold) && PcInv(s, t, s.threads[t])
    requires Agrees(s, s.threads[t].op.entity, rows)
    ensures Agrees(s', s.threads[t].op.entity, Applied(s.threads[t].op, rows))
  {
    var op := s.threads[t].op;
    var e := op.entity;
    forall id | !Awaited(s', e, id) ensures At(Applied(op, rows), id) == At(RowsOf(s'.source, e), id) {
      AppliedAt(op, rows, id);
      assert forall u :: u != t && Awaits(s, u, e, id) ==> Awaits(s', u, e, id);
    }
  }

  /** Ending a mutation leaves alone the slots that were not waiting for it. */
  lemma EndAgrees(s: State, t: nat, s': State, e: Entity, rows: map<nat, Vector>)
    requires s'.source == s.source && Agrees(s, e, rows)
    requires forall id :: !Awaits(s, t, e, id)
    requires forall u, id :: u != t && Awaits(s, u, e, id) ==> Awaits(s', u, e, id)
    ensures Agrees(s', e, rows)
  {
    assert KeepsAwaiting(s, s', e);
    QuietAgrees(s, s', e, rows);
  }

  lemma ApplyOpSlot(s: State, t: nat, s': State, threshold: nat, e: Entity)
    requires Step(s, ApplyOp(t), s', threshold) && PcInv(s, t, s.threads[t])
    requires e in s.slots && SlotInv(s, e, threshold)
    ensures SlotInv(s', e, threshold)
  {
    var segment := s.cells[s.slots[e]].segment;
    if segment.Some? {
      if s.slots[e] == s.threads[t].cell {
        AppliedAgrees(s, t, s', threshold, segment.value.rows);
      } else {
        EndAgrees(s, t, s', e, segment.value.rows);
      }
    }
  }

  lemma ApplyOpThread(s: State, t: nat, s': State, threshold: nat, u: nat)
    requires Step(s, ApplyOp(t), s', threshold) && PcInv(s, t, s.threads[t])
    requires u in s'.threads && PcInv(s, u, s.threads[u])
    ensures PcInv(s', u, s'.threads[u])
  {
    if s.threads[u].Fetched? && s.threads[u].entity in s.slots && s.slots[s.threads[u].entity] == s.threads[u].cell {
      EndAgrees(s, t, s', s.threads[u].entity, s.threads[u].rows);
    }
  }

  lemma ApplyOpKeepsInv(s: State, t: nat, s': State, threshold: nat)
    requires Inv(s, threshold) && Step(s, ApplyOp(t), s', threshold)
    ensures Inv(s', threshold)
  {
    assert PcInv(s, t, s.threads[t]);
    forall e | e in s'.slots ensures SlotInv(s', e, threshold) {
      assert SlotInv(s, e, threshold);
      ApplyOpSlot(s, t, s', threshold, e);
    }
    forall u | u in s'.threads ensures PcInv(s', u, s'.threads[u]) {
      assert PcInv(s, u, s.threads[u]);
      ApplyOpThread(s, t, s', threshold, u);
    }
  }

  lemma DropSlotsSlot(s: State, t: nat, s': State, threshold: nat, e: Entity)
    requires Step(s, DropSlots(t), s', threshold) && e in s.slots && e in s'.slots && SlotInv(s, e, threshold)
    ensures SlotInv(s', e, threshold)
  {
    var segment := s.cells[s.slots[e]].segment;
    if segment.Some? { EndAgrees(s, t, s', e, segment.value.rows); }
  }

  lemma DropSlotsKeepsInv(s: State, t: nat, s': State, threshold: nat)
    requires Inv(s, threshold) && Step(s, DropSlots(t), s', threshold)
    ensures Inv(s', threshold)
  {
    forall e | e in s'.slots ensures SlotInv(s', e, threshold) {
      assert SlotInv(s, e, threshold);
      DropSlotsSlot(s, t, s', threshold, e);
    }
    forall u | u in s'.threads ensures PcInv(s', u, s'.threads[u]) {
      assert PcInv(s, u, s.threads[u]);
      match s.threads[u] {
        case Fetched(e, c, rows) =>
          if e in s'.slots && s'.slots[e] == c { EndAgrees(s, t, s', e, rows); }
        case _ =>
      }
    }
  }

  lemma StepKeepsInv(s: State, ev: Event, s': State, threshold: nat)
    requires Inv(s, threshold) && Step(s, ev, s', threshold)
    requires Orderly(s, ev) && KeepsEntities(s, ev)
    ensures Inv(s', threshold)
  {
    match ev {
      case GetSlot(_, _) => SlotStepKeepsInv(s, ev, s', threshold);
      case GetOpSlot(_, _) => SlotStepKeepsInv(s, ev, s', threshold);
      case FetchRows(t) => FetchKeepsInv(s, t, s', threshold);
      case StoreSegment(t) => StoreKeepsInv(s, t, s', threshold);
      case BeginOp(t, op) => BeginKeepsInv(s, ev, s', t, Change(op), threshold);
      case BeginClear(t, target) => BeginKeepsInv(s, ev, s', t, Wipe(target), threshold);
      case ApplyOp(t) => ApplyOpKeepsInv(s, t, s', threshold);
      case DropSlots(t) => DropSlotsKeepsInv(s, t, s', threshold);
      case _ => ReadStepKeepsInv(s, ev, s', threshold);
    }
  }

  // ----- Whole runs -----

  /** A run: states joined by events, from an index with nothing loaded over any source. */
  ghost predicate Run(states: seq<State>, events: seq<Event>, threshold: nat) {
    && |states| == |events| + 1
    && Init(states[0])
    && forall i :: 0 <= i < |events| ==> Step(states[i], events[i], states[i + 1], threshold)
  }

  /** No insert takes ids from an entity that has them cached. */
  ghost predicate KeepsAllEntities(states: seq<State>, events: seq<Event>)
    requires |states| == |events| + 1
  {
    forall i :: 0 <= i < |events| ==> KeepsEntities(states[i], events[i])
  }

  ghost predicate AllOrderly(states: seq<State>, events: seq<Event>)
    requires |states| == |events| + 1
  {
    forall i :: 0 <= i < |events| ==> Orderly(states[i], events[i])
  }

  /** Each loaded segment agrees with the source at every id that no mutation has still to bring it, so that it holds
      exactly the source's rows when there is none; and a flat one is within the threshold. */
  ghost predicate Coherent(s: State, threshold: nat) {
    forall e :: e in s.slots && s.slots[e] in s.cells && s.cells[s.slots[e]].segment.Some? ==>
      var segment := s.cells[s.slots[e]].segment.value;
      && Agrees(s, e, segment.rows)
      && ((forall id :: !Awaited(s, e, id)) ==> segment.rows == RowsOf(s.source, e))
      && (segment.flat ==> |segment.rows| <= threshold)
  }

  lemma InvIsCoherent(s: State, threshold: nat)
    requires Inv(s, threshold)
    ensures Coherent(s, threshold)
  {
    forall e | e in s.slots && s.slots[e] in s.cells && s.cells[s.slots[e]].segment.Some?
      ensures var segment := s.cells[s.slots[e]].segment.value;
              && Agrees(s, e, segment.rows)
              && ((forall id :: !Awaited(s, e, id)) ==> segment.rows == RowsOf(s.source, e))
              && (segment.flat ==> |segment.rows| <= threshold)
    {
      assert SlotInv(s, e, threshold);
      if forall id :: !Awaited(s, e, id) { SameRows(s.cells[s.slots[e]].segment.value.rows, RowsOf(s.source, e)); }
    }
  }

  lemma {:induction false} RunKeepsInv(states: seq<State>, events: seq<Event>, threshold: nat, i: nat)
    requires Run(states, events, threshold) && AllOrderly(states, events) && KeepsAllEntities(states, events)
    requires i < |states|
    ensures Inv(states[i], threshold)
  {
    if i > 0 {
      RunKeepsInv(states, events, threshold, i - 1);
      assert Step(states[i - 1], events[i - 1], states[i], threshold);
      assert Orderly(states[i - 1], events[i - 1]) && KeepsEntities(states[i - 1], events[i - 1]);
      StepKeepsInv(states[i - 1], events[i - 1], states[i], threshold);
    }
  }

  lemma RunsAreCoherent(states: seq<State>, events: seq<Event>, threshold: nat)
    requires Run(states, events, threshold) && AllOrderly(states, events) && KeepsAllEntities(states, events)
    ensures forall i :: 0 <= i < |states| ==> Coherent(states[i], threshold)
  {
    forall i | 0 <= i < |states| ensures Coherent(states[i], threshold) {
      RunKeepsInv(states, events, threshold, i);
      InvIsCoherent(states[i], threshold);
    }
  }

  // ----- What a reader sees -----

  predicate Reads(pc: Pc) {
    pc.ReadingShared? || pc.ReadingUpgradable?
  }

  /** Somewhere in a visit to this cell for this entity. */
  predicate IsVisiting(pc: Pc, e: Entity, c: nat) {
    match pc
    case HasSlot(f, d) => f == e && d == c
    case Peeking(f, d) => f == e && d == c
    case Loading(f, d) => f == e && d == c
    case Fetched(f, d, _) => f == e && d == c
    case ReadingUpgradable(f, d) => f == e && d == c
    case ReadingShared(f, d) => f == e && d == c
    case _ => false
  }

  predicate IsCurrent(s: State, e: Entity, c: nat) {
    e in s.slots && s.slots[e] == c
  }

  predicate DropsSlotOf(s: State, ev: Event, e: Entity) {
    ev.DropSlots? && ev.t in s.threads && s.threads[ev.t].Cleared? && Covers(s.threads[ev.t].target, e)
  }

  /** A thread stays with its cell, and the cell stays the entity's until a clear drops it. */
  lemma StepKeepsVisit(s: State, ev: Event, s': State, threshold: nat, t: nat, e: Entity, c: nat)
    requires Step(s, ev, s', threshold) && t in s.threads && t in s'.threads && IsVisiting(s.threads[t], e, c)
    ensures IsVisiting(s'.threads[t], e, c)
    ensures IsCurrent(s, e, c) ==> IsCurrent(s', e, c) || DropsSlotOf(s, ev, e)
  {}

  /** A clear has dropped the entity's slot since state `g`. */
  ghost predicate DroppedSince(states: seq<State>, events: seq<Event>, g: nat, i: nat, e: Entity)
    requires i <= |events| < |states|
  {
    exists m: nat :: g <= m < i && DropsSlotOf(states[m], events[m], e)
  }

  ghost predicate VisitHolds(states: seq<State>, events: seq<Event>, g: nat, i: nat, t: nat, e: Entity, c: nat)
    requires i <= |events| < |states|
  {
    && t in states[i].threads && IsVisiting(states[i].threads[t], e, c)
    && (IsCurrent(states[i], e, c) || DroppedSince(states, events, g, i, e))
  }

  lemma VisitGoesOn(states: seq<State>, events: seq<Event>, threshold: nat, g: nat, last: nat, i: nat, t: nat,
        e: Entity, c: nat)
    requires g <= last < |events| < |states| && i == last + 1 && Step(states[last], events[last], states[i], threshold)
    requires t in states[i].threads && VisitHolds(states, events, g, last, t, e, c)
    ensures VisitHolds(states, events, g, i, t, e, c)
  {
    StepKeepsVisit(states[last], events[last], states[i], threshold, t, e, c);
    if DroppedSince(states, events, g, last, e) {
      var m: nat :| g <= m < last && DropsSlotOf(states[m], events[m], e);
    }
  }

  lemma RunStep(states: seq<State>, events: seq<Event>, threshold: nat, last: nat, i: nat)
    requires Run(states, events, threshold) && i == last + 1 < |states|
    ensures Step(states[last], events[last], states[i], threshold)
  {}

  ghost predicate Stays(states: seq<State>, g: nat, i: nat, t: nat) {
    forall m :: g <= m <= i && m < |states| ==> t in states[m].threads
  }

  lemma {:induction false} VisitStays(states: seq<State>, events: seq<Event>, threshold: nat, g: nat, i: nat, t: nat,
        e: Entity, c: nat)
    requires Run(states, events, threshold) && g <= i <= |events| < |states| && Stays(states, g, i, t)
    requires VisitHolds(states, events, g, g, t, e, c)
    ensures VisitHolds(states, events, g, i, t, e, c)
  {
    if i > g {
      var last := i - 1;
      VisitStays(states, events, threshold, g, last, t, e, c);
      RunStep(states, events, threshold, last, i);
      VisitGoesOn(states, events, threshold, g, last, i, t, e, c);
    }
  }

  /** A reader inside has a segment before it, and while its slot is the entity's the segment's rows are those of the
      source, at every id that no mutation has still to bring it. */
  lemma ReaderSeesSource(s: State, t: nat, threshold: nat)
    requires Inv(s, threshold) && t in s.threads && Reads(s.threads[t])
    ensures var e, c := s.threads[t].entity, s.threads[t].cell;
            && c in s.cells && s.cells[c].segment.Some?
            && (IsCurrent(s, e, c) ==> Agrees(s, e, s.cells[c].segment.value.rows))
  {
    assert PcInv(s, t, s.threads[t]);
    var e := s.threads[t].entity;
    if e in s.slots { assert SlotInv(s, e, threshold); }
  }

  /** In every run, from the moment a thread has got its slot (state `g`) and as long as it stays: whenever it is
      reading, what it reads is the source's at that moment up to mutations still to come, unless a clear has dropped
      the slot since. */
  lemma ReadersSeeTheSource(states: seq<State>, events: seq<Event>, threshold: nat, g: nat, i: nat, t: nat)
    requires Run(states, events, threshold) && AllOrderly(states, events) && KeepsAllEntities(states, events)
    requires 0 < g <= i < |states| && events[g - 1].GetSlot? && events[g - 1].t == t
    requires Stays(states, g, i, t) && Reads(states[i].threads[t])
    ensures var s, e, c := states[i], states[i].threads[t].entity, states[i].threads[t].cell;
            && c in s.cells && s.cells[c].segment.Some?
            && (Agrees(s, e, s.cells[c].segment.value.rows) || DroppedSince(states, events, g, i, e))
  {
    assert Step(states[g - 1], events[g - 1], states[g], threshold);
    VisitStays(states, events, threshold, g, i, t, states[g].threads[t].entity, states[g].threads[t].cell);
    RunKeepsInv(states, events, threshold, i);
    ReaderSeesSource(states[i], t, threshold);
  }

  // ----- Exactly what may begin -----

  /** A mutation keeps the invariant exactly when it is compatible with those in flight and takes no cached id. */
  lemma BeginKeepsInvIff(s: State, ev: Event, s': State, threshold: nat)
    requires Inv(s, threshold) && Step(s, ev, s', threshold) && Begins(ev).Some?
    ensures Inv(s', threshold) <==> Orderly(s, ev) && KeepsEntities(s, ev)
  {
    var t, m := ev.t, Begins(ev).value;
    if Orderly(s, ev) && KeepsEntities(s, ev) {
      BeginKeepsInv(s, ev, s', t, m, threshold);
    } else if !Orderly(s, ev) {
      var u :| Pending(s, u).Some? && !Compatible(Pending(s, u).value, m);
      ClashSpoilsInv(s, ev, s', m, u, threshold);
    } else {
      var e, id :| Strips(m, e, id) && Cached(s, e, id) && !Awaited(s, e, id);
      TakingSpoilsInv(s, ev, s', m.op, e, id, threshold);
    }
  }

  lemma ClashSpoilsInv(s: State, ev: Event, s': State, m: Mutation, u: nat, threshold: nat)
    requires Step(s, ev, s', threshold) && Begins(ev) == Some(m)
    requires Pending(s, u).Some? && !Compatible(Pending(s, u).value, m)
    ensures !Inv(s', threshold)
  {
    var op := Pending(s, u).value.op;
    var id :| id in OpIds(op) && Leaves(m, op.entity, id) !in {None, Some(Outcome(Change(op), id))};
    SourceAt(m, s.source, op.entity, id);
    assert s'.threads[u] == s.threads[u] && !InSource(s'.source, op);
    assert !PcInv(s', u, s'.threads[u]);
  }

  lemma TakingSpoilsInv(s: State, ev: Event, s': State, op: Op, e: Entity, id: nat, threshold: nat)
    requires Step(s, ev, s', threshold) && Begins(ev) == Some(Change(op))
    requires Strips(Change(op), e, id) && Cached(s, e, id) && !Awaited(s, e, id)
    ensures !Awaited(s', e, id) && At(RowsOf(s'.source, e), id) == None && !Inv(s', threshold)
  {
    SourceAt(Change(op), s.source, e, id);
    assert forall u :: Awaits(s', u, e, id) ==> Awaits(s, u, e, id);
    if InSegment(s, e, id) {
      assert !SlotInv(s', e, threshold);
    } else {
      var u :| InFetched(s, u, e, id);
      assert s'.threads[u] == s.threads[u] && !PcInv(s', u, s'.threads[u]);
    }
  }

  // ----- Exactly the compatible overlaps are safe -----

  /** A run that respects entities and in which the only incompatible overlaps are of `second` begun during `first`. */
  ghost predicate ClashingRun(states: seq<State>, events: seq<Event>, first: Mutation, second: Mutation,
        threshold: nat) {
    && Run(states, events, threshold) && KeepsAllEntities(states, events)
    && forall i :: 0 <= i < |events| ==> OnlyClash(states[i], events[i], first, second)
  }

  ghost predicate OnlyClash(s: State, ev: Event, first: Mutation, second: Mutation) {
    Begins(ev).Some? ==>
      forall t :: Pending(s, t).Some? && !Compatible(Pending(s, t).value, Begins(ev).value) ==>
        Pending(s, t).value == first && Begins(ev).value == second
  }

  ghost predicate AlwaysCoherent(states: seq<State>, threshold: nat) {
    forall i :: 0 <= i < |states| ==> Coherent(states[i], threshold)
  }

  datatype Clash = Clash(source: Source, first: Mutation, second: Mutation)

  /** A run over the clash's source ends in `s`, and no other overlap in it is incompatible. */
  ghost predicate Reaches(c: Clash, s: State, threshold: nat) {
    exists states, events :: ClashingRun(states, events, c.first, c.second, threshold) && Joins(states, c.source, s)
  }

  ghost predicate Joins(states: seq<State>, source: Source, last: State) {
    states != [] && states[0].source == source && states[|states| - 1] == last
  }

  lemma Extend(c: Clash, s: State, ev: Event, s': State, threshold: nat)
    requires Reaches(c, s, threshold) && Step(s, ev, s', threshold)
    requires KeepsEntities(s, ev) && OnlyClash(s, ev, c.first, c.second)
    ensures Reaches(c, s', threshold)
  {
    var states, events :| ClashingRun(states, events, c.first, c.second, threshold) && Joins(states, c.source, s);
    var states', events' := states + [s'], events + [ev];
    forall i | 0 <= i < |events'|
      ensures Step(states'[i], events'[i], states'[i + 1], threshold)
      ensures KeepsEntities(states'[i], events'[i]) && OnlyClash(states'[i], events'[i], c.first, c.second)
    {
      if i < |events| {
        assert states'[i] == states[i] && states'[i + 1] == states[i + 1] && events'[i] == events[i];
      }
    }
    assert ClashingRun(states', events', c.first, c.second, threshold) && Joins(states', c.source, s');
  }

  /** A state with nothing loaded. */
  function Unloaded(source: Source, threads: map<nat, Pc>): State {
    State(source, map[], map[], threads)
  }

  /** A state with one slot, of the entity `e`. */
  function OneSlot(source: Source, e: Entity, cell: Cell, threads: map<nat, Pc>): State {
    State(source, map[e := 0], map[0 := cell], threads)
  }

  /** A cell that nobody holds. */
  function Quiescent(segment: Segment): Cell {
    EMPTY_CELL.(segment := Some(segment))
  }

  function LoadedRows(rows: map<nat, Vector>, threshold: nat): Segment {
    Segment(|rows| <= threshold, rows)
  }

  lemma ReaderArrives(c: Clash, source: Source, e: Entity, threads: map<nat, Pc>, threshold: nat)
    requires Reaches(c, Unloaded(source, threads), threshold) && 0 !in threads
    ensures Reaches(c, OneSlot(source, e, EMPTY_CELL, threads[0 := HasSlot(e, 0)]), threshold)
  {
    var s, waiting := Unloaded(source, threads), Unloaded(source, threads[0 := WantSlot(e)]);
    assert Step(s, BeginRead(0, e), waiting, threshold);
    Extend(c, s, BeginRead(0, e), waiting, threshold);
    var s' := OneSlot(source, e, EMPTY_CELL, threads[0 := HasSlot(e, 0)]);
    assert waiting.threads[0 := HasSlot(e, 0)] == s'.threads;
    assert map[][e := 0] == map[e := 0] && map[][0 := EMPTY_CELL] == map[0 := EMPTY_CELL];
    assert Step(waiting, GetSlot(0, 0), s', threshold);
    Extend(c, waiting, GetSlot(0, 0), s', threshold);
  }

  /** A step that changes the one cell and the reader in it. */
  lemma ReaderSteps(c: Clash, source: Source, e: Entity, threads: map<nat, Pc>, ev: Event,
        before: (Cell, Pc), after: (Cell, Pc), threshold: nat)
    requires Reaches(c, OneSlot(source, e, before.0, threads[0 := before.1]), threshold) && Begins(ev).None?
    requires var s := OneSlot(source, e, before.0, threads[0 := before.1]);
             Step(s, ev, s.(cells := s.cells[0 := after.0], threads := s.threads[0 := after.1]), threshold)
    ensures Reaches(c, OneSlot(source, e, after.0, threads[0 := after.1]), threshold)
  {
    assert threads[0 := before.1][0 := after.1] == threads[0 := after.1];
    assert map[0 := before.0][0 := after.0] == map[0 := after.0];
    Extend(c, OneSlot(source, e, before.0, threads[0 := before.1]), ev,
      OneSlot(source, e, after.0, threads[0 := after.1]), threshold);
  }

  lemma ReaderLocks(c: Clash, source: Source, e: Entity, threads: map<nat, Pc>, threshold: nat)
    requires Reaches(c, OneSlot(source, e, EMPTY_CELL, threads[0 := HasSlot(e, 0)]), threshold)
    ensures Reaches(c, OneSlot(source, e, EMPTY_CELL.(writer := Some(0)), threads[0 := Loading(e, 0)]), threshold)
  {
    var locked := EMPTY_CELL.(upgrader := Some(0));
    ReaderSteps(c, source, e, threads, LockUpgradable(0), (EMPTY_CELL, HasSlot(e, 0)),
      (locked, Peeking(e, 0)), threshold);
    ReaderSteps(c, source, e, threads, Upgrade(0), (locked, Peeking(e, 0)),
      (EMPTY_CELL.(writer := Some(0)), Loading(e, 0)), threshold);
  }

  lemma ReaderLoads(c: Clash, source: Source, e: Entity, threads: map<nat, Pc>, threshold: nat)
    requires Reaches(c, OneSlot(source, e, EMPTY_CELL.(writer := Some(0)), threads[0 := Loading(e, 0)]), threshold)
    ensures var loaded := Quiescent(LoadedRows(RowsOf(source, e), threshold));
            Reaches(c, OneSlot(source, e, loaded.(readers := {0}), threads[0 := ReadingShared(e, 0)]), threshold)
  {
    var rows := RowsOf(source, e);
    var locked, loaded := EMPTY_CELL.(writer := Some(0)), Quiescent(LoadedRows(rows, threshold)).(readers := {0});
    ReaderSteps(c, source, e, threads, FetchRows(0), (locked, Loading(e, 0)), (locked, Fetched(e, 0, rows)), threshold);
    assert {} + {0} == {0};
    ReaderSteps(c, source, e, threads, StoreSegment(0), (locked, Fetched(e, 0, rows)),
      (loaded, ReadingShared(e, 0)), threshold);
  }

  lemma ReaderLeaves(c: Clash, source: Source, e: Entity, threads: map<nat, Pc>, loaded: Cell,
        threshold: nat)
    requires loaded.readers == {} && 0 !in threads
    requires Reaches(c, OneSlot(source, e, loaded.(readers := {0}), threads[0 := ReadingShared(e, 0)]), threshold)
    ensures Reaches(c, OneSlot(source, e, loaded, threads), threshold)
  {
    var s := OneSlot(source, e, loaded.(readers := {0}), threads[0 := ReadingShared(e, 0)]);
    assert threads[0 := ReadingShared(e, 0)] - {0} == threads && {0} - {0} == {};
    assert map[0 := loaded.(readers := {0})][0 := loaded] == map[0 := loaded];
    assert Step(s, Release(0), OneSlot(source, e, loaded, threads), threshold);
    Extend(c, s, Release(0), OneSlot(source, e, loaded, threads), threshold);
  }

  /** A reader loads the entity and leaves. */
  lemma Load(c: Clash, source: Source, e: Entity, threads: map<nat, Pc>, threshold: nat)
    requires Reaches(c, Unloaded(source, threads), threshold) && 0 !in threads
    ensures Reaches(c, OneSlot(source, e, Quiescent(LoadedRows(RowsOf(source, e), threshold)), threads), threshold)
  {
    ReaderArrives(c, source, e, threads, threshold);
    ReaderLocks(c, source, e, threads, threshold);
    ReaderLoads(c, source, e, threads, threshold);
    ReaderLeaves(c, source, e, threads, Quiescent(LoadedRows(RowsOf(source, e), threshold)), threshold);
  }

  lemma TakesSlot(c: Clash, source: Source, e: Entity, cell: Cell, threads: map<nat, Pc>,
        t: nat, op: Op, threshold: nat)
    requires Reaches(c, OneSlot(source, e, cell, threads), threshold)
    requires t in threads && threads[t] == Stored(op) && op.entity == e
    ensures Reaches(c, OneSlot(source, e, cell, threads[t := StoredWithSlot(op, 0)]), threshold)
  {
    var s, s' := OneSlot(source, e, cell, threads), OneSlot(source, e, cell, threads[t := StoredWithSlot(op, 0)]);
    assert Step(s, GetOpSlot(t, 0), s', threshold);
    Extend(c, s, GetOpSlot(t, 0), s', threshold);
  }

  lemma ApplyStep(s: State, t: nat, op: Op, after: Option<Segment>, threshold: nat)
    requires t in s.threads && s.threads[t] == StoredWithSlot(op, 0) && 0 in s.cells && CanWrite(s.cells[0])
    requires SegmentAfter(op, s.cells[0].segment, threshold) == after
    ensures Step(s, ApplyOp(t),
              s.(cells := s.cells[0 := s.cells[0].(segment := after)], threads := s.threads - {t}), threshold)
  {}

  lemma Applies(c: Clash, source: Source, e: Entity, held: Segment, after: Segment,
        threads: map<nat, Pc>, t: nat, op: Op, threshold: nat)
    requires Reaches(c, OneSlot(source, e, Quiescent(held), threads), threshold)
    requires t in threads && threads[t] == StoredWithSlot(op, 0)
    requires SegmentAfter(op, Some(held), threshold) == Some(after)
    ensures Reaches(c, OneSlot(source, e, Quiescent(after), threads - {t}), threshold)
  {
    var s, s' := OneSlot(source, e, Quiescent(held), threads), OneSlot(source, e, Quiescent(after), threads - {t});
    assert map[0 := Quiescent(held)][0 := Quiescent(after)] == map[0 := Quiescent(after)];
    ApplyStep(s, t, op, Some(after), threshold);
    Extend(c, s, ApplyOp(t), s', threshold);
  }

  function BothStored(a: Op, b: Op): map<nat, Pc> {
    map[1 := Stored(a), 2 := Stored(b)]
  }

  function BothWithSlot(a: Op, b: Op): map<nat, Pc> {
    map[1 := StoredWithSlot(a, 0), 2 := StoredWithSlot(b, 0)]
  }

  lemma BothTakeSlot(c: Clash, source: Source, e: Entity, cell: Cell, a: Op, b: Op, threshold: nat)
    requires Reaches(c, OneSlot(source, e, cell, BothStored(a, b)), threshold) && a.entity == b.entity == e
    ensures Reaches(c, OneSlot(source, e, cell, BothWithSlot(a, b)), threshold)
  {
    TakesSlot(c, source, e, cell, BothStored(a, b), 1, a, threshold);
    var one := BothStored(a, b)[1 := StoredWithSlot(a, 0)];
    TakesSlot(c, source, e, cell, one, 2, b, threshold);
    assert one[2 := StoredWithSlot(b, 0)] == BothWithSlot(a, b);
  }

  /** The later write reaches the slot first and the earlier one last. */
  lemma Finish(c: Clash, source: Source, a: Op, b: Op, held: Segment, between: Segment,
        after: Segment, threshold: nat)
    requires Reaches(c, OneSlot(source, a.entity, Quiescent(held), BothStored(a, b)), threshold) && a.entity == b.entity
    requires SegmentAfter(b, Some(held), threshold) == Some(between)
    requires SegmentAfter(a, Some(between), threshold) == Some(after)
    ensures Reaches(c, OneSlot(source, a.entity, Quiescent(after), map[]), threshold)
  {
    var e := a.entity;
    BothTakeSlot(c, source, e, Quiescent(held), a, b, threshold);
    Applies(c, source, e, held, between, BothWithSlot(a, b), 2, b, threshold);
    Applies(c, source, e, between, after, BothWithSlot(a, b) - {2}, 1, a, threshold);
    assert BothWithSlot(a, b) - {2} - {1} == map[];
  }

  lemma StaleSlot(s: State, e: Entity, id: nat, threshold: nat)
    requires s.threads == map[] && e in s.slots && s.slots[e] in s.cells && s.cells[s.slots[e]].segment.Some?
    requires At(s.cells[s.slots[e]].segment.value.rows, id) != At(RowsOf(s.source, e), id)
    ensures !Coherent(s, threshold)
  {
    assert !Awaited(s, e, id);
  }

  /** Changes that add no id do not push a loaded segment over the threshold. */
  lemma Survives(a: Op, b: Op, rows: map<nat, Vector>, threshold: nat)
    requires |rows| <= threshold ==>
               Applied(b, rows).Keys <= rows.Keys && Applied(a, Applied(b, rows)).Keys <= rows.Keys
    ensures var flat := |rows| <= threshold;
            && SegmentAfter(b, Some(LoadedRows(rows, threshold)), threshold) == Some(Segment(flat, Applied(b, rows)))
            && SegmentAfter(a, Some(Segment(flat, Applied(b, rows))), threshold) ==
                 Some(Segment(flat, Applied(a, Applied(b, rows))))
  {
    if |rows| <= threshold {
      SubsetCount(Applied(b, rows).Keys, rows.Keys);
      SubsetCount(Applied(a, Applied(b, rows)).Keys, rows.Keys);
      assert |Applied(b, rows)| == |Applied(b, rows).Keys| && |rows| == |rows.Keys|;
      assert |Applied(a, Applied(b, rows))| == |Applied(a, Applied(b, rows)).Keys|;
    }
  }

  lemma Start(c: Clash, threshold: nat)
    requires c.first.Change? && OpIds(c.first.op) != {}
    ensures Reaches(c, Unloaded(SourceAfter(c.first.op, c.source), map[1 := Stored(c.first.op)]), threshold)
  {
    var s, op := Unloaded(c.source, map[]), c.first.op;
    assert ClashingRun([s], [], c.first, c.second, threshold) && Joins([s], c.source, s);
    assert map[][1 := Stored(op)] == map[1 := Stored(op)];
    Extend(c, s, BeginOp(1, op), Unloaded(SourceAfter(op, c.source), map[1 := Stored(op)]), threshold);
  }

  /** The second of two operations begins while the first is stored. */
  lemma BeginSecond(c: Clash, s: State, a: Op, b: Op, threshold: nat)
    requires Reaches(c, s, threshold) && s.threads == map[1 := Stored(a)]
    requires OpIds(b) != {} && KeepsEntities(s, BeginOp(2, b))
    requires c.first == Change(a) && (c.second == Change(b) || Compatible(Change(a), Change(b)))
    ensures Reaches(c, s.(source := SourceAfter(b, s.source), threads := BothStored(a, b)), threshold)
  {
    assert map[1 := Stored(a)][2 := Stored(b)] == BothStored(a, b);
    Extend(c, s, BeginOp(2, b), s.(source := SourceAfter(b, s.source), threads := BothStored(a, b)), threshold);
  }

  /** A run of the clash ends with nothing in flight and a slot that differs from the source. */
  ghost predicate Breaks(c: Clash, threshold: nat) {
    exists s :: Reaches(c, s, threshold) && s.threads == map[] && !Coherent(s, threshold)
  }

  /** Overwriting what is in flight: loaded after both have written the source, the segment survives both. */
  lemma OverwritingBreaks(c: Clash, a: Op, b: Op, id: nat, threshold: nat)
    requires c.first == Change(a) && c.second == Change(b) && b.Insert? && a.entity == b.entity
    requires id in OpIds(a) && id in OpIds(b) && Outcome(Change(a), id) != Outcome(Change(b), id)
    ensures Breaks(c, threshold)
  {
    var e, before := a.entity, SourceAfter(a, c.source);
    var after := SourceAfter(b, before);
    Start(c, threshold);
    BeginSecond(c, Unloaded(before, map[1 := Stored(a)]), a, b, threshold);
    Load(c, after, e, BothStored(a, b), threshold);
    var rows := RowsOf(after, e);
    OverwrittenRows(c.source, a, b, id);
    Survives(a, b, rows, threshold);
    var held := LoadedRows(rows, threshold);
    var last := Segment(held.flat, Applied(a, rows));
    Finish(c, after, a, b, held, held, last, threshold);
    StaleSlot(OneSlot(after, e, Quiescent(last), map[]), e, id, threshold);
  }

  lemma OverwrittenRows(source: Source, a: Op, b: Op, id: nat)
    requires b.Insert? && a.entity == b.entity && id in OpIds(a) && id in OpIds(b)
    requires Outcome(Change(a), id) != Outcome(Change(b), id)
    ensures var rows := RowsOf(SourceAfter(b, SourceAfter(a, source)), a.entity);
            && Applied(b, rows) == rows && Applied(a, rows).Keys <= rows.Keys
            && At(Applied(a, rows), id) != At(rows, id)
  {
    var before := Applied(a, RowsOf(source, a.entity));
    var rows := RowsOf(SourceAfter(b, SourceAfter(a, source)), a.entity);
    OwnRows(a, source);
    OwnRows(b, SourceAfter(a, source));
    AppliedTwice(b, before);
    AddsNothing(a, b, RowsOf(source, a.entity));
    AppliedAt(a, rows, id);
    AppliedAt(b, before, id);
  }

  lemma AddsNothing(a: Op, b: Op, rows: map<nat, Vector>)
    requires b.Insert?
    ensures Applied(a, Applied(b, Applied(a, rows))).Keys <= Applied(b, Applied(a, rows)).Keys
  {
    InsertAllKeys(Applied(a, rows), b.items);
    if a.Insert? {
      InsertAllKeys(rows, a.items);
      InsertAllKeys(Applied(b, Applied(a, rows)), a.items);
    }
  }

  /** Removing what an insert in flight has written: loaded between the two, the segment survives both. */
  lemma RemovingBreaks(c: Clash, a: Op, id: nat, threshold: nat)
    requires a.Insert? && id in OpIds(a)
    requires c.first == Change(a) && c.second == Change(Remove(a.entity, id))
    ensures Breaks(c, threshold)
  {
    var e, b, before := a.entity, Remove(a.entity, id), SourceAfter(a, c.source);
    var after := SourceAfter(b, before);
    Start(c, threshold);
    Load(c, before, e, map[1 := Stored(a)], threshold);
    var rows := RowsOf(before, e);
    var held := LoadedRows(rows, threshold);
    BeginSecond(c, OneSlot(before, e, Quiescent(held), map[1 := Stored(a)]), a, b, threshold);
    OwnRows(a, c.source);
    OwnRows(b, before);
    InsertAllKeys(RowsOf(c.source, e), a.items);
    InsertAllKeys(Applied(b, rows), a.items);
    Survives(a, b, rows, threshold);
    var last := Segment(held.flat, Applied(a, Applied(b, rows)));
    Finish(c, after, a, b, held, Segment(held.flat, Applied(b, rows)), last, threshold);
    StaleSlot(OneSlot(after, e, Quiescent(last), map[]), e, id, threshold);
  }

  lemma {:induction false} Beyond(used: set<nat>) returns (id: nat)
    ensures forall u :: u in used ==> u < id
  {
    id := 0;
    if used != {} {
      var u :| u in used;
      var above := Beyond(used - {u});
      id := if above > u then above else u + 1;
      assert forall x :: x in used ==> x == u || x in used - {u};
    }
  }

  lemma {:induction false} FreshItems(used: set<nat>, n: nat) returns (items: seq<Item>)
    ensures |ItemIds(items)| == n && ItemIds(items) !! used
  {
    items := [];
    if n > 0 {
      var front := FreshItems(used, n - 1);
      var id := Beyond(used + ItemIds(front));
      items := front + [(id, [])];
      assert ItemIds(items) == ItemIds(front) + {id};
    }
  }

  /** A clear that overtakes an insert drops the slot that the insert would have repaired: the insert lands in the
      slot loaded next. That one survives when the entity has outgrown the threshold again. */
  lemma ClearingBreaks(c: Clash, a: Op, target: Option<Entity>, id: nat, threshold: nat)
    requires a.Insert? && id in OpIds(a) && Covers(target, a.entity)
    requires c.first == Change(a) && c.second == Wipe(target)
    ensures Breaks(c, threshold)
  {
    var cleared := SourceCleared(target, SourceAfter(a, c.source));
    Start(c, threshold);
    ClearsUnloaded(c, a, target, SourceAfter(a, c.source), threshold);
    var items := FreshItems(OpIds(a), threshold + 1);
    var b := Insert(a.entity, items);
    var after := SourceAfter(b, cleared);
    BeginSecond(c, Unloaded(cleared, map[1 := Stored(a)]), a, b, threshold);
    Load(c, after, a.entity, BothStored(a, b), threshold);
    FreshRows(cleared, a, b, id, threshold);
    LandsInFreshRows(c, after, a, b, id, threshold);
  }

  lemma ClearsUnloaded(c: Clash, a: Op, target: Option<Entity>, source: Source, threshold: nat)
    requires Reaches(c, Unloaded(source, map[1 := Stored(a)]), threshold)
    requires c.first == Change(a) && c.second == Wipe(target)
    ensures Reaches(c, Unloaded(SourceCleared(target, source), map[1 := Stored(a)]), threshold)
  {
    var cleared := SourceCleared(target, source);
    var s := Unloaded(cleared, map[1 := Stored(a)][2 := Cleared(target)]);
    Extend(c, Unloaded(source, map[1 := Stored(a)]), BeginClear(2, target), s, threshold);
    assert map[1 := Stored(a)][2 := Cleared(target)] - {2} == map[1 := Stored(a)];
    assert Step(s, DropSlots(2), Unloaded(cleared, map[1 := Stored(a)]), threshold);
    Extend(c, s, DropSlots(2), Unloaded(cleared, map[1 := Stored(a)]), threshold);
  }

  lemma FreshRows(cleared: Source, a: Op, b: Op, id: nat, threshold: nat)
    requires b.Insert? && |OpIds(b)| > threshold && b.entity !in cleared && id in OpIds(a) && OpIds(a) !! OpIds(b)
    ensures var rows := RowsOf(SourceAfter(b, cleared), b.entity);
            |rows| > threshold && id !in rows
  {
    OwnRows(b, cleared);
    InsertAllKeys(map[], b.items);
    var rows := RowsOf(SourceAfter(b, cleared), b.entity);
    assert |rows| == |rows.Keys| && rows.Keys == OpIds(b);
  }

  lemma LandsInFreshRows(c: Clash, source: Source, a: Op, b: Op, id: nat, threshold: nat)
    requires a.Insert? && a.entity == b.entity && id in OpIds(a)
    requires |RowsOf(source, a.entity)| > threshold && id !in RowsOf(source, a.entity)
    requires var loaded := Quiescent(LoadedRows(RowsOf(source, a.entity), threshold));
             Reaches(c, OneSlot(source, a.entity, loaded, BothStored(a, b)), threshold)
    ensures Breaks(c, threshold)
  {
    var rows := RowsOf(source, a.entity);
    Survives(a, b, rows, threshold);
    var last := Segment(false, Applied(a, Applied(b, rows)));
    Finish(c, source, a, b, LoadedRows(rows, threshold), Segment(false, Applied(b, rows)), last, threshold);
    InsertAllKeys(Applied(b, rows), a.items);
    StaleSlot(OneSlot(source, a.entity, Quiescent(last), map[]), a.entity, id, threshold);
  }

  /** Inserting elsewhere what an insert in flight has written: its slot keeps an id that the source no longer has. */
  lemma StealingBreaks(c: Clash, a: Op, b: Op, id: nat, threshold: nat)
    requires a.Insert? && b.Insert? && a.entity != b.entity && id in OpIds(a) && id in OpIds(b)
    requires RowsOf(c.source, a.entity).Keys !! OpIds(b)
    requires c.first == Change(a) && c.second == Change(b)
    ensures Breaks(c, threshold)
  {
    var e, before := a.entity, SourceAfter(a, c.source);
    var after := SourceAfter(b, before);
    var rows := RowsOf(before, e);
    Start(c, threshold);
    Load(c, before, e, map[1 := Stored(a)], threshold);
    StoredRows(a, c.source);
    BeginsBeside(c, before, a, b, LoadedRows(rows, threshold), threshold);
    FinishApart(c, after, a, b, LoadedRows(rows, threshold), threshold);
    SourceAt(Change(b), before, e, id);
    StaleSlot(TwoSlots(after, e, LoadedRows(rows, threshold), b.entity, map[]), e, id, threshold);
  }

  /** After an insert the entity stores its ids besides those it had, and inserting again changes nothing. */
  lemma StoredRows(a: Op, source: Source)
    requires a.Insert?
    ensures var rows := RowsOf(SourceAfter(a, source), a.entity);
            rows.Keys == RowsOf(source, a.entity).Keys + OpIds(a) && Applied(a, rows) == rows
  {
    OwnRows(a, source);
    InsertAllKeys(RowsOf(source, a.entity), a.items);
    AppliedTwice(a, RowsOf(source, a.entity));
  }

  lemma BeginsBeside(c: Clash, source: Source, a: Op, b: Op, held: Segment, threshold: nat)
    requires Reaches(c, OneSlot(source, a.entity, Quiescent(held), map[1 := Stored(a)]), threshold)
    requires a.Insert? && b.Insert? && a.entity != b.entity && OpIds(b) != {} && held.rows.Keys * OpIds(b) <= OpIds(a)
    requires c.first == Change(a) && c.second == Change(b)
    ensures Reaches(c, OneSlot(SourceAfter(b, source), a.entity, Quiescent(held), BothStored(a, b)), threshold)
  {
    var s := OneSlot(source, a.entity, Quiescent(held), map[1 := Stored(a)]);
    forall e, x | Strips(Change(b), e, x) && Cached(s, e, x) ensures Awaited(s, e, x) {
      assert x in held.rows.Keys * OpIds(b);
      assert Awaits(s, 1, e, x);
    }
    BeginSecond(c, s, a, b, threshold);
  }

  /** One loaded slot and one that is not loaded. */
  function TwoSlots(source: Source, e: Entity, held: Segment, other: Entity, threads: map<nat, Pc>): State {
    State(source, map[e := 0, other := 1], map[0 := Quiescent(held), 1 := EMPTY_CELL], threads)
  }

  /** Both reach their slots: the one of `b` is not loaded. */
  lemma FinishApart(c: Clash, source: Source, a: Op, b: Op, held: Segment, threshold: nat)
    requires Reaches(c, OneSlot(source, a.entity, Quiescent(held), BothStored(a, b)), threshold) && a.entity != b.entity
    requires SegmentAfter(a, Some(held), threshold) == Some(held)
    ensures Reaches(c, TwoSlots(source, a.entity, held, b.entity, map[]), threshold)
  {
    var e := a.entity;
    TakesSlot(c, source, e, Quiescent(held), BothStored(a, b), 1, a, threshold);
    Applies(c, source, e, held, held, BothStored(a, b)[1 := StoredWithSlot(a, 0)], 1, a, threshold);
    assert BothStored(a, b)[1 := StoredWithSlot(a, 0)] - {1} == map[2 := Stored(b)];
    FinishOther(c, source, e, held, b, threshold);
  }

  lemma FinishOther(c: Clash, source: Source, e: Entity, held: Segment, b: Op, threshold: nat)
    requires Reaches(c, OneSlot(source, e, Quiescent(held), map[2 := Stored(b)]), threshold) && b.entity != e
    ensures Reaches(c, TwoSlots(source, e, held, b.entity, map[]), threshold)
  {
    var s := OneSlot(source, e, Quiescent(held), map[2 := Stored(b)]);
    var s' := TwoSlots(source, e, held, b.entity, map[2 := StoredWithSlot(b, 1)]);
    assert s.slots[b.entity := 1] == s'.slots && s.cells[1 := EMPTY_CELL] == s'.cells;
    assert s.threads[2 := StoredWithSlot(b, 1)] == s'.threads;
    assert Step(s, GetOpSlot(2, 1), s', threshold);
    Extend(c, s, GetOpSlot(2, 1), s', threshold);
    assert s'.threads - {2} == map[];
    assert s'.cells[1 := EMPTY_CELL.(segment := SegmentAfter(b, None, threshold))] == s'.cells;
    assert Step(s', ApplyOp(2), TwoSlots(source, e, held, b.entity, map[]), threshold);
    Extend(c, s', ApplyOp(2), TwoSlots(source, e, held, b.entity, map[]), threshold);
  }

  /** Any incompatible overlap, for any threshold and over any source that does not store the second's ids elsewhere:
      a run from an unloaded index that ends with nothing in flight and a slot that differs from the source. */
  lemma ClashBreaksCoherence(source: Source, first: Mutation, second: Mutation, threshold: nat)
    returns (states: seq<State>, events: seq<Event>)
    requires !Compatible(first, second)
    requires forall e, id :: Strips(second, e, id) ==> id !in RowsOf(source, e)
    ensures ClashingRun(states, events, first, second, threshold) && states[0].source == source
    ensures states[|states| - 1].threads == map[] && !Coherent(states[|states| - 1], threshold)
  {
    var c, a := Clash(source, first, second), first.op;
    var id :| id in OpIds(a) && Leaves(second, a.entity, id) !in {None, Some(Outcome(first, id))};
    ClashBreaks(c, a, id, threshold);
    var s :| Reaches(c, s, threshold) && s.threads == map[] && !Coherent(s, threshold);
    states, events :| ClashingRun(states, events, first, second, threshold) && Joins(states, source, s);
  }

  lemma ClashBreaks(c: Clash, a: Op, id: nat, threshold: nat)
    requires c.first == Change(a) && id in OpIds(a)
    requires Leaves(c.second, a.entity, id) !in {None, Some(Outcome(c.first, id))}
    requires forall e, x :: Strips(c.second, e, x) ==> x !in RowsOf(c.source, e)
    ensures Breaks(c, threshold)
  {
    match c.second {
      case Wipe(target) => ClearingBreaks(c, a, target, id, threshold);
      case Change(Remove(_, _)) => RemovingBreaks(c, a, id, threshold);
      case Change(Insert(e, items)) =>
        if e == a.entity {
          OverwritingBreaks(c, a, Insert(e, items), id, threshold);
        } else {
          assert forall x :: x in OpIds(Insert(e, items)) ==> Strips(c.second, a.entity, x);
          StealingBreaks(c, a, Insert(e, items), id, threshold);
        }
    }
  }

  /** Taking an id that another entity has cached, with nothing on its way to settle it, breaks coherence at once, or,
      when only rows just fetched hold it, as soon as these are stored. */
  lemma TakingCachedIdsBreaks(s: State, t: nat, op: Op, s': State, e: Entity, id: nat, threshold: nat)
    returns (s2: State)
    requires Inv(s, threshold) && Step(s, BeginOp(t, op), s', threshold) && Strips(Change(op), e, id)
    requires Cached(s, e, id) && !Awaited(s, e, id)
    ensures s2 == s' || exists u :: Step(s', StoreSegment(u), s2, threshold)
    ensures !Coherent(s2, threshold)
  {
    TakingSpoilsInv(s, BeginOp(t, op), s', op, e, id, threshold);
    s2 := s';
    if !InSegment(s, e, id) {
      var u :| InFetched(s, u, e, id);
      assert PcInv(s, u, s.threads[u]);
      s2 := StoreFetched(s', u, e, id, threshold);
    }
  }

  lemma StoreFetched(s: State, u: nat, e: Entity, id: nat, threshold: nat) returns (s': State)
    requires InFetched(s, u, e, id) && s.slots[e] in s.cells
    requires !Awaited(s, e, id) && At(RowsOf(s.source, e), id) == None
    ensures Step(s, StoreSegment(u), s', threshold) && !Coherent(s', threshold)
  {
    var c, rows := s.slots[e], s.threads[u].rows;
    var cell, loaded := s.cells[c], Some(Segment(|rows| <= threshold, rows));
    s' := s.(cells := s.cells[c := cell.(segment := loaded, writer := None, readers := cell.readers + {u})],
             threads := s.threads[u := ReadingShared(e, c)]);
    assert forall v :: Awaits(s', v, e, id) ==> Awaits(s, v, e, id);
    assert !Awaited(s', e, id) && s'.cells[s'.slots[e]].segment == loaded;
    assert At(rows, id) != At(RowsOf(s'.source, e), id);
  }

  lemma CachedIsStored(s: State, e: Entity, id: nat, threshold: nat)
    requires Inv(s, threshold) && Cached(s, e, id)
    ensures id in RowsOf(s.source, e) || Awaited(s, e, id)
  {
    if InSegment(s, e, id) {
      assert SlotInv(s, e, threshold);
    } else {
      var u :| InFetched(s, u, e, id);
      assert PcInv(s, u, s.threads[u]);
    }
  }

  /** An insert whose ids the source stores under no other entity takes nothing from a cached one. */
  lemma UnstoredIdsKeepEntities(s: State, t: nat, op: Op, threshold: nat)
    requires Inv(s, threshold)
    requires forall e, id :: Strips(Change(op), e, id) ==> id !in RowsOf(s.source, e)
    ensures KeepsEntities(s, BeginOp(t, op))
  {
    forall e, id | Strips(Change(op), e, id) && Cached(s, e, id) ensures Awaited(s, e, id) {
      CachedIsStored(s, e, id, threshold);
    }
  }

  /** An overlap is harmless in every run iff the second mutation leaves what the first has written. */
  lemma OverlapIsSafeIff(first: Mutation, second: Mutation, threshold: nat)
    ensures Compatible(first, second) <==>
              forall states, events :: ClashingRun(states, events, first, second, threshold) ==>
                AlwaysCoherent(states, threshold)
  {
    if Compatible(first, second) {
      forall states, events | ClashingRun(states, events, first, second, threshold)
        ensures AlwaysCoherent(states, threshold)
      {
        assert forall i :: 0 <= i < |events| ==> OnlyClash(states[i], events[i], first, second);
        RunsAreCoherent(states, events, threshold);
      }
    } else {
      var states, events := ClashBreaksCoherence(map[], first, second, threshold);
      assert !Coherent(states[|states| - 1], threshold);
    }
  }
}
