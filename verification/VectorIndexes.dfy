/** The vector index: a lazily loaded cache of segments over a source of vectors. */
module VectorIndexes {
  import opened Collections
  import opened Ordering
  import opened TopK
  import opened Kernels
  import opened Formats
  import opened FlatSegments
  import opened Wrappers

  type Entity = string

  type Item = (nat, Vector)

  /** Writes `items` in order, later ones winning. */
  function InsertAll(m: map<nat, Vector>, items: seq<Item>): map<nat, Vector> {
    if items == [] then m else InsertAll(m, items[..|items| - 1])[items[|items| - 1].0 := items[|items| - 1].1]
  }

  lemma InsertAllNext(m: map<nat, Vector>, items: seq<Item>, n: nat)
    requires n < |items|
    ensures InsertAll(m, items[..n + 1]) == InsertAll(m, items[..n])[items[n].0 := items[n].1]
  {
    assert items[..n + 1][..n] == items[..n];
  }

  function ItemIds(items: seq<Item>): set<nat> {
    set x | x in items :: x.0
  }

  lemma {:induction false} InsertAllKeys(m: map<nat, Vector>, items: seq<Item>)
    ensures InsertAll(m, items).Keys == m.Keys + ItemIds(items)
  {
    if items == [] {
    } else {
      var n := |items| - 1;
      InsertAllKeys(m, items[..n]);
      assert items == items[..n] + [items[n]];
      assert ItemIds(items) == ItemIds(items[..n]) + {items[n].0};
    }
  }

  /** An inserted id holds the last vector given for it; any other id what it held. */
  lemma {:induction false} LastInsertWins(m: map<nat, Vector>, items: seq<Item>, id: nat)
    ensures id in InsertAll(m, items) ==>
              || (id !in ItemIds(items) && id in m && InsertAll(m, items)[id] == m[id])
              || exists i :: 0 <= i < |items| && items[i] == (id, InsertAll(m, items)[id]) &&
                   forall j :: i < j < |items| ==> items[j].0 != id
  {
    if items != [] {
      var n := |items| - 1;
      LastInsertWins(m, items[..n], id);
      assert items == items[..n] + [items[n]];
      if items[n].0 == id {
        assert items[n] == (id, InsertAll(m, items)[id]);
      }
    }
  }

  /** `rows` lists a map: each entry is there, and as many rows as entries. */
  ghost predicate Lists(rows: seq<Item>, m: map<nat, Vector>) {
    && |rows| == |m|
    && (forall x :: x in rows ==> x.0 in m && m[x.0] == x.1)
    && (forall id :: id in m ==> (id, m[id]) in rows)
  }

  lemma {:induction false} InsertAllAgrees(rows: seq<Item>, m: map<nat, Vector>)
    requires forall x :: x in rows ==> x.0 in m && m[x.0] == x.1
    ensures forall id :: id in InsertAll(map[], rows) ==> id in m && m[id] == InsertAll(map[], rows)[id]
  {
    if rows != [] {
      var n := |rows| - 1;
      InsertAllAgrees(rows[..n], m);
      assert rows[n] in rows;
    }
  }

  lemma ListedMap(rows: seq<Item>, m: map<nat, Vector>)
    requires Lists(rows, m)
    ensures InsertAll(map[], rows) == m
  {
    InsertAllAgrees(rows, m);
    InsertAllKeys(map[], rows);
    forall id | id in m ensures id in InsertAll(map[], rows) {
      assert (id, m[id]) in rows;
    }
  }

  predicate ById(a: Item, b: Item) {
    a.0 <= b.0
  }

  /** A source that only lives in memory. */
  class MemorySource {
    var entities: map<Entity, map<nat, Vector>>

    constructor ()
      ensures entities == map[] && Disjoint()
    {
      entities := map[];
    }

    /** Every id belongs to one entity. */
    ghost predicate Disjoint()
      reads this
    {
      forall e, f, id :: e in entities && f in entities && id in entities[e] && id in entities[f] ==> e == f
    }

    function VectorsOf(e: Entity): map<nat, Vector>
      reads this
    {
      if e in entities then entities[e] else map[]
    }

    method EntityVectors(e: Entity) returns (rows: seq<Item>)
      ensures Lists(rows, VectorsOf(e)) && SortedBy(ById, rows)
    {
      rows := [];
      var m := VectorsOf(e);
      var rest := m.Keys;
      while rest != {}
        invariant rest <= m.Keys && |rows| + |rest| == |m|
        invariant forall x :: x in rows ==> x.0 in m && m[x.0] == x.1
        invariant forall id :: id in m && id !in rest ==> (id, m[id]) in rows
      {
        var id :| id in rest;
        rows := rows + [(id, m[id])];
        rest := rest - {id};
      }
      SortPermutes(ById, rows);
      SortSorts(ById, rows);
      rows := Sort(ById, rows);
    }

    /** Entities with at least one vector, each once, by name. */
    method Entities() returns (names: seq<Entity>)
      ensures Distinct(names) && SortedBy(LexLeq, names)
      ensures forall e :: e in names <==> e in entities && entities[e] != map[]
    {
      names := [];
      var rest := set e | e in entities && entities[e] != map[];
      while rest != {}
        invariant Distinct(names)
        invariant forall e :: e in rest ==> e in entities && entities[e] != map[] && e !in names
        invariant forall e :: e in entities && entities[e] != map[] ==> e in rest || e in names
        invariant forall e :: e in names ==> e in entities && entities[e] != map[]
      {
        var e :| e in rest;
        names := names + [e];
        rest := rest - {e};
      }
      LexIsTotalOrder();
      SortPermutes(LexLeq, names);
      SortSorts(LexLeq, names);
      SortKeepsDistinct(LexLeq, names);
      names := Sort(LexLeq, names);
    }

    /** Stored vectors by id; missing ids are omitted. */
    method VectorsById(ids: set<nat>) returns (found: map<nat, Vector>)
      ensures forall id :: id in found <==> id in ids && exists e :: e in entities && id in entities[e]
      ensures forall id :: id in found ==>
                exists e :: e in entities && id in entities[e] && entities[e][id] == found[id]
    {
      found := map[];
      var rest := ids;
      while rest != {}
        invariant rest <= ids
        invariant forall id :: id in found ==> id in ids && id !in rest
        invariant forall id :: id in ids && id !in rest && (exists e :: e in entities && id in entities[e]) ==>
                    id in found
        invariant forall id :: id in found ==>
                    exists e :: e in entities && id in entities[e] && entities[e][id] == found[id]
      {
        var id :| id in rest;
        rest := rest - {id};
        if e :| e in entities && id in entities[e] {
          found := found[id := entities[e][id]];
        }
      }
    }

    /** Stores the items under `e`; an id listed elsewhere moves here. */
    method RecordInsert(e: Entity, items: seq<Item>)
      modifies this
      ensures old(Disjoint()) ==> Disjoint()
      ensures VectorsOf(e) == InsertAll(old(VectorsOf(e)), items)
      ensures forall f :: f != e ==> VectorsOf(f) == old(VectorsOf(f)) - ItemIds(items)
    {
      var all := entities;
      var n := 0;
      while n < |items|
        invariant 0 <= n <= |items|
        invariant all.Keys == entities.Keys
        invariant forall f :: f in all ==> all[f] == if f == e then entities[f] else entities[f] - ItemIds(items[..n])
      {
        var id := items[n].0;
        all := map f | f in all :: if f == e then all[f] else all[f] - {id};
        assert items[..n + 1] == items[..n] + [items[n]];
        assert ItemIds(items[..n + 1]) == ItemIds(items[..n]) + {id};
        n := n + 1;
      }
      assert items[..n] == items;
      var vectors := VectorsOf(e);
      n := 0;
      while n < |items|
        invariant 0 <= n <= |items|
        invariant vectors == InsertAll(VectorsOf(e), items[..n])
      {
        assert items[..n + 1][..n] == items[..n];
        vectors := vectors[items[n].0 := items[n].1];
        n := n + 1;
      }
      assert items[..n] == items;
      InsertAllKeys(VectorsOf(e), items);
      entities := all[e := vectors];
    }

    method RecordRemove(e: Entity, id: nat)
      modifies this
      ensures old(Disjoint()) ==> Disjoint()
      ensures VectorsOf(e) == old(VectorsOf(e)) - {id}
      ensures forall f :: f != e ==> VectorsOf(f) == old(VectorsOf(f))
    {
      if e in entities {
        entities := entities[e := entities[e] - {id}];
      }
    }

    method RecordClear(e: Option<Entity>)
      modifies this
      ensures old(Disjoint()) ==> Disjoint()
      ensures forall f :: VectorsOf(f) == if e == None || e == Some(f) then map[] else old(VectorsOf(f))
    {
      match e {
        case Some(name) => entities := entities - {name};
        case None => entities := map[];
      }
    }
  }

  /** `hnswSearch` stands for the foreign approximate index; nothing is assumed of its answers. */
  datatype Config = Config(
    dims: nat,
    quantization: Quantization,
    flatThreshold: nat,
    rescoreFactor: nat,
    numerics: Numerics,
    hnswSearch: (map<nat, Vector>, Vector, nat) -> seq<Hit>)

  datatype Slot = Unloaded | Flat(segment: FlatSegment) | Hnsw(vectors: map<nat, Vector>)

  /** An entity without a slot has nothing loaded. */
  function SlotIn(slots: map<Entity, Slot>, e: Entity): Slot {
    if e in slots then slots[e] else Unloaded
  }

  /** What was loaded is still loaded, in the same form; what was not, is not. */
  predicate KeepsForm(before: Slot, after: Slot) {
    match before
    case Unloaded => after == Unloaded
    case Flat(_) => after == before
    case Hnsw(_) => after.Hnsw?
  }

  /** The slot of an entity that has come to hold `size` vectors: a flat segment over the threshold is dropped. */
  predicate SlotAfterInsert(threshold: nat, before: Slot, after: Slot, size: nat) {
    if before.Flat? && size > threshold then after == Unloaded else KeepsForm(before, after)
  }

  ghost function Encoded(config: Config, m: map<nat, Vector>): map<nat, Code> {
    map id | id in m :: Encode(config.numerics, config.quantization, m[id])
  }

  ghost predicate Shaped(config: Config, segment: FlatSegment)
    reads segment
  {
    && segment.Valid() && segment.dims == config.dims
    && segment.numerics == config.numerics && segment.quantization == config.quantization
  }

  /** `segment` is configured as `config` says and holds the codes of exactly `m`. */
  ghost predicate Holds(config: Config, segment: FlatSegment, m: map<nat, Vector>)
    reads segment
  {
    Shaped(config, segment) && segment.Contents() == Encoded(config, m) && WellDimensioned(config, m)
  }

  ghost predicate WellDimensioned(config: Config, m: map<nat, Vector>) {
    forall id :: id in m ==> |m[id]| == config.dims
  }

  method UpsertItem(config: Config, segment: FlatSegment, ghost m: map<nat, Vector>, item: Item)
    requires Holds(config, segment, m) && |item.1| == config.dims
    modifies segment
    ensures Holds(config, segment, m[item.0 := item.1])
  {
    EncodedInsert(config, m, item.0, item.1);
    segment.Upsert(item.0, item.1);
  }

  lemma EncodedInsert(config: Config, m: map<nat, Vector>, id: nat, v: Vector)
    ensures Encoded(config, m[id := v]) == Encoded(config, m)[id := Encode(config.numerics, config.quantization, v)]
  {}

  method UpsertItems(config: Config, segment: FlatSegment, ghost m: map<nat, Vector>, items: seq<Item>)
    requires Holds(config, segment, m) && forall x :: x in items ==> |x.1| == config.dims
    modifies segment
    ensures Holds(config, segment, InsertAll(m, items))
  {
    var n := 0;
    while n < |items|
      invariant 0 <= n <= |items| && Holds(config, segment, InsertAll(m, items[..n]))
    {
      InsertAllNext(m, items, n);
      assert items[n] in items;
      UpsertItem(config, segment, InsertAll(m, items[..n]), items[n]);
      n := n + 1;
    }
    assert items[..n] == items;
  }

  method RemoveItem(config: Config, segment: FlatSegment, ghost m: map<nat, Vector>, id: nat) returns (removed: bool)
    requires Holds(config, segment, m)
    modifies segment
    ensures Holds(config, segment, m - {id}) && removed == (id in m)
  {
    EncodedRemove(config, m, id);
    removed := segment.Remove(id);
  }

  lemma EncodedRemove(config: Config, m: map<nat, Vector>, id: nat)
    ensures Encoded(config, m - {id}) == Encoded(config, m) - {id}
    ensures id in Encoded(config, m) <==> id in m
  {}

  lemma StripSize(m: map<nat, Vector>, ids: set<nat>)
    ensures |m - ids| <= |m|
  {
    assert (m - ids).Keys <= m.Keys;
    SubsetCount((m - ids).Keys, m.Keys);
  }

  lemma SegmentSize(config: Config, segment: FlatSegment, m: map<nat, Vector>)
    requires Holds(config, segment, m)
    ensures |segment.ids| == |m|
  {
    assert m.Keys == Encoded(config, m).Keys == segment.positions.Keys;
    IdsCount(segment.ids, segment.positions);
  }

  lemma IdsCount(ids: seq<nat>, positions: map<nat, nat>)
    requires Inverse(ids, positions)
    ensures |ids| == |positions|
  {
    var hits := seq(|ids|, i requires 0 <= i < |ids| => Hit(ids[i], 0.0));
    UniqueIdsCount(hits);
    forall id | id in positions ensures id in Ids(hits) {
      assert hits[positions[id]] in hits;
    }
    assert Ids(hits) == positions.Keys;
  }

  lemma EncodedStrip(config: Config, m: map<nat, Vector>, ids: set<nat>)
    ensures Encoded(config, m) == Encoded(config, m - ids) <==> m.Keys !! ids
  {
    assert Encoded(config, m).Keys == m.Keys && Encoded(config, m - ids).Keys == m.Keys - ids;
    if m.Keys !! ids { assert m - ids == m; }
  }

  /** The true cosine similarities of every vector in `m`. */
  ghost function Similarities(config: Config, query: Vector, m: map<nat, Vector>): map<nat, real>
    requires |query| == config.dims && WellDimensioned(config, m)
  {
    map id | id in m :: Dot(query, Normalized(config.numerics, m[id]))
  }

  /** The candidates that a loaded slot gives: the best rows of a flat segment, or what the graph index answers. */
  ghost function HitsOf(config: Config, slot: Slot, query: Vector, k: nat): seq<Hit>
    reads if slot.Flat? then {slot.segment} else {}
  {
    match slot
    case Unloaded => []
    case Flat(segment) =>
      if Shaped(config, segment) && |query| == config.dims > 0 then segment.Best(query, k) else []
    case Hnsw(vectors) => config.hnswSearch(vectors, query, k)
  }

  /** The candidates of several entities, one after the other. */
  ghost function AllHits(config: Config, slots: map<Entity, Slot>, names: seq<Entity>, query: Vector, k: nat): seq<Hit>
    reads set e | e in slots && slots[e].Flat? :: slots[e].segment
  {
    if names == [] then []
    else
      var n := |names| - 1;
      AllHits(config, slots, names[..n], query, k) +
        if names[n] in slots then HitsOf(config, slots[names[n]], query, k) else []
  }

  lemma {:induction false} AllHitsKept(config: Config, slots: map<Entity, Slot>, slots': map<Entity, Slot>,
        names: seq<Entity>, query: Vector, k: nat)
    requires forall e :: e in names ==> e in slots && e in slots' && slots[e] == slots'[e]
    ensures AllHits(config, slots, names, query, k) == AllHits(config, slots', names, query, k)
  {
    if names != [] {
      AllHitsKept(config, slots, slots', names[..|names| - 1], query, k);
    }
  }

  lemma AllHitsNext(config: Config, slots: map<Entity, Slot>, names: seq<Entity>, n: nat, query: Vector, k: nat)
    requires n < |names| && names[n] in slots
    ensures AllHits(config, slots, names[..n + 1], query, k) ==
              AllHits(config, slots, names[..n], query, k) + HitsOf(config, slots[names[n]], query, k)
  {
    assert names[..n + 1][..n] == names[..n];
  }

  lemma AllHitsOfOne(config: Config, slots: map<Entity, Slot>, names: seq<Entity>, query: Vector, k: nat)
    requires |names| == 1 && names[0] in slots
    ensures AllHits(config, slots, names, query, k) == HitsOf(config, slots[names[0]], query, k)
  {
    assert AllHits(config, slots, names[..0], query, k) == [];
  }

  function SaturatingMul(a: nat, b: nat): nat {
    Min(a * b, USIZE_MAX)
  }

  /** Distances back to similarities. */
  function AsHits(results: seq<(nat, real)>): (hits: seq<Hit>)
    ensures |hits| == |results|
  {
    seq(|results|, i requires 0 <= i < |results| => Hit(results[i].0, 1.0 - results[i].1))
  }

  class VectorIndex {
    const config: Config
    const source: MemorySource
    var slots: map<Entity, Slot>

    ghost function Segments(): set<FlatSegment>
      reads this
    {
      set e | e in slots && slots[e].Flat? :: slots[e].segment
    }

    ghost predicate Valid()
      reads this, Segments()
    {
      && config.dims > 0
      && (forall e :: e in slots && slots[e].Flat? ==> Shaped(config, slots[e].segment))
      && (forall e, f :: e in slots && f in slots && slots[e].Flat? && slots[f].Flat? && e != f ==>
            slots[e].segment != slots[f].segment)
    }

    ghost predicate SlotMatches(slot: Slot, m: map<nat, Vector>)
      reads if slot.Flat? then {slot.segment} else {}
    {
      match slot
      case Unloaded => true
      case Flat(segment) => Holds(config, segment, m) && |m| <= config.flatThreshold
      case Hnsw(vectors) => vectors == m
    }

    ghost predicate Matches(e: Entity)
      requires e in slots
      reads this, source, Segments()
    {
      SlotMatches(slots[e], source.VectorsOf(e))
    }

    /** Every loaded segment holds exactly what the source holds for its entity,
        and a flat one is never over the threshold. */
    ghost predicate Coherent()
      reads this, source, Segments()
    {
      forall e :: e in slots ==> Matches(e)
    }

    constructor (config: Config, source: MemorySource)
      requires config.dims > 0
      ensures this.config == config && this.source == source
      ensures Valid() && Coherent() && slots == map[]
    {
      this.config, this.source := config, source;
      slots := map[];
    }

    predicate RightDimensions(items: seq<Item>) {
      forall x :: x in items ==> |x.1| == config.dims
    }

    /** A segment holding `rows`, or an error when a row of a flat segment has the wrong dimension. */
    method BuildSegment(rows: seq<Item>) returns (built: Result<Slot>)
      requires config.dims > 0
      ensures |rows| > config.flatThreshold ==> built == Ok(Hnsw(InsertAll(map[], rows)))
      ensures |rows| <= config.flatThreshold ==> built.Ok? == RightDimensions(rows)
      ensures |rows| <= config.flatThreshold && built.Ok? ==>
                && built.value.Flat? && fresh(built.value.segment)
                && Holds(config, built.value.segment, InsertAll(map[], rows))
    {
      if |rows| > config.flatThreshold {
        return Ok(Hnsw(InsertAll(map[], rows)));
      }
      var flat := new FlatSegment(config.numerics, config.dims, config.quantization);
      var n := 0;
      while n < |rows|
        invariant 0 <= n <= |rows| && fresh(flat)
        invariant RightDimensions(rows[..n])
        invariant Holds(config, flat, InsertAll(map[], rows[..n]))
      {
        if |rows[n].1| != config.dims {
          assert rows[n] in rows;
          return Err;
        }
        UpsertItem(config, flat, InsertAll(map[], rows[..n]), rows[n]);
        assert rows[..n + 1][..n] == rows[..n] && rows[..n + 1] == rows[..n] + [rows[n]];
        n := n + 1;
      }
      assert rows[..n] == rows;
      return Ok(Flat(flat));
    }

    method PutSlot(e: Entity, slot: Slot)
      requires Valid() && Coherent() && SlotMatches(slot, source.VectorsOf(e))
      requires slot.Flat? ==> slot.segment !in Segments()
      modifies this`slots
      ensures Valid() && Coherent() && slots == old(slots)[e := slot]
    {
      slots := slots[e := slot];
    }

    predicate Loaded(e: Entity)
      reads this
    {
      e in slots && !slots[e].Unloaded?
    }

    /** A segment of what the source holds for `e`. */
    method BuildFromSource(e: Entity) returns (built: Result<Slot>)
      requires config.dims > 0
      ensures built.Ok? ==> !built.value.Unloaded? && SlotMatches(built.value, source.VectorsOf(e))
      ensures built.Ok? ==> (built.value.Flat? <==> |source.VectorsOf(e)| <= config.flatThreshold)
      ensures built.Ok? && built.value.Flat? ==> fresh(built.value.segment)
      ensures built.Err? ==> !WellDimensioned(config, source.VectorsOf(e))
    {
      var rows := source.EntityVectors(e);
      ListedMap(rows, source.VectorsOf(e));
      built := BuildSegment(rows);
    }

    /** Loads the entity's segment from the source unless it is loaded already. */
    method EnsureLoaded(e: Entity) returns (ok: bool)
      requires Valid() && Coherent()
      modifies this`slots
      ensures Valid() && Coherent()
      ensures forall f :: f in old(slots) && (f != e || old(Loaded(e))) ==> f in slots && slots[f] == old(slots)[f]
      ensures ok ==> Loaded(e)
      ensures ok && !old(Loaded(e)) ==> (slots[e].Flat? <==> |source.VectorsOf(e)| <= config.flatThreshold)
      ensures !ok ==> !WellDimensioned(config, source.VectorsOf(e))
    {
      if e in slots && !slots[e].Unloaded? {
        return true;
      }
      var built := BuildFromSource(e);
      if built.Err? {
        PutSlot(e, Unloaded);
        return false;
      }
      PutSlot(e, built.value);
      return true;
    }

    /** No other loaded segment holds one of these ids. */
    ghost predicate KeepsEntity(e: Entity, ids: set<nat>)
      reads this, source
    {
      forall f :: f != e && Loaded(f) ==> source.VectorsOf(f).Keys !! ids
    }

    method CheckDimensions(items: seq<Item>) returns (ok: bool)
      ensures ok == RightDimensions(items)
    {
      var n := 0;
      while n < |items|
        invariant 0 <= n <= |items|
        invariant RightDimensions(items[..n])
      {
        if |items[n].1| != config.dims {
          assert items[n] in items;
          return false;
        }
        n := n + 1;
      }
      assert items[..n] == items;
      return true;
    }

    /** The loaded part of an insert; crossing the threshold drops the segment. */
    method UpsertSlot(e: Entity, ghost m: map<nat, Vector>, items: seq<Item>)
      requires Valid() && e in slots && SlotMatches(slots[e], m) && RightDimensions(items)
      modifies this`slots, if slots[e].Flat? then {slots[e].segment} else {}
      ensures Valid() && slots.Keys == old(slots.Keys)
      ensures forall f :: f in slots && f != e ==> slots[f] == old(slots)[f]
      ensures SlotMatches(slots[e], InsertAll(m, items))
      ensures SlotAfterInsert(config.flatThreshold, old(slots[e]), slots[e], |InsertAll(m, items)|)
      ensures forall f :: f in slots && f != e && slots[f].Flat? ==> unchanged(slots[f].segment)
    {
      match slots[e] {
        case Unloaded =>
        case Flat(flat) =>
          UpsertItems(config, flat, m, items);
          SegmentSize(config, flat, InsertAll(m, items));
          if |flat.ids| > config.flatThreshold {
            // Rebuilt as HNSW from the source on next use.
            slots := slots[e := Unloaded];
          }
        case Hnsw(vectors) =>
          slots := slots[e := Hnsw(InsertAll(vectors, items))];
      }
    }

    lemma StripMatches(slot: Slot, m: map<nat, Vector>, ids: set<nat>)
      requires SlotMatches(slot, m)
      ensures SlotMatches(slot, m - ids) <==> slot.Unloaded? || m.Keys !! ids
    {
      EncodedStrip(config, m, ids);
      StripSize(m, ids);
      if m.Keys !! ids { assert m - ids == m; }
    }

    lemma CoherentAfterStrip(e: Entity, ids: set<nat>, before: map<Entity, map<nat, Vector>>)
      requires e in slots && Matches(e)
      requires forall f :: f in slots && f != e ==>
                 f in before && SlotMatches(slots[f], before[f]) && source.VectorsOf(f) == before[f] - ids
      ensures Coherent() <==> forall f :: f in slots && f != e && !slots[f].Unloaded? ==> before[f].Keys !! ids
    {
      forall f | f in slots && f != e
        ensures Matches(f) <==> slots[f].Unloaded? || before[f].Keys !! ids
      {
        StripMatches(slots[f], before[f], ids);
      }
    }

    /** The entity's slot, created empty on first use. */
    method TouchSlot(e: Entity)
      requires Valid()
      modifies this`slots
      ensures Valid() && Segments() == old(Segments())
      ensures slots == if e in old(slots) then old(slots) else old(slots)[e := Unloaded]
    {
      if e !in slots {
        slots := slots[e := Unloaded];
      }
      forall s | s in old(Segments()) ensures s in Segments() {
        var f :| f in old(slots) && old(slots)[f].Flat? && old(slots)[f].segment == s;
        assert slots[f] == old(slots)[f];
      }
    }

    /** The slot's part of a write. */
    method StoreInSlot(e: Entity, ghost before: map<nat, Vector>, items: seq<Item>)
      requires Valid() && (e in slots ==> SlotMatches(slots[e], before)) && RightDimensions(items)
      modifies this`slots, Segments()
      ensures Valid() && e in slots && SlotMatches(slots[e], InsertAll(before, items))
      ensures SlotAfterInsert(config.flatThreshold, old(SlotIn(slots, e)), slots[e], |InsertAll(before, items)|)
      ensures forall f :: f != e ==> (f in slots <==> f in old(slots))
      ensures forall f :: f != e && f in slots ==>
                slots[f] == old(slots)[f] && (slots[f].Flat? ==> unchanged(slots[f].segment))
    {
      TouchSlot(e);
      assert slots[e].Flat? ==> slots[e].segment in Segments();
      UpsertSlot(e, before, items);
    }

    /** The write itself: source first, then the entity's slot. */
    method StoreItems(e: Entity, items: seq<Item>)
      requires Valid() && Coherent() && RightDimensions(items)
      modifies this`slots, source, Segments()
      ensures Valid() && e in slots && Matches(e)
      ensures old(source.Disjoint()) ==> source.Disjoint()
      ensures source.VectorsOf(e) == InsertAll(old(source.VectorsOf(e)), items)
      ensures SlotAfterInsert(config.flatThreshold, old(SlotIn(slots, e)), slots[e], |source.VectorsOf(e)|)
      ensures forall f :: f != e ==> source.VectorsOf(f) == old(source.VectorsOf(f)) - ItemIds(items)
      ensures forall f :: f != e ==> (f in slots <==> f in old(slots))
      ensures forall f :: f != e && f in slots ==>
                slots[f] == old(slots)[f] && SlotMatches(slots[f], old(source.VectorsOf(f)))
    {
      ghost var before := source.VectorsOf(e);
      assert e in slots ==> Matches(e);
      source.RecordInsert(e, items);
      StoreInSlot(e, before, items);
      forall f | f != e && f in slots ensures SlotMatches(slots[f], old(source.VectorsOf(f))) {
        assert old(Matches(f));
      }
    }

    /** Adds or replaces vectors in the source and, when it is loaded, in the entity's segment.
        The cache stays coherent exactly when no id moves here from another loaded entity. */
    method InsertBatch(e: Entity, items: seq<Item>) returns (ok: bool)
      requires Valid() && Coherent()
      modifies this`slots, source, Segments()
      ensures Valid() && (old(source.Disjoint()) ==> source.Disjoint())
      ensures ok == RightDimensions(items)
      ensures source.VectorsOf(e) == if ok then InsertAll(old(source.VectorsOf(e)), items) else old(source.VectorsOf(e))
      ensures forall f :: f != e ==> source.VectorsOf(f) == old(source.VectorsOf(f)) - if ok then ItemIds(items) else {}
      ensures forall f :: f != e ==> (f in slots <==> f in old(slots))
      ensures forall f :: f != e && f in slots ==>
                slots[f] == old(slots)[f] && SlotMatches(slots[f], old(source.VectorsOf(f)))
      ensures if ok && items != []
              then SlotAfterInsert(config.flatThreshold, old(SlotIn(slots, e)), SlotIn(slots, e), |source.VectorsOf(e)|)
              else slots == old(slots)
      ensures Coherent() <==> !ok || old(KeepsEntity(e, ItemIds(items)))
    {
      assert forall f :: f in slots ==> Matches(f);
      if items == [] {
        assert forall f :: source.VectorsOf(f) - ItemIds(items) == source.VectorsOf(f);
        return true;
      }
      ok := CheckDimensions(items);
      if ok {
        ghost var before := map f | f in slots :: source.VectorsOf(f);
        StoreItems(e, items);
        CoherentAfterStrip(e, ItemIds(items), before);
      }
    }

    /** Removes a vector from the source and from the loaded segment; returns how many the latter held. */
    method Remove(e: Entity, id: nat) returns (count: nat)
      requires Valid() && Coherent()
      modifies this`slots, source, Segments()
      ensures Valid() && Coherent() && (old(source.Disjoint()) ==> source.Disjoint())
      ensures source.VectorsOf(e) == old(source.VectorsOf(e)) - {id}
      ensures forall f :: f != e ==> source.VectorsOf(f) == old(source.VectorsOf(f))
      ensures count == if old(Loaded(e)) && id in old(source.VectorsOf(e)) then 1 else 0
      ensures KeepsForm(old(SlotIn(slots, e)), SlotIn(slots, e))
      ensures forall f :: f != e ==> (f in slots <==> f in old(slots)) && SlotIn(slots, f) == old(SlotIn(slots, f))
    {
      ghost var before := source.VectorsOf(e);
      assert forall f :: f in slots ==> Matches(f);
      source.RecordRemove(e, id);
      count := DropItem(e, before, id);
    }

    method DropItem(e: Entity, ghost before: map<nat, Vector>, id: nat) returns (count: nat)
      requires Valid() && source.VectorsOf(e) == before - {id}
      requires e in slots ==> SlotMatches(slots[e], before)
      requires forall f :: f in slots && f != e ==> Matches(f)
      modifies this`slots, Segments()
      ensures Valid() && Coherent()
      ensures count == if old(Loaded(e)) && id in before then 1 else 0
      ensures KeepsForm(old(SlotIn(slots, e)), SlotIn(slots, e))
      ensures forall f :: f != e ==> (f in slots <==> f in old(slots)) && SlotIn(slots, f) == old(SlotIn(slots, f))
    {
      hide KeepsForm, SlotMatches, Shaped;
      TouchSlot(e);
      assert slots[e].Flat? ==> slots[e].segment in Segments();
      count := RemoveFromSlot(e, before, id);
      forall f | f != e && f in slots ensures Matches(f) {
        assert old(Matches(f));
        assert slots[f].Flat? ==> unchanged(slots[f].segment);
      }
      assert Matches(e);
    }

    method RemoveFromSlot(e: Entity, ghost m: map<nat, Vector>, id: nat) returns (count: nat)
      requires Valid() && e in slots && SlotMatches(slots[e], m)
      modifies this`slots, if slots[e].Flat? then {slots[e].segment} else {}
      ensures Valid() && slots.Keys == old(slots.Keys)
      ensures forall f :: f in slots && f != e ==> slots[f] == old(slots)[f]
      ensures forall f :: f in slots && f != e && slots[f].Flat? ==> unchanged(slots[f].segment)
      ensures SlotMatches(slots[e], m - {id}) && KeepsForm(old(slots[e]), slots[e])
      ensures count == if old(Loaded(e)) && id in m then 1 else 0
    {
      match slots[e] {
        case Unloaded =>
          return 0;
        case Flat(flat) =>
          var removed := RemoveItem(config, flat, m, id);
          StripSize(m, {id});
          return if removed then 1 else 0;
        case Hnsw(vectors) =>
          slots := slots[e := Hnsw(vectors - {id})];
          return if id in vectors then 1 else 0;
      }
    }

    /** Forgets one entity, or all; segments reload from the source on next use. */
    method Clear(e: Option<Entity>)
      requires Valid() && Coherent()
      modifies this`slots, source
      ensures Valid() && Coherent() && (old(source.Disjoint()) ==> source.Disjoint())
      ensures forall f :: source.VectorsOf(f) == if e == None || e == Some(f) then map[] else old(source.VectorsOf(f))
      ensures slots == if e.None? then map[] else old(slots) - {e.value}
    {
      assert forall f :: f in slots ==> Matches(f);
      source.RecordClear(e);
      match e {
        case Some(name) => slots := slots - {name};
        case None => slots := map[];
      }
    }

    // ----- Search -----

    /** Candidates from one loaded segment. */
    method ScanSlot(e: Entity, query: Vector, candidates: nat) returns (hits: seq<Hit>)
      requires Valid() && Coherent() && Loaded(e) && |query| == config.dims
      ensures hits == HitsOf(config, slots[e], query, candidates)
      ensures slots[e].Flat? ==>
                && WellDimensioned(config, source.VectorsOf(e))
                && var m := source.VectorsOf(e); Candidates(config, hits, query, candidates, |m| <= candidates, m)
    {
      hide Candidates, IsTopK, IsNearTopK, IdealTo, ToleranceTo;
      assert Matches(e);
      match slots[e] {
        case Flat(flat) =>
          hits := flat.Scan(query, candidates);
          FlatCandidates(config, flat, source.VectorsOf(e), hits, query, candidates);
        case Hnsw(vectors) =>
          hits := config.hnswSearch(vectors, query, candidates);
      }
    }

    method LoadAndScan(e: Entity, query: Vector, candidates: nat) returns (ok: bool, hits: seq<Hit>)
      requires Valid() && Coherent() && |query| == config.dims
      modifies this`slots
      ensures Valid() && Coherent()
      ensures forall f :: old(Loaded(f)) ==> Loaded(f) && slots[f] == old(slots)[f]
      ensures ok ==> Loaded(e)
      ensures !ok ==> !WellDimensioned(config, source.VectorsOf(e))
      ensures ok ==> hits == HitsOf(config, slots[e], query, candidates)
      ensures ok && slots[e].Flat? ==>
                && WellDimensioned(config, source.VectorsOf(e))
                && var m := source.VectorsOf(e); Candidates(config, hits, query, candidates, |m| <= candidates, m)
    {
      hide IdealTo, ToleranceTo;
      hits := [];
      ok := EnsureLoaded(e);
      if ok {
        hits := ScanSlot(e, query, candidates);
      }
    }

    /** Some entity's stored vectors do not have the configured dimension. */
    ghost predicate Misfits(names: seq<Entity>)
      reads source
    {
      exists i :: 0 <= i < |names| && !WellDimensioned(config, source.VectorsOf(names[i]))
    }

    ghost predicate AllFlat(names: seq<Entity>)
      reads this
    {
      forall i :: 0 <= i < |names| ==> names[i] in slots && slots[names[i]].Flat?
    }

    /** Every searched segment has room among its own candidates. */
    ghost predicate AllFit(names: seq<Entity>, candidates: nat)
      reads source
    {
      forall i :: 0 <= i < |names| ==> |source.VectorsOf(names[i])| <= candidates
    }

    /** The vectors a search over `names` ranges over. */
    ghost function Scope(names: seq<Entity>): map<nat, Vector>
      reads source
    {
      if names == [] then map[] else Scope(names[..|names| - 1]) + source.VectorsOf(names[|names| - 1])
    }

    ghost predicate InScope(names: seq<Entity>, id: nat)
      reads source
    {
      exists i :: 0 <= i < |names| && id in source.VectorsOf(names[i])
    }

    lemma {:induction false} ScopeKeys(names: seq<Entity>, id: nat)
      ensures id in Scope(names) <==> InScope(names, id)
    {
      if names != [] {
        var n := |names| - 1;
        var front := names[..n];
        ScopeKeys(front, id);
        if InScope(front, id) {
          var i :| 0 <= i < n && id in source.VectorsOf(front[i]);
          assert id in source.VectorsOf(names[i]);
        }
        if InScope(names, id) && id !in source.VectorsOf(names[n]) {
          var i :| 0 <= i < |names| && id in source.VectorsOf(names[i]);
          assert front[i] == names[i];
        }
      }
    }

    lemma {:induction false} ScopeValue(names: seq<Entity>, i: nat, id: nat)
      requires source.Disjoint() && i < |names| && id in source.VectorsOf(names[i])
      ensures id in Scope(names) && Scope(names)[id] == source.VectorsOf(names[i])[id]
    {
      var n := |names| - 1;
      if i < n {
        assert names[..n][i] == names[i];
        ScopeValue(names[..n], i, id);
      }
    }

    lemma ScopeEntries(names: seq<Entity>)
      requires source.Disjoint()
      ensures forall i, id :: 0 <= i < |names| && id in source.VectorsOf(names[i]) ==>
                id in Scope(names) && Scope(names)[id] == source.VectorsOf(names[i])[id]
      ensures forall id :: id in Scope(names) ==> InScope(names, id)
    {
      forall i, id | 0 <= i < |names| && id in source.VectorsOf(names[i])
        ensures id in Scope(names) && Scope(names)[id] == source.VectorsOf(names[i])[id]
      {
        ScopeValue(names, i, id);
      }
      forall id | id in Scope(names) ensures InScope(names, id) {
        ScopeKeys(names, id);
      }
    }

    /** The entities a search visits. */
    ghost predicate Visits(names: seq<Entity>, entity: Option<Entity>)
      reads source
    {
      && (forall i, j :: 0 <= i < j < |names| ==> names[i] != names[j])
      && match entity
         case Some(e) => names == [e]
         case None => forall e :: e in names <==> e in source.entities && source.entities[e] != map[]
    }

    /** What gathering over `names` has established when every visited segment is flat. */
    ghost predicate Gathered(names: seq<Entity>, hits: seq<Hit>, query: Vector, candidates: nat)
      requires |query| == config.dims
      reads source
    {
      && WellDimensioned(config, Scope(names))
      && Candidates(config, hits, query, candidates, AllFit(names, candidates), Scope(names))
    }

    /** What gathering over `names` has established. */
    ghost predicate Collected(names: seq<Entity>, hits: seq<Hit>, query: Vector, candidates: nat)
      requires Valid() && |query| == config.dims
      reads this, source, Segments()
    {
      && AllLoaded(names) && (AllFlat(names) ==> Gathered(names, hits, query, candidates))
      && hits == AllHits(config, slots, names, query, candidates)
    }

    /** Loads each entity in turn and collects its candidates. */
    method Gather(names: seq<Entity>, query: Vector, candidates: nat) returns (ok: bool, hits: seq<Hit>)
      requires Valid() && Coherent() && source.Disjoint() && |query| == config.dims
      requires forall i, j :: 0 <= i < j < |names| ==> names[i] != names[j]
      modifies this`slots
      ensures Valid() && Coherent()
      ensures if ok then Collected(names, hits, query, candidates) else Misfits(names)
    {
      hits := [];
      var n := 0;
      NothingCollected(query, candidates);
      assert names[..0] == [];
      while n < |names|
        invariant 0 <= n <= |names| && Valid() && Coherent() && Collected(names[..n], hits, query, candidates)
      {
        ok, hits := GatherNext(names, n, hits, query, candidates);
        if !ok {
          return;
        }
        n := n + 1;
      }
      assert names[..n] == names;
      ok := true;
    }

    lemma NothingCollected(query: Vector, candidates: nat)
      requires Valid() && |query| == config.dims
      ensures Collected([], [], query, candidates)
    {
      hide IdealTo, ToleranceTo, Dot;
      assert Scope([]) == map[];
    }

    method GatherNext(names: seq<Entity>, n: nat, before: seq<Hit>, query: Vector, candidates: nat)
      returns (ok: bool, hits: seq<Hit>)
      requires Valid() && Coherent() && source.Disjoint() && |query| == config.dims && n < |names|
      requires forall i, j :: 0 <= i < j < |names| ==> names[i] != names[j]
      requires Collected(names[..n], before, query, candidates)
      modifies this`slots
      ensures Valid() && Coherent()
      ensures if ok then Collected(names[..n + 1], hits, query, candidates) else Misfits(names)
    {
      hide Gathered, Candidates, AllHits, HitsOf, SlotMatches;
      ghost var slots' := slots;
      ghost var flat := AllFlat(names[..n]);
      ok, hits := LoadAndScan(names[n], query, candidates);
      if ok {
        CollectedNext(names, n, slots', flat, before, hits, query, candidates);
      }
      hits := before + hits;
    }

    lemma CollectedNext(names: seq<Entity>, n: nat, slots': map<Entity, Slot>, flat: bool, before: seq<Hit>,
          more: seq<Hit>, query: Vector, candidates: nat)
      requires Valid() && source.Disjoint() && |query| == config.dims && n < |names|
      requires forall i, j :: 0 <= i < j < |names| ==> names[i] != names[j]
      requires forall e :: e in slots' && !slots'[e].Unloaded? ==> e in slots && slots[e] == slots'[e]
      requires forall e :: e in names[..n] ==> e in slots' && !slots'[e].Unloaded?
      requires flat <==> forall i :: 0 <= i < n ==> names[..n][i] in slots' && slots'[names[..n][i]].Flat?
      requires flat ==> Gathered(names[..n], before, query, candidates)
      requires before == AllHits(config, slots', names[..n], query, candidates)
      requires Loaded(names[n]) && more == HitsOf(config, slots[names[n]], query, candidates)
      requires slots[names[n]].Flat? ==>
                 && WellDimensioned(config, source.VectorsOf(names[n]))
                 && var m := source.VectorsOf(names[n]);
                    Candidates(config, more, query, candidates, |m| <= candidates, m)
      ensures Collected(names[..n + 1], before + more, query, candidates)
    {
      hide IdealTo, ToleranceTo, AllHits, HitsOf;
      assert names[..n + 1] == names[..n] + [names[n]];
      if AllFlat(names[..n + 1]) {
        FlatBefore(names, n, slots');
        GatherStep(names, n, before, more, query, candidates);
      }
      AllHitsKept(config, slots, slots', names[..n], query, candidates);
      AllHitsNext(config, slots, names, n, query, candidates);
    }

    ghost predicate AllLoaded(names: seq<Entity>)
      reads this
    {
      forall e :: e in names ==> Loaded(e)
    }

    lemma FlatBefore(names: seq<Entity>, n: nat, before: map<Entity, Slot>)
      requires n < |names| && AllFlat(names[..n + 1])
      requires forall e :: e in before && !before[e].Unloaded? ==> e in slots && slots[e] == before[e]
      ensures names[n] in slots && slots[names[n]].Flat?
      ensures (forall e :: e in names[..n] ==> e in before && !before[e].Unloaded?) ==>
                forall i :: 0 <= i < n ==> names[..n][i] in before && before[names[..n][i]].Flat?
    {
      assert names[..n + 1][n] == names[n];
      forall i | 0 <= i < n
        ensures names[..n][i] in slots && slots[names[..n][i]].Flat? && names[..n][i] in names[..n]
      {
        assert names[..n + 1][i] == names[..n][i];
      }
    }

    lemma ScopeNext(names: seq<Entity>, n: nat)
      requires n < |names|
      ensures Scope(names[..n + 1]) == Scope(names[..n]) + source.VectorsOf(names[n])
    {
      assert names[..n + 1][..n] == names[..n];
    }

    lemma ScopesApart(names: seq<Entity>, n: nat)
      requires source.Disjoint() && n < |names|
      requires forall i, j :: 0 <= i < j < |names| ==> names[i] != names[j]
      ensures Scope(names[..n]).Keys !! source.VectorsOf(names[n]).Keys
    {
      forall id | id in Scope(names[..n]) ensures id !in source.VectorsOf(names[n]) {
        ScopeKeys(names[..n], id);
        var i :| 0 <= i < n && id in source.VectorsOf(names[..n][i]);
        assert names[i] != names[n];
      }
    }

    lemma FitNext(names: seq<Entity>, n: nat, candidates: nat)
      requires n < |names| && AllFit(names[..n + 1], candidates)
      ensures AllFit(names[..n], candidates) && |source.VectorsOf(names[n])| <= candidates
    {
      assert names[..n + 1][n] == names[n];
      forall i | 0 <= i < n ensures |source.VectorsOf(names[..n][i])| <= candidates {
        assert names[..n + 1][i] == names[..n][i];
      }
    }

    lemma GatherStep(names: seq<Entity>, n: nat, hits: seq<Hit>, more: seq<Hit>, query: Vector, candidates: nat)
      requires source.Disjoint() && |query| == config.dims && n < |names|
      requires forall i, j :: 0 <= i < j < |names| ==> names[i] != names[j]
      requires Gathered(names[..n], hits, query, candidates)
      requires WellDimensioned(config, source.VectorsOf(names[n]))
      requires var m := source.VectorsOf(names[n]); Candidates(config, more, query, candidates, |m| <= candidates, m)
      ensures Gathered(names[..n + 1], hits + more, query, candidates)
    {
      var m := source.VectorsOf(names[n]);
      ScopeNext(names, n);
      ScopesApart(names, n);
      if AllFit(names[..n + 1], candidates) { FitNext(names, n, candidates); }
      JoinCandidates(config, hits, Scope(names[..n]), AllFit(names[..n], candidates), more, m, |m| <= candidates,
          query, candidates);
    }

    /** Replaces estimates by the similarities of the stored vectors, dropping ids the source no longer has. */
    method Rescore(hits: seq<Hit>, full: map<nat, Vector>, query: Vector) returns (rescored: seq<Hit>)
      ensures rescored == Rescored(config, hits, full, query)
    {
      rescored := [];
      var n := 0;
      while n < |hits|
        invariant 0 <= n <= |hits|
        invariant rescored == Rescored(config, hits[..n], full, query)
      {
        assert hits[..n + 1][..n] == hits[..n];
        if hits[n].id in full {
          var sim := DotF32(query, Normalized(config.numerics, full[hits[n].id]));
          rescored := rescored + [Hit(hits[n].id, sim)];
        }
        n := n + 1;
      }
      assert hits[..n] == hits;
    }

    lemma {:induction false} FlatScope(names: seq<Entity>)
      requires Valid() && Coherent() && AllFlat(names)
      ensures WellDimensioned(config, Scope(names))
    {
      if names != [] {
        var n := |names| - 1;
        assert forall i :: 0 <= i < n ==> names[..n][i] == names[i];
        FlatScope(names[..n]);
        assert Matches(names[n]);
      }
    }

    lemma FoundAgrees(names: seq<Entity>, full: map<nat, Vector>, ids: set<nat>)
      requires source.Disjoint() && ids <= Scope(names).Keys
      requires forall id :: id in ids && (exists e :: e in source.entities && id in source.entities[e]) ==> id in full
      requires forall id :: id in full ==>
                 exists e :: e in source.entities && id in source.entities[e] && source.entities[e][id] == full[id]
      ensures forall id :: id in ids ==> id in full && full[id] == Scope(names)[id]
    {
      ScopeEntries(names);
      forall id | id in ids ensures id in full && full[id] == Scope(names)[id] {
        var i :| 0 <= i < |names| && id in source.VectorsOf(names[i]);
        assert names[i] in source.entities;
        var e :| e in source.entities && id in source.entities[e] && source.entities[e][id] == full[id];
        assert e == names[i];
      }
    }

    /** Names a stored vector and carries its similarity to the query. */
    ghost predicate TrulyScored(h: Hit, query: Vector)
      reads source
    {
      exists e :: e in source.entities && h.id in source.entities[e] &&
        h.sim == ChunkedDot(query, Normalized(config.numerics, source.entities[e][h.id]))
    }

    /** What refining makes of gathered candidates. */
    ghost predicate RefinedFlat(names: seq<Entity>, hits: seq<Hit>, refined: seq<Hit>, query: Vector, candidates: nat)
      requires |query| == config.dims
      reads source
    {
      && refined == Refined(config, hits, Scope(names), query)
      && UniqueIds(refined) && WellDimensioned(config, Scope(names))
      && TrueScores(refined, Similarities(config, query, Scope(names)))
      && Ids(refined) == Ids(hits)
    }

    /** `full` is what the source answers for these ids. */
    ghost predicate IsLookup(full: map<nat, Vector>, ids: set<nat>)
      reads source
    {
      && (forall id :: id in full <==> id in ids && exists e :: e in source.entities && id in source.entities[e])
      && forall id :: id in full ==>
           exists e :: e in source.entities && id in source.entities[e] && source.entities[e][id] == full[id]
    }

    /** The hits with the similarities of what the source answers for them. */
    ghost predicate IsRefined(hits: seq<Hit>, refined: seq<Hit>, query: Vector)
      reads source
    {
      exists full ::
        (config.quantization.F32? || IsLookup(full, Ids(hits))) && refined == Refined(config, hits, full, query)
    }

    /** Estimates become true similarities, whatever the hits were; in full precision they already are. */
    method Refine(hits: seq<Hit>, query: Vector, ghost names: seq<Entity>, ghost candidates: nat)
      returns (refined: seq<Hit>)
      requires Valid() && source.Disjoint() && |query| == config.dims
      ensures IsRefined(hits, refined, query)
      ensures !config.quantization.F32? ==> forall h :: h in refined ==> TrulyScored(h, query)
      ensures UniqueIds(hits) ==> UniqueIds(refined)
      ensures AllFlat(names) && Gathered(names, hits, query, candidates) ==>
                RefinedFlat(names, hits, refined, query, candidates)
    {
      hide Gathered, RefinedFlat, IsRefined, TrulyScored, Rescored;
      refined := hits;
      if !config.quantization.F32? && hits != [] {
        var full := source.VectorsById(set h | h in hits :: h.id);
        refined := Rescore(hits, full, query);
        LookupRefines(hits, full, refined, query);
        if AllFlat(names) && Gathered(names, hits, query, candidates) {
          RefinesFlat(names, hits, full, query, candidates);
        }
      } else {
        NothingToRefine(hits, query);
        if Gathered(names, hits, query, candidates) { UnrefinedFlat(names, hits, query, candidates); }
      }
    }

    lemma UnrefinedFlat(names: seq<Entity>, hits: seq<Hit>, query: Vector, candidates: nat)
      requires |query| == config.dims && (config.quantization.F32? || hits == [])
      requires Gathered(names, hits, query, candidates)
      ensures RefinedFlat(names, hits, hits, query, candidates)
    {
      hide Shortlisted;
    }

    lemma LookupRefines(hits: seq<Hit>, full: map<nat, Vector>, refined: seq<Hit>, query: Vector)
      requires IsLookup(full, Ids(hits)) && !config.quantization.F32? && refined == Rescored(config, hits, full, query)
      ensures IsRefined(hits, refined, query) && forall h :: h in refined ==> TrulyScored(h, query)
      ensures UniqueIds(hits) ==> UniqueIds(refined)
    {
      assert refined == Refined(config, hits, full, query);
      forall h | h in refined ensures TrulyScored(h, query) {
        RescoredFromFull(config, hits, full, query, h);
      }
      if UniqueIds(hits) { RescoredIdsUnique(config, hits, full, query); }
    }

    lemma RefinesFlat(names: seq<Entity>, hits: seq<Hit>, full: map<nat, Vector>, query: Vector, candidates: nat)
      requires source.Disjoint() && |query| == config.dims && !config.quantization.F32?
      requires IsLookup(full, Ids(hits)) && Gathered(names, hits, query, candidates)
      ensures RefinedFlat(names, hits, Rescored(config, hits, full, query), query, candidates)
    {
      hide Shortlisted;
      FoundAgrees(names, full, Ids(hits));
      assert forall h :: h in hits ==> h.id in Ids(hits);
      RescoredSame(config, hits, full, Scope(names), query);
      RescoredIsTrue(config, hits, full, query, Scope(names));
    }

    lemma NothingToRefine(hits: seq<Hit>, query: Vector)
      requires config.quantization.F32? || hits == []
      ensures IsRefined(hits, hits, query)
    {
      assert Refined(config, hits, map[], query) == hits && (hits == [] ==> IsLookup(map[], Ids(hits)));
    }

    /** The answer: the candidates of every entity, flat or not, refined, sorted and cut at `limit`. */
    ghost predicate IsAnswer(names: seq<Entity>, hits: seq<Hit>, query: Vector, limit: nat)
      reads this, source, Segments()
    {
      exists refined ::
        IsRefined(AllHits(config, slots, names, query, CandidateCount(config, limit)), refined, query) &&
        hits == Cut(refined, limit)
    }

    /** What a search over `names` finds: at most `limit` hits, most similar first and ties by id; quantized ones name
        stored vectors and carry their true similarities; and over flat segments they are the answer defined below. */
    ghost predicate Found(names: seq<Entity>, hits: seq<Hit>, query: Vector, limit: nat)
      requires Valid() && |query| == config.dims
      reads this, source, Segments()
    {
      && |hits| <= limit && SortedBy(HitLeq, hits) && (limit > 0 ==> IsAnswer(names, hits, query, limit))
      && (!config.quantization.F32? ==> forall h :: h in hits ==> TrulyScored(h, query))
      && (AllFlat(names) ==> FlatFound(names, hits, query, limit))
    }

    ghost predicate FlatFound(names: seq<Entity>, hits: seq<Hit>, query: Vector, limit: nat)
      requires Valid() && |query| == config.dims
      reads this, source, Segments()
    {
      && WellDimensioned(config, Scope(names)) && Answers(hits, names, query, limit)
      && (|names| == 1 ==> IsFlatAnswer(names[0], hits, query, limit))
    }

    /** Nearest vectors as `(id, cosine distance)`, closest first; without an entity, over all of them.
        `names` are the entities searched. */
    method Search(entity: Option<Entity>, query: Vector, limit: nat)
      returns (results: Result<seq<(nat, real)>>, ghost names: seq<Entity>)
      requires Valid() && Coherent() && source.Disjoint()
      modifies this`slots
      ensures Valid() && Coherent() && Visits(names, entity)
      ensures |query| != config.dims ==> results.Err?
      ensures |query| == config.dims && results.Err? ==> limit > 0 && Misfits(names)
      ensures results.Ok? && limit > 0 ==> forall e :: e in names ==> Loaded(e)
      ensures results.Ok? ==> Found(names, AsHits(results.value), Normalized(config.numerics, query), limit)
    {
      var searched: seq<Entity>;
      match entity {
        case Some(e) => searched := [e];
        case None => searched := source.Entities();
      }
      names := searched;
      if |query| != config.dims {
        return Err, names;
      }
      if limit == 0 {
        NothingAsked(names, Normalized(config.numerics, query));
        return Ok([]), names;
      }
      results := SearchEach(searched, Normalized(config.numerics, query), limit);
    }

    lemma NothingAsked(names: seq<Entity>, query: Vector)
      requires Valid() && Coherent() && |query| == config.dims
      ensures Found(names, [], query, 0)
    {
      if AllFlat(names) {
        FlatScope(names);
        NothingIsAnswer(names, query);
        if |names| == 1 { assert Matches(names[0]); }
      }
    }

    lemma NothingIsAnswer(names: seq<Entity>, query: Vector)
      requires |query| == config.dims && WellDimensioned(config, Scope(names))
      ensures Answers([], names, query, 0)
    {
      hide BestOfShortlisted, Dot;
      NothingIsBest(config, query, CandidateCount(config, 0), Scope(names));
    }

    /** Gathers candidates entity by entity, refines them and keeps the nearest. */
    method SearchEach(names: seq<Entity>, query: Vector, limit: nat) returns (results: Result<seq<(nat, real)>>)
      requires Valid() && Coherent() && source.Disjoint() && |query| == config.dims
      requires forall i, j :: 0 <= i < j < |names| ==> names[i] != names[j]
      modifies this`slots
      ensures Valid() && Coherent()
      ensures results.Err? ==> Misfits(names)
      ensures results.Ok? ==> AllLoaded(names) && Found(names, AsHits(results.value), query, limit)
    {
      var ok, hits := Gather(names, query, CandidateCount(config, limit));
      if !ok {
        return Err;
      }
      var top := Rank(names, hits, query, limit);
      results := Ok(top);
    }

    method Rank(ghost names: seq<Entity>, hits: seq<Hit>, query: Vector, limit: nat) returns (top: seq<(nat, real)>)
      requires Valid() && Coherent() && source.Disjoint() && |query| == config.dims
      requires Collected(names, hits, query, CandidateCount(config, limit))
      ensures Found(names, AsHits(top), query, limit)
    {
      var refined := Refine(hits, query, names, CandidateCount(config, limit));
      top := Nearest(refined, limit);
      NearestIsFound(names, hits, refined, AsHits(top), query, limit);
    }

    lemma NearestIsFound(names: seq<Entity>, hits: seq<Hit>, refined: seq<Hit>, top: seq<Hit>, query: Vector,
          limit: nat)
      requires Valid() && Coherent() && |query| == config.dims
      requires Collected(names, hits, query, CandidateCount(config, limit))
      requires AllFlat(names) ==> RefinedFlat(names, hits, refined, query, CandidateCount(config, limit))
      requires IsRefined(hits, refined, query)
      requires !config.quantization.F32? ==> forall h :: h in refined ==> TrulyScored(h, query)
      requires top == Cut(refined, limit)
      requires (forall h :: h in top ==> h in refined) && SortedBy(HitLeq, top)
      ensures Found(names, top, query, limit)
    {
      if AllFlat(names) {
        RefinedIsFound(names, hits, refined, top, query, limit);
      }
    }

    lemma RefinedIsFound(names: seq<Entity>, hits: seq<Hit>, refined: seq<Hit>, top: seq<Hit>, query: Vector,
          limit: nat)
      requires Valid() && Coherent() && |query| == config.dims && AllFlat(names)
      requires Collected(names, hits, query, CandidateCount(config, limit))
      requires RefinedFlat(names, hits, refined, query, CandidateCount(config, limit))
      requires top == Cut(refined, limit)
      ensures FlatFound(names, top, query, limit)
    {
      RefinedAnswers(names, hits, refined, query, CandidateCount(config, limit), limit);
      if |names| == 1 {
        OneSegmentAnswer(names, hits, refined, top, query, limit);
      }
    }

    lemma OneSegmentAnswer(names: seq<Entity>, hits: seq<Hit>, refined: seq<Hit>, top: seq<Hit>, query: Vector,
          limit: nat)
      requires Valid() && Coherent() && |query| == config.dims && |names| == 1 && AllFlat(names)
      requires hits == AllHits(config, slots, names, query, CandidateCount(config, limit))
      requires refined == Refined(config, hits, Scope(names), query)
      requires top == Cut(refined, limit)
      ensures IsFlatAnswer(names[0], top, query, limit)
    {
      assert Matches(names[0]);
      ScopeOfOne(names);
      AllHitsOfOne(config, slots, names, query, CandidateCount(config, limit));
    }

    lemma ScopeOfOne(names: seq<Entity>)
      requires |names| == 1
      ensures Scope(names) == source.VectorsOf(names[0])
    {
      assert Scope(names[..0]) == map[];
    }

    /** The answer of a search over one entity whose slot is flat. */
    ghost predicate IsFlatAnswer(e: Entity, hits: seq<Hit>, query: Vector, limit: nat)
      requires Valid() && |query| == config.dims
      reads this, source, Segments()
    {
      && e in slots && slots[e].Flat? && Holds(config, slots[e].segment, source.VectorsOf(e))
      && hits == FlatAnswer(config, slots[e].segment, source.VectorsOf(e), query, limit)
    }

    /** Sorts, cuts at `limit` and turns similarities into distances. */
    method Nearest(hits: seq<Hit>, limit: nat) returns (results: seq<(nat, real)>)
      ensures AsHits(results) == Cut(hits, limit)
      ensures (forall h :: h in AsHits(results) ==> h in hits) && SortedBy(HitLeq, AsHits(results))
    {
      HitLeqIsTotalOrder();
      SortPermutes(HitLeq, hits);
      SortSorts(HitLeq, hits);
      var top := Sort(HitLeq, hits);
      top := top[..Min(limit, |top|)];
      results := seq(|top|, i requires 0 <= i < |top| => (top[i].id, 1.0 - top[i].sim));
    }

    /** The contract of a search answer: unique ids with their true similarities, the best of a shortlist that the
        format chooses; and the brute-force top `limit` of the scope, in full precision always, quantized whenever
        every segment fits its candidates. */
    ghost predicate Answers(hits: seq<Hit>, names: seq<Entity>, query: Vector, limit: nat)
      requires |query| == config.dims && WellDimensioned(config, Scope(names))
      reads source
    {
      var scores := Similarities(config, query, Scope(names));
      && UniqueIds(hits) && TrueScores(hits, scores) && |hits| <= limit
      && BestOfShortlisted(config, hits, query, CandidateCount(config, limit), limit, Scope(names))
      && (config.quantization.F32? || AllFit(names, CandidateCount(config, limit)) ==> IsTopK(hits, scores, limit))
    }

    lemma RefinedAnswers(names: seq<Entity>, hits: seq<Hit>, refined: seq<Hit>, query: Vector, candidates: nat,
          limit: nat)
      requires |query| == config.dims && Gathered(names, hits, query, candidates)
      requires candidates == CandidateCount(config, limit)
      requires RefinedFlat(names, hits, refined, query, candidates)
      ensures Answers(Cut(refined, limit), names, query, limit)
    {
      var scores := Similarities(config, query, Scope(names));
      CutKeepsTruth(refined, scores, limit);
      CutOfShortlisted(config, refined, query, candidates, limit, Scope(names));
      if config.quantization.F32? {
        CutIsTopK(refined, scores, limit);
      } else if AllFit(names, candidates) {
        CompleteCovers(refined, scores, limit);
        CutIsTopK(refined, scores, limit);
      }
    }
  }

  /** `hits` are the `limit` truly most similar of some shortlist. */
  ghost predicate BestOfShortlisted(config: Config, hits: seq<Hit>, query: Vector, k: nat, limit: nat,
        m: map<nat, Vector>)
    requires |query| == config.dims && WellDimensioned(config, m)
  {
    exists ids :: Shortlisted(config, ids, query, k, m) &&
      IsTopK(hits, Among(Similarities(config, query, m), ids), limit)
  }

  lemma NothingIsBest(config: Config, query: Vector, k: nat, m: map<nat, Vector>)
    requires |query| == config.dims && WellDimensioned(config, m)
    ensures BestOfShortlisted(config, [], query, k, 0, m)
  {
    hide IdealTo, ToleranceTo;
    assert Shortlisted(config, m.Keys, query, k, m);
  }

  /** The candidates, with their true similarities, sorted and cut. */
  lemma CutOfShortlisted(config: Config, refined: seq<Hit>, query: Vector, k: nat, limit: nat, m: map<nat, Vector>)
    requires |query| == config.dims && WellDimensioned(config, m)
    requires UniqueIds(refined) && TrueScores(refined, Similarities(config, query, m))
    requires Shortlisted(config, Ids(refined), query, k, m)
    ensures BestOfShortlisted(config, Cut(refined, limit), query, k, limit, m)
  {
    var among := Among(Similarities(config, query, m), Ids(refined));
    CompleteCovers(refined, among, limit);
    CutIsTopK(refined, among, limit);
  }

  /** No estimate of a similarity to `query` is off by more than `e`. */
  ghost predicate ErrorsAtMost(config: Config, query: Vector, m: map<nat, Vector>, e: real)
    requires |query| == config.dims > 0 && WellDimensioned(config, m)
  {
    forall id :: id in m ==>
      Tolerance(config.numerics, config.quantization, query, Normalized(config.numerics, m[id])) <= e
  }

  lemma IdealsAreSimilarities(config: Config, query: Vector, m: map<nat, Vector>)
    requires |query| == config.dims > 0 && WellDimensioned(config, m) && !config.quantization.Binary?
    ensures Ideals(config.numerics, config.quantization, query, m) == Similarities(config, query, m)
  {
    hide Dot, Normalized, SignAgreement;
  }

  lemma SlackAtMost(config: Config, query: Vector, m: map<nat, Vector>, e: real)
    requires |query| == config.dims > 0 && WellDimensioned(config, m) && ErrorsAtMost(config, query, m, e)
    ensures var slack := Tolerances(config.numerics, config.quantization, query, m);
            slack.Keys == m.Keys && forall id :: id in slack ==> slack[id] <= e
  {}

  /** In every format that keeps more than signs, a search whose rescore factor is not zero misses the true nearest
      vectors by at most twice the format's tolerance: no vector it leaves out is more similar than one it lists by
      more than that, and it lists as many as there are, up to the limit. */
  lemma SearchIsNearest(config: Config, hits: seq<Hit>, query: Vector, limit: nat, m: map<nat, Vector>, e: real)
    requires |query| == config.dims > 0 && WellDimensioned(config, m) && !config.quantization.Binary?
    requires config.rescoreFactor > 0 && limit <= USIZE_MAX
    requires BestOfShortlisted(config, hits, query, CandidateCount(config, limit), limit, m)
    requires e >= 0.0 && ErrorsAtMost(config, query, m, e)
    ensures var sims := Similarities(config, query, m);
            && TrueScores(hits, sims) && |hits| == Min(limit, |m|)
            && forall id, h :: id in m && id !in Ids(hits) && h in hits ==> sims[id] <= h.sim + 2.0 * e
  {
    hide ErrorsAtMost, IdealTo, ToleranceTo, Dot, CandidateCount;
    AsksForEnough(config, limit);
    IdealsAreSimilarities(config, query, m);
    SlackAtMost(config, query, m, e);
    var sims, k := Similarities(config, query, m), CandidateCount(config, limit);
    assert |sims| == |sims.Keys| == |m|;
    var ids :| Shortlisted(config, ids, query, k, m) && IsTopK(hits, Among(sims, ids), limit);
    BestOfShortlist(hits, ids, sims, Tolerances(config.numerics, config.quantization, query, m), k, limit, e);
  }

  /** Sorting and cutting keeps ids unique and similarities true. */
  lemma CutKeepsTruth(hits: seq<Hit>, scores: map<nat, real>, k: nat)
    requires UniqueIds(hits) && TrueScores(hits, scores)
    ensures UniqueIds(Cut(hits, k)) && TrueScores(Cut(hits, k), scores)
  {
    SortPermutes(HitLeq, hits);
    SortKeepsUnique(HitLeq, (h: Hit) => h.id, hits);
    forall h | h in Cut(hits, k) ensures h in hits {
      assert h in Sort(HitLeq, hits);
    }
  }

  /** The rescored list, recomputed from the stored vectors. */
  function Rescored(config: Config, hits: seq<Hit>, full: map<nat, Vector>, query: Vector): seq<Hit> {
    if hits == [] then [] else
    var h := hits[|hits| - 1];
    var rest := Rescored(config, hits[..|hits| - 1], full, query);
    if h.id in full then rest + [Hit(h.id, ChunkedDot(query, Normalized(config.numerics, full[h.id])))] else rest
  }

  lemma {:induction false} RescoredEach(config: Config, hits: seq<Hit>, full: map<nat, Vector>, query: Vector)
    requires forall h :: h in hits ==> h.id in full
    ensures |Rescored(config, hits, full, query)| == |hits|
    ensures forall i :: 0 <= i < |hits| ==>
              Rescored(config, hits, full, query)[i] == Hit(hits[i].id,
                  ChunkedDot(query, Normalized(config.numerics, full[hits[i].id])))
  {
    if hits != [] {
      var n := |hits| - 1;
      assert hits[n] in hits;
      RescoredEach(config, hits[..n], full, query);
    }
  }

  /** Rescoring keeps only ids that were found, with the similarities of the vectors found. */
  lemma {:induction false} RescoredFromFull(config: Config, hits: seq<Hit>, full: map<nat, Vector>, query: Vector,
        h: Hit)
    requires h in Rescored(config, hits, full, query)
    ensures h.id in full && h.sim == ChunkedDot(query, Normalized(config.numerics, full[h.id]))
    ensures h.id in Ids(hits)
  {
    var n := |hits| - 1;
    if h in Rescored(config, hits[..n], full, query) {
      RescoredFromFull(config, hits[..n], full, query, h);
      assert forall x :: x in hits[..n] ==> x in hits;
    } else {
      assert hits[n] in hits;
    }
  }

  lemma {:induction false} RescoredIdsUnique(config: Config, hits: seq<Hit>, full: map<nat, Vector>, query: Vector)
    requires UniqueIds(hits)
    ensures UniqueIds(Rescored(config, hits, full, query))
  {
    if hits != [] {
      var n := |hits| - 1;
      var rest := Rescored(config, hits[..n], full, query);
      RescoredIdsUnique(config, hits[..n], full, query);
      forall i | 0 <= i < |rest| ensures rest[i].id != hits[n].id {
        RescoredFromFull(config, hits[..n], full, query, rest[i]);
      }
    }
  }

  /** Only the vectors of the hits matter. */
  lemma {:induction false} RescoredSame(config: Config, hits: seq<Hit>, full: map<nat, Vector>, m: map<nat, Vector>,
        query: Vector)
    requires forall h :: h in hits ==> h.id in full && h.id in m && full[h.id] == m[h.id]
    ensures Rescored(config, hits, full, query) == Rescored(config, hits, m, query)
  {
    if hits != [] {
      assert hits[|hits| - 1] in hits;
      RescoredSame(config, hits[..|hits| - 1], full, m, query);
    }
  }

  /** The hits with their final similarities. */
  function Refined(config: Config, hits: seq<Hit>, m: map<nat, Vector>, query: Vector): seq<Hit> {
    if config.quantization.F32? then hits else Rescored(config, hits, m, query)
  }

  /** How many hits each segment is asked for. */
  function CandidateCount(config: Config, limit: nat): nat {
    if config.quantization.F32? then limit else SaturatingMul(limit, config.rescoreFactor)
  }

  /** In full precision each segment is asked for as many hits as are wanted; quantized, for the rescore factor times
      as many, saturating. */
  lemma AsksFor(config: Config, limit: nat, n: nat)
    ensures n <= CandidateCount(config, limit) <==>
              if config.quantization == F32 then n <= limit else n <= limit * config.rescoreFactor && n <= USIZE_MAX
  {}

  lemma AsksForEnough(config: Config, limit: nat)
    requires config.rescoreFactor > 0 && limit <= USIZE_MAX
    ensures CandidateCount(config, limit) >= limit
  {
    TimesAtLeastOne(limit, config.rescoreFactor);
  }

  lemma TimesAtLeastOne(a: nat, b: nat)
    requires b > 0
    ensures a * b >= a
  {
    assert a * (b - 1) >= 0;
  }

  /** The answer of a search over one flat segment that holds `m`. */
  ghost function FlatAnswer(config: Config, flat: FlatSegment, m: map<nat, Vector>, query: Vector, limit: nat): seq<Hit>
    requires Holds(config, flat, m) && |query| == config.dims > 0
    reads flat
  {
    var refined := Refined(config, flat.Best(query, CandidateCount(config, limit)), m, query);
    Cut(refined, limit)
  }

  lemma RescoredIsTrue(config: Config, hits: seq<Hit>, full: map<nat, Vector>, query: Vector, m: map<nat, Vector>)
    requires |query| == config.dims && WellDimensioned(config, m) && UniqueIds(hits) && Ids(hits) <= m.Keys
    requires forall id :: id in Ids(hits) ==> id in full && full[id] == m[id]
    ensures UniqueIds(Rescored(config, hits, full, query)) && Ids(Rescored(config, hits, full, query)) == Ids(hits)
    ensures TrueScores(Rescored(config, hits, full, query), Similarities(config, query, m))
  {
    assert forall h :: h in hits ==> h.id in Ids(hits);
    RescoredEach(config, hits, full, query);
    SameIds(hits, Rescored(config, hits, full, query));
    forall i | 0 <= i < |hits|
      ensures ChunkedDot(query, Normalized(config.numerics, full[hits[i].id])) ==
                Similarities(config, query, m)[hits[i].id]
    {
      assert hits[i] in hits;
      ChunkedDotIsDot(query, Normalized(config.numerics, full[hits[i].id]));
    }
    forall i | 0 <= i < |hits| ensures hits[i].id in m { assert hits[i] in hits; }
  }

  lemma SameIds(a: seq<Hit>, b: seq<Hit>)
    requires |a| == |b| && forall i :: 0 <= i < |a| ==> a[i].id == b[i].id
    ensures Ids(a) == Ids(b) && (UniqueIds(a) ==> UniqueIds(b))
  {
    assert forall i :: 0 <= i < |a| ==> a[i] in a && b[i] in b;
  }

  /** `ids` leaves a vector of `m` out only when it lists `k` others at least as similar, as far as the format tells. */
  ghost predicate Shortlisted(config: Config, ids: set<nat>, query: Vector, k: nat, m: map<nat, Vector>) {
    Shortlist(ids, Ideals(config.numerics, config.quantization, query, m),
      Tolerances(config.numerics, config.quantization, query, m), k)
  }

  lemma JoinShortlisted(config: Config, a: set<nat>, ma: map<nat, Vector>, b: set<nat>, mb: map<nat, Vector>,
        query: Vector, k: nat)
    requires Shortlisted(config, a, query, k, ma) && Shortlisted(config, b, query, k, mb) && ma.Keys !! mb.Keys
    ensures Shortlisted(config, a + b, query, k, ma + mb)
  {
    var num, format := config.numerics, config.quantization;
    ValuedJoin(ma, mb, IdealTo(num, format, query));
    ValuedJoin(ma, mb, ToleranceTo(num, format, query));
    ShortlistsJoin(a, Ideals(num, format, query, ma), Tolerances(num, format, query, ma), b,
      Ideals(num, format, query, mb), Tolerances(num, format, query, mb), k);
  }

  /** What is known of gathered candidates: unique stored ids, a shortlist of size `k`; all ids when `complete`;
      and in full precision nothing better than the `k` best is left out. */
  ghost predicate Candidates(config: Config, hits: seq<Hit>, query: Vector, k: nat, complete: bool, m: map<nat, Vector>)
    requires |query| == config.dims && WellDimensioned(config, m)
  {
    && UniqueIds(hits) && Ids(hits) <= m.Keys
    && (complete ==> Ids(hits) == m.Keys)
    && Shortlisted(config, Ids(hits), query, k, m)
    && (config.quantization.F32? ==> Covers(hits, Similarities(config, query, m), k))
  }

  lemma FlatCandidates(config: Config, flat: FlatSegment, m: map<nat, Vector>, hits: seq<Hit>, query: Vector, k: nat)
    requires Holds(config, flat, m) && |query| == config.dims > 0
    requires IsTopK(hits, flat.Scores(query), k)
    ensures Candidates(config, hits, query, k, |m| <= k, m)
  {
    FlatScores(config, flat, m, query);
    TopKCandidates(hits, flat.Scores(query), m, k);
    FlatShortlist(config, flat, m, hits, query, k);
    if config.quantization.F32? {
      TopKCovers(hits, flat.Scores(query), k);
    }
  }

  lemma FlatShortlist(config: Config, flat: FlatSegment, m: map<nat, Vector>, hits: seq<Hit>, query: Vector, k: nat)
    requires Holds(config, flat, m) && |query| == config.dims > 0
    requires IsTopK(hits, flat.Scores(query), k)
    ensures Shortlisted(config, Ids(hits), query, k, m)
  {
    assert flat.Contents() == Encoded(config, m) && flat.Stores(m);
    flat.TopKIsNearest(hits, query, k);
    NearTopKShortlists(hits, Ideals(config.numerics, config.quantization, query, m),
      Tolerances(config.numerics, config.quantization, query, m), k);
  }

  lemma FlatScores(config: Config, flat: FlatSegment, m: map<nat, Vector>, query: Vector)
    requires Holds(config, flat, m) && |query| == config.dims > 0
    ensures flat.Scores(query).Keys == m.Keys
    ensures config.quantization.F32? ==> flat.Scores(query) == Similarities(config, query, m)
  {
    hide Dot, Normalized, Rescale, BinaryEstimate;
    var scores := flat.Scores(query);
    assert scores.Keys == flat.Contents().Keys == m.Keys;
    forall id | config.quantization.F32? && id in m ensures scores[id] == Similarities(config, query, m)[id] {
      assert flat.Contents()[id] == RealCode(Normalized(config.numerics, m[id]));
    }
  }

  lemma TopKCandidates(hits: seq<Hit>, scores: map<nat, real>, m: map<nat, Vector>, k: nat)
    requires IsTopK(hits, scores, k) && scores.Keys == m.Keys
    ensures UniqueIds(hits) && Ids(hits) <= m.Keys && (|m| <= k ==> Ids(hits) == m.Keys)
  {
    assert |m| == |m.Keys| == |scores|;
    UniqueIdsCount(hits);
    SubsetCount(Ids(hits), m.Keys);
  }

  lemma JoinIds(a: seq<Hit>, b: seq<Hit>, ka: set<nat>, kb: set<nat>)
    requires UniqueIds(a) && UniqueIds(b) && Ids(a) <= ka && Ids(b) <= kb && ka !! kb
    ensures UniqueIds(a + b) && Ids(a + b) == Ids(a) + Ids(b)
  {
    forall i, j | 0 <= i < |a| && 0 <= j < |b| ensures a[i].id != b[j].id {
      assert a[i].id in Ids(a) && b[j].id in Ids(b);
    }
    assert forall h :: h in a + b <==> h in a || h in b;
  }

  lemma JoinDimensions(config: Config, ma: map<nat, Vector>, mb: map<nat, Vector>)
    requires WellDimensioned(config, ma) && WellDimensioned(config, mb)
    ensures WellDimensioned(config, ma + mb)
  {
    assert forall id :: id in ma + mb ==> (ma + mb)[id] == if id in mb then mb[id] else ma[id];
  }

  lemma JoinSimilarities(config: Config, ma: map<nat, Vector>, mb: map<nat, Vector>, query: Vector)
    requires |query| == config.dims
    requires WellDimensioned(config, ma) && WellDimensioned(config, mb) && WellDimensioned(config, ma + mb)
    ensures Similarities(config, query, ma + mb) == Similarities(config, query, ma) + Similarities(config, query, mb)
  {}

  lemma JoinCandidates(config: Config, a: seq<Hit>, ma: map<nat, Vector>, ca: bool, b: seq<Hit>, mb: map<nat, Vector>,
        cb: bool, query: Vector, k: nat)
    requires |query| == config.dims && WellDimensioned(config, ma) && WellDimensioned(config, mb)
    requires Candidates(config, a, query, k, ca, ma) && Candidates(config, b, query, k, cb, mb)
    requires ma.Keys !! mb.Keys
    ensures WellDimensioned(config, ma + mb)
    ensures Candidates(config, a + b, query, k, ca && cb, ma + mb)
  {
    hide IdealTo, ToleranceTo;
    JoinIds(a, b, ma.Keys, mb.Keys);
    assert (ma + mb).Keys == ma.Keys + mb.Keys;
    JoinDimensions(config, ma, mb);
    JoinSimilarities(config, ma, mb, query);
    JoinShortlisted(config, Ids(a), ma, Ids(b), mb, query, k);
    if config.quantization.F32? {
      CoversConcat(a, Similarities(config, query, ma), b, Similarities(config, query, mb), k);
    }
  }
}
