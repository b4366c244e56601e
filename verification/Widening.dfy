/** The scoped search that widens until it has enough hits: `src/query/retrieve.rs`. */
module Widening {
  import opened Collections
  import opened Ordering
  import opened Wrappers

  const NEURAL_TOP: nat := 25
  const MIN_HIT_SIMILARITY := 0.30

  datatype Config = Config(start: nat, step: nat, minHits: Option<nat>, maxAttempts: nat, minSimilarity: real,
        maxHitGain: nat, minSimilarityGain: real)

  datatype Item = Item(memoryId: string, timestamp: nat)

  /** What the tenant answers during one query: the vector ids a pass finds at a width (none when that search fails),
      which lookups succeed, what each id resolves to and how similar it is. */
  datatype World = World(raw: (nat, nat) -> seq<nat>, lookupOk: nat -> bool, item: nat -> Option<Item>,
        similarity: nat -> real)

  datatype AnnState = AnnState(attempt: nat, currentTop: nat, maxTop: nat, hitCount: nat, minHits: nat,
        topSimilarity: Option<real>, prevHitCount: Option<nat>, prevTopSimilarity: Option<real>)

  function SaturatingSub(a: nat, b: nat): nat {
    if a < b then 0 else a - b
  }

  function ScopedStart(cfg: Config, maxTop: nat): nat {
    Min(cfg.start, maxTop)
  }

  function ScopedMinHits(cfg: Config, limit: nat, maxTop: nat): nat {
    var doubled := Min(limit * 2, USIZE_MAX);
    Min(if cfg.minHits.Some? then cfg.minHits.value else if doubled < 24 then 24 else doubled, maxTop)
  }

  function NextTop(cfg: Config, top: nat, maxTop: nat): nat {
    Min(Min(top + cfg.step, USIZE_MAX), maxTop)
  }

  predicate LowSimilarityGain(cfg: Config, s: AnnState) {
    && s.topSimilarity.Some? && s.prevTopSimilarity.Some?
    && -cfg.minSimilarityGain <= s.topSimilarity.value - s.prevTopSimilarity.value <= cfg.minSimilarityGain
  }

  predicate ShouldStop(cfg: Config, s: AnnState) {
    if s.currentTop >= s.maxTop || s.attempt >= cfg.maxAttempts then true
    else if s.hitCount < s.minHits then false
    else if s.topSimilarity.None? || s.topSimilarity.value < cfg.minSimilarity then false
    else if s.prevHitCount.None? then false
    else SaturatingSub(s.hitCount, s.prevHitCount.value) <= cfg.maxHitGain || LowSimilarityGain(cfg, s)
  }

  // ----- What a run of passes collects -----

  /** Resolves to a memory and clears the similarity floor. */
  predicate Relevant(w: World, v: nat) {
    w.item(v).Some? && w.similarity(v) >= MIN_HIT_SIMILARITY
  }

  /** The ids of `raw` not met before, each once, in order. */
  function NewIds(raw: seq<nat>, seen: set<nat>): seq<nat> {
    if raw == [] then []
    else
      var before := NewIds(raw[..|raw| - 1], seen);
      var v := raw[|raw| - 1];
      if v in seen || v in before then before else before + [v]
  }

  function Keep(w: World, ids: seq<nat>): seq<nat> {
    if ids == [] then []
    else Keep(w, ids[..|ids| - 1]) + KeepOne(w, ids[|ids| - 1])
  }

  function KeepOne(w: World, v: nat): seq<nat> {
    if Relevant(w, v) then [v] else []
  }

  function Seen(w: World, widths: seq<nat>): set<nat> {
    if widths == [] then {}
    else Seen(w, widths[..|widths| - 1]) + Members(w.raw(|widths|, widths[|widths| - 1]))
  }

  function PassHits(w: World, attempt: nat, raw: seq<nat>, seen: set<nat>): seq<nat> {
    if w.lookupOk(attempt) then Keep(w, NewIds(raw, seen)) else []
  }

  function FirstSimilarity(w: World, found: seq<nat>): Option<real> {
    if found == [] then None else Some(w.similarity(found[0]))
  }

  /** The hits of passes over `widths`; pass `a` counts from one. */
  function Collected(w: World, widths: seq<nat>): seq<nat> {
    if widths == [] then []
    else
      var earlier := widths[..|widths| - 1];
      Collected(w, earlier) + PassHits(w, |widths|, w.raw(|widths|, widths[|widths| - 1]), Seen(w, earlier))
  }

  /** What the last pass over `widths` added. */
  function LastFound(w: World, widths: seq<nat>): seq<nat>
    requires widths != []
  {
    var n := |widths|;
    PassHits(w, n, w.raw(n, widths[n - 1]), Seen(w, widths[..n - 1]))
  }

  function PrevHits(w: World, widths: seq<nat>): Option<nat>
    requires widths != []
  {
    if |widths| == 1 then None else Some(|Collected(w, widths[..|widths| - 1])|)
  }

  function PrevSimilarity(w: World, widths: seq<nat>): Option<real>
    requires widths != []
  {
    if |widths| == 1 then None else FirstSimilarity(w, LastFound(w, widths[..|widths| - 1]))
  }

  function StateAfter(w: World, minHits: nat, maxTop: nat, widths: seq<nat>): AnnState
    requires widths != []
  {
    var n := |widths|;
    AnnState(n, widths[n - 1], maxTop, |Collected(w, widths)|, minHits, FirstSimilarity(w, LastFound(w, widths)),
        PrevHits(w, widths), PrevSimilarity(w, widths))
  }

  /** Whether the passes over `widths` are the last: the stop rule holds, or a repeat pass found nothing new with
      enough hits already in hand. */
  predicate StopsAfter(w: World, cfg: Config, minHits: nat, maxTop: nat, widths: seq<nat>)
    requires widths != []
  {
    || ShouldStop(cfg, StateAfter(w, minHits, maxTop, widths))
    || (|widths| >= 2 && |Collected(w, widths)| >= minHits && LastFound(w, widths) == [])
  }

  ghost predicate NeverStopped(w: World, cfg: Config, minHits: nat, maxTop: nat, widths: seq<nat>) {
    forall n: nat :: 1 <= n < |widths| ==> !StopsAfter(w, cfg, minHits, maxTop, widths[..n])
  }

  function ItemsOf(w: World, ids: seq<nat>): (items: seq<Item>)
    requires forall v :: v in ids ==> w.item(v).Some?
    ensures |items| == |ids|
  {
    seq(|ids|, i requires 0 <= i < |ids| => w.item(ids[i]).value)
  }

  function MemoryIds(items: seq<Item>): (ids: seq<string>)
    ensures |ids| == |items|
  {
    seq(|items|, i requires 0 <= i < |items| => items[i].memoryId)
  }

  /** The memories seeding the reranker: the first hits. */
  function Seeds(items: seq<Item>): seq<string> {
    MemoryIds(items[..Min(NEURAL_TOP, |items|)])
  }

  lemma SeedsAreFirst(items: seq<Item>, i: nat)
    ensures |Seeds(items)| == Min(25, |items|) && (i < |Seeds(items)| ==> Seeds(items)[i] == items[i].memoryId)
  {}

  /** The widths a run visits: from the start, step by step, never past the largest. */
  ghost predicate WidensFrom(cfg: Config, maxTop: nat, widths: seq<nat>) {
    && |widths| >= 1 && widths[0] == ScopedStart(cfg, maxTop)
    && (forall i :: 0 <= i < |widths| - 1 ==> widths[i + 1] == NextTop(cfg, widths[i], maxTop))
    && (forall i :: 0 <= i < |widths| ==> widths[i] <= maxTop)
    && (forall i, j :: 0 <= i < j < |widths| ==> widths[i] < widths[j])
  }

  /** Pass `i` looks at the starting width and `i` steps more, but never beyond the largest width. */
  lemma {:induction false} WidthAt(cfg: Config, maxTop: nat, widths: seq<nat>, i: nat)
    requires WidensFrom(cfg, maxTop, widths) && i < |widths| && maxTop <= USIZE_MAX
    ensures widths[i] == Min(cfg.start + i * cfg.step, maxTop)
  {
    if i > 0 {
      WidthAt(cfg, maxTop, widths, i - 1);
      assert (i - 1) * cfg.step + cfg.step == i * cfg.step && (i - 1) * cfg.step >= 0;
      assert widths[i - 1 + 1] == NextTop(cfg, widths[i - 1], maxTop);
    }
  }

  /** The hits a run is after: as many as configured, or twice the limit but at least 24; never more than the largest
      width. */
  lemma TargetHits(cfg: Config, limit: nat, maxTop: nat, h: nat)
    requires maxTop <= USIZE_MAX
    ensures h <= ScopedMinHits(cfg, limit, maxTop) <==>
              h <= maxTop && if cfg.minHits.Some? then h <= cfg.minHits.value else h <= 24 || h <= 2 * limit
  {}

  // ----- The loop -----

  method Resolve(w: World, attempt: nat, raw: seq<nat>, cache: map<nat, Option<Item>>)
    returns (filled: map<nat, Option<Item>>)
    requires forall v :: v in cache ==> cache[v] == w.item(v)
    ensures forall v :: v in filled ==> filled[v] == w.item(v)
    ensures filled.Keys == if w.lookupOk(attempt) then cache.Keys + Members(raw) else cache.Keys
  {
    filled := cache;
    if w.lookupOk(attempt) {
      var i := 0;
      while i < |raw|
        invariant 0 <= i <= |raw|
        invariant forall v :: v in filled ==> filled[v] == w.item(v)
        invariant filled.Keys == cache.Keys + Members(raw[..i])
      {
        assert Members(raw[..i + 1]) == Members(raw[..i]) + {raw[i]};
        if raw[i] !in cache {
          filled := filled[raw[i] := w.item(raw[i])];
        }
        i := i + 1;
      }
      assert raw[..i] == raw;
    }
  }

  /** `hits` and `seeds` are what `ids` resolve to. */
  ghost predicate Recorded(w: World, ids: seq<nat>, hits: seq<Item>, seeds: seq<string>) {
    && (forall v :: v in ids ==> w.item(v).Some?)
    && hits == ItemsOf(w, ids) && seeds == Seeds(hits)
  }

  method Record(w: World, hitsBefore: seq<Item>, seedsBefore: seq<string>, item: Item, ghost ids: seq<nat>,
        ghost v: nat)
    returns (hits: seq<Item>, seeds: seq<string>)
    requires Recorded(w, ids, hitsBefore, seedsBefore) && w.item(v) == Some(item)
    ensures Recorded(w, ids + [v], hits, seeds)
  {
    seeds := seedsBefore;
    if |hitsBefore| < NEURAL_TOP {
      seeds := seeds + [item.memoryId];
    }
    hits := hitsBefore + [item];
    assert hits == ItemsOf(w, ids + [v]);
    assert seeds == Seeds(hits);
  }

  /** Among ids a pass meets for the first time, the cache holds all or none: those of a successful lookup. */
  ghost predicate CacheServes(w: World, cache: map<nat, Option<Item>>, attempt: nat, raw: seq<nat>, seen: set<nat>) {
    && (forall v :: v in cache ==> cache[v] == w.item(v))
    && (forall v :: v in raw && v !in seen ==> (v in cache <==> w.lookupOk(attempt)))
  }

  /** Looks at one id of a pass: a new one that resolves and clears the floor becomes a hit. */
  method Consider(w: World, v: nat, cache: map<nat, Option<Item>>, seen: set<nat>, hitsBefore: seq<Item>,
        seedsBefore: seq<string>, ghost ids: seq<nat>)
    returns (hits: seq<Item>, seeds: seq<string>, isHit: bool)
    requires (forall v :: v in cache ==> cache[v] == w.item(v)) && Recorded(w, ids, hitsBefore, seedsBefore)
    ensures isHit <==> v !in seen && v in cache && Relevant(w, v)
    ensures Recorded(w, if isHit then ids + [v] else ids, hits, seeds)
  {
    hits, seeds, isHit := hitsBefore, seedsBefore, false;
    if v !in seen {
      var resolved := if v in cache then cache[v] else None;
      if resolved.Some? && w.similarity(v) >= MIN_HIT_SIMILARITY {
        hits, seeds := Record(w, hits, seeds, resolved.value, ids, v);
        isHit := true;
      }
    }
  }

  /** What a pass has done once it has looked at the first `i` ids. */
  ghost predicate Scanned(w: World, attempt: nat, raw: seq<nat>, i: nat, seenBefore: set<nat>, ids: seq<nat>,
        seen: set<nat>, hits: seq<Item>, seeds: seq<string>, top: Option<real>)
    requires i <= |raw|
  {
    var found := PassHits(w, attempt, raw[..i], seenBefore);
    seen == seenBefore + Members(raw[..i]) && Recorded(w, ids + found, hits, seeds) && top == FirstSimilarity(w, found)
  }

  method ScanOne(w: World, attempt: nat, raw: seq<nat>, i: nat, cache: map<nat, Option<Item>>,
        ghost seenBefore: set<nat>, ghost ids: seq<nat>, seen: set<nat>, hitsBefore: seq<Item>,
        seedsBefore: seq<string>, topBefore: Option<real>)
    returns (hits: seq<Item>, seeds: seq<string>, top: Option<real>)
    requires i < |raw| && CacheServes(w, cache, attempt, raw, seenBefore)
    requires Scanned(w, attempt, raw, i, seenBefore, ids, seen, hitsBefore, seedsBefore, topBefore)
    ensures Scanned(w, attempt, raw, i + 1, seenBefore, ids, seen + {raw[i]}, hits, seeds, top)
  {
    hide Recorded, Keep, NewIds, Relevant;
    ghost var found := PassHits(w, attempt, raw[..i], seenBefore);
    var v, isHit := raw[i], false;
    hits, seeds, isHit := Consider(w, v, cache, seen, hitsBefore, seedsBefore, ids + found);
    FoundStep(w, attempt, raw, i, seenBefore);
    ghost var more := if isHit then [v] else [];
    assert PassHits(w, attempt, raw[..i + 1], seenBefore) == found + more;
    assert (ids + found) + more == ids + (found + more) && (ids + found) + [] == ids + found;
    top := if isHit && topBefore.None? then Some(w.similarity(v)) else topBefore;
  }

  /** One pass over a raw result. `top` is the similarity of its first hit. */
  method ScanPass(w: World, attempt: nat, raw: seq<nat>, cache: map<nat, Option<Item>>, seenBefore: set<nat>,
        hitsBefore: seq<Item>, seedsBefore: seq<string>, ghost ids: seq<nat>)
    returns (seen: set<nat>, hits: seq<Item>, seeds: seq<string>, top: Option<real>)
    requires CacheServes(w, cache, attempt, raw, seenBefore) && Recorded(w, ids, hitsBefore, seedsBefore)
    ensures seen == seenBefore + Members(raw)
    ensures Recorded(w, ids + PassHits(w, attempt, raw, seenBefore), hits, seeds)
    ensures top == FirstSimilarity(w, PassHits(w, attempt, raw, seenBefore))
  {
    seen, hits, seeds, top := seenBefore, hitsBefore, seedsBefore, None;
    var i := 0;
    assert ids + PassHits(w, attempt, raw[..0], seenBefore) == ids;
    while i < |raw|
      invariant 0 <= i <= |raw| && Scanned(w, attempt, raw, i, seenBefore, ids, seen, hits, seeds, top)
    {
      hits, seeds, top := ScanOne(w, attempt, raw, i, cache, seenBefore, ids, seen, hits, seeds, top);
      seen := seen + {raw[i]};
      i := i + 1;
    }
    assert raw[..i] == raw;
  }

  lemma FoundStep(w: World, attempt: nat, raw: seq<nat>, i: nat, seen: set<nat>)
    requires i < |raw|
    ensures Members(raw[..i + 1]) == Members(raw[..i]) + {raw[i]}
    ensures var v := raw[i];
            var isHit := w.lookupOk(attempt) && v !in seen + Members(raw[..i]) && Relevant(w, v);
            PassHits(w, attempt, raw[..i + 1], seen) == PassHits(w, attempt, raw[..i], seen) + if isHit then [v] else []
  {
    NewIdsStep(w, raw, i, seen);
  }

  lemma {:induction false} KeepMembers(w: World, ids: seq<nat>)
    ensures forall v :: v in Keep(w, ids) <==> v in ids && Relevant(w, v)
  {
    if ids != [] {
      KeepMembers(w, ids[..|ids| - 1]);
    }
  }

  lemma NewIdsMembers(raw: seq<nat>, seen: set<nat>)
    ensures forall v :: v in NewIds(raw, seen) <==> v in raw && v !in seen
  {
    if raw != [] {
      NewIdsMembers(raw[..|raw| - 1], seen);
    }
  }

  lemma NewIdsStep(w: World, raw: seq<nat>, i: nat, seen: set<nat>)
    requires i < |raw|
    ensures Members(raw[..i + 1]) == Members(raw[..i]) + {raw[i]}
    ensures var before := NewIds(raw[..i], seen);
            var v := raw[i];
            NewIds(raw[..i + 1], seen) == if v in seen + Members(raw[..i]) then before else before + [v]
    ensures var before := NewIds(raw[..i], seen);
            var v := raw[i];
            Keep(w, before + [v]) == Keep(w, before) + if Relevant(w, v) then [v] else []
  {
    NewIdsMembers(raw[..i], seen);
    assert raw[..i + 1][..i] == raw[..i];
    var before := NewIds(raw[..i], seen);
    assert (before + [raw[i]])[..|before|] == before;
  }

  /** What the loop carries after the passes over `widths`. */
  ghost predicate Progress(w: World, widths: seq<nat>, seen: set<nat>, cache: map<nat, Option<Item>>, hits: seq<Item>,
        seeds: seq<string>) {
    && seen == Seen(w, widths) && cache.Keys <= seen
    && (forall v :: v in cache ==> cache[v] == w.item(v))
    && Recorded(w, Collected(w, widths), hits, seeds)
  }

  method Pass(w: World, ghost widths: seq<nat>, attempt: nat, width: nat, seenBefore: set<nat>, cacheBefore: map<nat,
        Option<Item>>, hitsBefore: seq<Item>, seedsBefore: seq<string>)
    returns (raw: seq<nat>, seen: set<nat>, cache: map<nat, Option<Item>>, hits: seq<Item>, seeds: seq<string>,
        top: Option<real>)
    requires Progress(w, widths, seenBefore, cacheBefore, hitsBefore, seedsBefore) && attempt == |widths| + 1
    ensures raw == w.raw(attempt, width)
    ensures Progress(w, widths + [width], seen, cache, hits, seeds)
    ensures |hits| == |hitsBefore| + |LastFound(w, widths + [width])| == |Collected(w, widths + [width])|
    ensures top == FirstSimilarity(w, LastFound(w, widths + [width]))
  {
    raw := w.raw(attempt, width);
    cache := Resolve(w, attempt, raw, cacheBefore);
    seen, hits, seeds, top := ScanPass(w, attempt, raw, cache, seenBefore, hitsBefore, seedsBefore,
        Collected(w, widths));
    assert (widths + [width])[..|widths|] == widths;
  }

  lemma WidensNext(cfg: Config, maxTop: nat, widths: seq<nat>)
    requires WidensFrom(cfg, maxTop, widths) && maxTop <= USIZE_MAX
    ensures var last := widths[|widths| - 1];
            var next := NextTop(cfg, last, maxTop);
            last <= next && (last < next ==> WidensFrom(cfg, maxTop, widths + [next]))
    ensures var last := widths[|widths| - 1]; NextTop(cfg, last, maxTop) == last ==> last == maxTop || cfg.step == 0
  {}

  lemma StopDecision(w: World, cfg: Config, minHits: nat, maxTop: nat, widths: seq<nat>, s: AnnState, before: nat)
    requires widths != [] && s.attempt == |widths| && s.currentTop == widths[|widths| - 1] && s.maxTop == maxTop
    requires s.minHits == minHits
    requires s.hitCount == |Collected(w, widths)| == before + |LastFound(w, widths)|
    requires s.topSimilarity == FirstSimilarity(w, LastFound(w, widths))
    requires s.prevHitCount == PrevHits(w, widths) && s.prevTopSimilarity == PrevSimilarity(w, widths)
    ensures StopsAfter(w, cfg, minHits, maxTop, widths) <==>
              ShouldStop(cfg, s) || (s.attempt >= 2 && s.hitCount >= minHits && s.hitCount == before)
  {
    assert s == StateAfter(w, minHits, maxTop, widths);
  }

  lemma WentOn(w: World, cfg: Config, minHits: nat, maxTop: nat, widths: seq<nat>, next: nat)
    requires widths != [] && NeverStopped(w, cfg, minHits, maxTop, widths)
    requires !StopsAfter(w, cfg, minHits, maxTop, widths)
    ensures (widths + [next])[..|widths|] == widths
    ensures NeverStopped(w, cfg, minHits, maxTop, widths + [next])
    ensures PrevHits(w, widths + [next]) == Some(|Collected(w, widths)|)
    ensures PrevSimilarity(w, widths + [next]) == FirstSimilarity(w, LastFound(w, widths))
  {
    var more := widths + [next];
    assert more[..|widths|] == widths;
    forall n: nat | 1 <= n < |more| ensures !StopsAfter(w, cfg, minHits, maxTop, more[..n]) {
      if n < |widths| {
        assert more[..n] == widths[..n];
      }
    }
  }

  /** The stop rule, from what the loop keeps track of. */
  method Decide(w: World, cfg: Config, minHits: nat, maxTop: nat, ghost widths: seq<nat>, attempts: nat, top: nat,
        hits: nat, hitsBefore: nat, similarity: Option<real>, prevHits: Option<nat>, prevSimilarity: Option<real>)
    returns (stop: bool)
    requires attempts == |widths| >= 1 && top == widths[attempts - 1]
    requires hits == |Collected(w, widths)| == hitsBefore + |LastFound(w, widths)|
    requires similarity == FirstSimilarity(w, LastFound(w, widths))
    requires prevHits == PrevHits(w, widths) && prevSimilarity == PrevSimilarity(w, widths)
    ensures stop <==> StopsAfter(w, cfg, minHits, maxTop, widths)
  {
    var state := AnnState(attempts, top, maxTop, hits, minHits, similarity, prevHits, prevSimilarity);
    StopDecision(w, cfg, minHits, maxTop, widths, state, hitsBefore);
    stop := ShouldStop(cfg, state) || (attempts >= 2 && hits >= minHits && hits == hitsBefore);
  }

  /** One turn of the loop: a pass at the current width, then the stop rule. */
  method Attempt(w: World, cfg: Config, minHits: nat, maxTop: nat, ghost widths: seq<nat>, attempts: nat, top: nat,
        prevHits: Option<nat>, prevSimilarity: Option<real>, seenBefore: set<nat>,
        cacheBefore: map<nat, Option<Item>>, hitsBefore: seq<Item>, seedsBefore: seq<string>)
    returns (stop: bool, raw: seq<nat>, seen: set<nat>, cache: map<nat, Option<Item>>, hits: seq<Item>,
        seeds: seq<string>, similarity: Option<real>)
    requires attempts == |widths| >= 1 && top == widths[attempts - 1]
    requires Progress(w, widths[..attempts - 1], seenBefore, cacheBefore, hitsBefore, seedsBefore)
    requires prevHits == PrevHits(w, widths) && prevSimilarity == PrevSimilarity(w, widths)
    ensures raw == w.raw(attempts, top) && Progress(w, widths, seen, cache, hits, seeds)
    ensures similarity == FirstSimilarity(w, LastFound(w, widths))
    ensures stop <==> StopsAfter(w, cfg, minHits, maxTop, widths)
  {
    raw, seen, cache, hits, seeds, similarity := Pass(w, widths[..attempts - 1], attempts, top, seenBefore,
        cacheBefore, hitsBefore, seedsBefore);
    assert widths[..attempts - 1] + [top] == widths;
    stop := Decide(w, cfg, minHits, maxTop, widths, attempts, top, |hits|, |hitsBefore|, similarity, prevHits,
        prevSimilarity);
  }

  /** Widens pass by pass until the hits suffice, the widths run out or the attempts do. */
  method WidenSearch(w: World, cfg: Config, limit: nat, maxTop: nat)
    returns (hits: seq<Item>, seeds: seq<string>, attempts: nat, top: nat, raw: seq<nat>, ghost widths: seq<nat>)
    requires maxTop <= USIZE_MAX
    ensures WidensFrom(cfg, maxTop, widths) && attempts == |widths| && top == widths[attempts - 1]
    ensures attempts <= if cfg.maxAttempts == 0 then 1 else cfg.maxAttempts
    ensures Recorded(w, Collected(w, widths), hits, seeds)
    ensures raw == w.raw(attempts, top)
    ensures NeverStopped(w, cfg, ScopedMinHits(cfg, limit, maxTop), maxTop, widths)
    ensures StopsAfter(w, cfg, ScopedMinHits(cfg, limit, maxTop), maxTop, widths) || NextTop(cfg, top, maxTop) == top
  {
    var minHits := ScopedMinHits(cfg, limit, maxTop);
    top, attempts, hits, seeds := ScopedStart(cfg, maxTop), 1, [], [];
    var prevHits: Option<nat>, similarity: Option<real> := None, None;
    var seen: set<nat>, cache: map<nat, Option<Item>>, stop := {}, map[], false;
    widths := [top];
    while true
      invariant WidensFrom(cfg, maxTop, widths) && attempts == |widths| && top == widths[attempts - 1]
      invariant attempts == 1 || attempts <= cfg.maxAttempts
      invariant Progress(w, widths[..attempts - 1], seen, cache, hits, seeds)
      invariant prevHits == PrevHits(w, widths) && similarity == PrevSimilarity(w, widths)
      invariant NeverStopped(w, cfg, minHits, maxTop, widths)
      decreases maxTop - top
    {
      stop, raw, seen, cache, hits, seeds, similarity := Attempt(w, cfg, minHits, maxTop, widths, attempts, top,
          prevHits, similarity, seen, cache, hits, seeds);
      if stop {
        break;
      }
      var next := NextTop(cfg, top, maxTop);
      WidensNext(cfg, maxTop, widths);
      if next == top {
        break;
      }
      prevHits := Some(|hits|);
      WentOn(w, cfg, minHits, maxTop, widths, next);
      widths := widths + [next];
      top, attempts := next, attempts + 1;
    }
  }

  /** When a run ends: at the largest width or the last attempt; and from the second pass on, with enough hits in hand,
      as soon as a pass finds nothing new, or finds something new that is similar enough while either the number of new
      hits or the change in the first new hit's similarity is small. */
  lemma StopsIff(w: World, cfg: Config, minHits: nat, maxTop: nat, widths: seq<nat>)
    requires widths != []
    ensures var n := |widths|;
            var found := LastFound(w, widths);
            StopsAfter(w, cfg, minHits, maxTop, widths) <==>
              || widths[n - 1] >= maxTop || n >= cfg.maxAttempts
              || (n >= 2 && |Collected(w, widths)| >= minHits &&
                  (found == [] ||
                   (w.similarity(found[0]) >= cfg.minSimilarity &&
                    (|found| <= cfg.maxHitGain ||
                     var before := LastFound(w, widths[..n - 1]);
                     before != [] &&
                     -cfg.minSimilarityGain <= w.similarity(found[0]) - w.similarity(before[0])
                       <= cfg.minSimilarityGain))))
  {
    assert |Collected(w, widths)| == |Collected(w, widths[..|widths| - 1])| + |LastFound(w, widths)|;
  }

  /** The loop gives up short of its target only when the widths or the attempts are used up, or cannot grow. */
  lemma EnoughHitsOrExhausted(w: World, cfg: Config, limit: nat, maxTop: nat, widths: seq<nat>)
    requires WidensFrom(cfg, maxTop, widths) && maxTop <= USIZE_MAX
    requires var last := widths[|widths| - 1];
             StopsAfter(w, cfg, ScopedMinHits(cfg, limit, maxTop), maxTop, widths) || NextTop(cfg, last, maxTop) == last
    ensures || |Collected(w, widths)| >= ScopedMinHits(cfg, limit, maxTop)
            || widths[|widths| - 1] == maxTop || |widths| >= cfg.maxAttempts || cfg.step == 0
  {
    WidensNext(cfg, maxTop, widths);
  }

  // ----- What the collected hits mean -----

  /** The pass in which `v` first shows up. */
  ghost predicate FirstSeenAt(w: World, widths: seq<nat>, a: nat, v: nat) {
    a < |widths| && v in w.raw(a + 1, widths[a]) && v !in Seen(w, widths[..a])
  }

  lemma FirstSeenInPrefix(w: World, widths: seq<nat>, n: nat, a: nat, v: nat)
    requires n <= |widths|
    ensures FirstSeenAt(w, widths[..n], a, v) <==> a < n && FirstSeenAt(w, widths, a, v)
  {
    if a < n {
      assert widths[..n][..a] == widths[..a];
    }
  }

  lemma {:induction false} SeenIsUnion(w: World, widths: seq<nat>, v: nat)
    ensures v in Seen(w, widths) <==> exists a: nat :: FirstSeenAt(w, widths, a, v)
  {
    if widths != [] {
      var n := |widths| - 1;
      SeenIsUnion(w, widths[..n], v);
      forall a: nat ensures FirstSeenAt(w, widths[..n], a, v) <==> a < n && FirstSeenAt(w, widths, a, v) {
        FirstSeenInPrefix(w, widths, n, a, v);
      }
      assert v in Seen(w, widths) && v !in Seen(w, widths[..n]) ==> FirstSeenAt(w, widths, n, v);
    }
  }

  /** `v` first shows up in pass `a`, whose lookup succeeds. */
  ghost predicate LookedUpAt(w: World, widths: seq<nat>, a: nat, v: nat) {
    FirstSeenAt(w, widths, a, v) && w.lookupOk(a + 1)
  }

  /** A hit is exactly a relevant id whose first pass resolved: an id that turns up while a lookup fails is not
      looked at again. */
  lemma {:induction false} CollectedMembers(w: World, widths: seq<nat>, v: nat)
    ensures v in Collected(w, widths) <==>
              w.item(v).Some? && w.similarity(v) >= 0.30 && exists a: nat :: LookedUpAt(w, widths, a, v)
  {
    if widths != [] {
      var n := |widths| - 1;
      CollectedMembers(w, widths[..n], v);
      PassMembers(w, widths, v);
      forall a: nat ensures LookedUpAt(w, widths[..n], a, v) <==> a < n && LookedUpAt(w, widths, a, v) {
        FirstSeenInPrefix(w, widths, n, a, v);
      }
      assert LookedUpAt(w, widths, n, v) ==> exists a: nat :: LookedUpAt(w, widths, a, v);
    }
  }

  lemma PassMembers(w: World, widths: seq<nat>, v: nat)
    requires widths != []
    ensures v in LastFound(w, widths) <==> Relevant(w, v) && LookedUpAt(w, widths, |widths| - 1, v)
    ensures v in Collected(w, widths) <==> v in Collected(w, widths[..|widths| - 1]) || v in LastFound(w, widths)
  {
    var n := |widths| - 1;
    NewIdsMembers(w.raw(n + 1, widths[n]), Seen(w, widths[..n]));
    KeepMembers(w, NewIds(w.raw(n + 1, widths[n]), Seen(w, widths[..n])));
  }

  lemma {:induction false} KeepDistinct(w: World, ids: seq<nat>)
    requires Distinct(ids)
    ensures Distinct(Keep(w, ids))
  {
    if ids != [] {
      KeepDistinct(w, ids[..|ids| - 1]);
      KeepMembers(w, ids[..|ids| - 1]);
    }
  }

  lemma {:induction false} NewIdsDistinct(raw: seq<nat>, seen: set<nat>)
    ensures Distinct(NewIds(raw, seen))
  {
    if raw != [] {
      NewIdsDistinct(raw[..|raw| - 1], seen);
    }
  }

  /** No vector id is collected twice. */
  lemma {:induction false} CollectedIsDistinct(w: World, widths: seq<nat>)
    ensures Distinct(Collected(w, widths))
    ensures forall v :: v in Collected(w, widths) ==> v in Seen(w, widths)
  {
    if widths != [] {
      var n := |widths| - 1;
      var raw, earlier := w.raw(n + 1, widths[n]), widths[..n];
      CollectedIsDistinct(w, earlier);
      var found := PassHits(w, n + 1, raw, Seen(w, earlier));
      PassHitsDistinct(w, n + 1, raw, Seen(w, earlier));
      ConcatDistinct(Collected(w, earlier), found);
      assert Collected(w, widths) == Collected(w, earlier) + found;
    }
  }

  lemma ConcatDistinct(a: seq<nat>, b: seq<nat>)
    requires Distinct(a) && Distinct(b) && forall v :: v in b ==> v !in a
    ensures Distinct(a + b)
  {
    forall i, j | 0 <= i < j < |a + b| ensures (a + b)[i] != (a + b)[j] {
      assert j >= |a| ==> b[j - |a|] in b;
    }
  }

  lemma PassHitsDistinct(w: World, attempt: nat, raw: seq<nat>, seen: set<nat>)
    ensures Distinct(PassHits(w, attempt, raw, seen))
    ensures forall v :: v in PassHits(w, attempt, raw, seen) ==> v in Members(raw) && v !in seen
  {
    NewIdsMembers(raw, seen);
    NewIdsDistinct(raw, seen);
    KeepMembers(w, NewIds(raw, seen));
    KeepDistinct(w, NewIds(raw, seen));
  }

  /** A search whose results only gain ids with width and never fails. */
  ghost predicate Grows(w: World, search: nat -> seq<nat>) {
    && (forall a: nat, k: nat :: w.raw(a, k) == search(k))
    && (forall j: nat, k: nat :: j <= k ==> Members(search(j)) <= Members(search(k)))
  }

  lemma {:induction false} GrowingSeen(w: World, search: nat -> seq<nat>, widths: seq<nat>)
    requires Grows(w, search) && widths != []
    requires forall i, j :: 0 <= i < j < |widths| ==> widths[i] < widths[j]
    ensures Seen(w, widths) == Members(search(widths[|widths| - 1]))
  {
    var n := |widths| - 1;
    if n > 0 {
      GrowingSeen(w, search, widths[..n]);
      assert Members(search(widths[n - 1])) <= Members(search(widths[n]));
    }
  }

  /** `v` first showed up in a pass whose lookup failed. */
  ghost predicate Lost(w: World, widths: seq<nat>, v: nat) {
    exists a: nat :: FirstSeenAt(w, widths, a, v) && !w.lookupOk(a + 1)
  }

  lemma CollectedUnlessLost(w: World, widths: seq<nat>, v: nat)
    ensures v in Collected(w, widths) <==> Relevant(w, v) && v in Seen(w, widths) && !Lost(w, widths, v)
  {
    CollectedMembers(w, widths, v);
    SeenIsUnion(w, widths, v);
    if v in Seen(w, widths) {
      var a: nat :| FirstSeenAt(w, widths, a, v);
      OneFirstPass(w, widths, a, v);
    }
  }

  lemma OneFirstPass(w: World, widths: seq<nat>, a: nat, v: nat)
    requires FirstSeenAt(w, widths, a, v)
    ensures Lost(w, widths, v) <==> !w.lookupOk(a + 1)
    ensures (exists b: nat :: LookedUpAt(w, widths, b, v)) <==> w.lookupOk(a + 1)
  {
    forall b: nat | FirstSeenAt(w, widths, b, v) ensures a == b {
      FirstSeenOnce(w, widths, a, b, v);
    }
    assert w.lookupOk(a + 1) ==> LookedUpAt(w, widths, a, v);
  }

  /** With a growing search, the hits are the relevant results of one search at the final width exactly when none of
      those first showed up in a pass whose lookup failed. */
  lemma HitsMatchFinalSearchIff(w: World, search: nat -> seq<nat>, cfg: Config, maxTop: nat, widths: seq<nat>)
    requires Grows(w, search) && WidensFrom(cfg, maxTop, widths)
    ensures var final := Keep(w, search(widths[|widths| - 1]));
            (forall v :: v in Collected(w, widths) <==> v in final) <==>
              (forall v :: v in final ==> !Lost(w, widths, v))
  {
    GrowingSeen(w, search, widths);
    KeepMembers(w, search(widths[|widths| - 1]));
    forall v ensures v in Collected(w, widths) <==> v in Keep(w, search(widths[|widths| - 1])) && !Lost(w, widths, v) {
      CollectedUnlessLost(w, widths, v);
    }
  }

  /** Every pass finds one relevant id and only the first lookup fails. */
  function FailsFirst(v: nat, item: Item): World {
    World((a, k) => [v], a => a != 1, u => if u == v then Some(item) else None, u => 1.0)
  }

  lemma {:induction false} NothingCollected(v: nat, item: Item, widths: seq<nat>)
    ensures Collected(FailsFirst(v, item), widths) == []
    ensures Seen(FailsFirst(v, item), widths) == if widths == [] then {} else {v}
  {
    if widths != [] {
      var earlier := widths[..|widths| - 1];
      NothingCollected(v, item, earlier);
      if earlier != [] {
        NewIdsNone([v], Seen(FailsFirst(v, item), earlier));
      }
    }
  }

  lemma GoesOn(cfg: Config, limit: nat, maxTop: nat, v: nat, item: Item, widths: seq<nat>)
    requires maxTop <= USIZE_MAX && ScopedStart(cfg, maxTop) < maxTop && cfg.step > 0 && cfg.maxAttempts >= 2
    requires ScopedMinHits(cfg, limit, maxTop) > 0 && WidensFrom(cfg, maxTop, widths)
    requires var last := widths[|widths| - 1];
             StopsAfter(FailsFirst(v, item), cfg, ScopedMinHits(cfg, limit, maxTop), maxTop, widths)
             || NextTop(cfg, last, maxTop) == last
    ensures |widths| >= 2
  {
    if |widths| == 1 {
      NothingCollected(v, item, widths);
      WidensNext(cfg, maxTop, widths);
      assert false;
    }
  }

  /** Such a run goes on to passes whose lookups succeed and still ends without the id that one search at its final
      width would have kept. */
  method LoseToFailedLookup(cfg: Config, limit: nat, maxTop: nat, v: nat, item: Item)
    returns (w: World, hits: seq<Item>, seeds: seq<string>, attempts: nat, top: nat, ghost widths: seq<nat>)
    requires maxTop <= USIZE_MAX && ScopedStart(cfg, maxTop) < maxTop && cfg.step > 0 && cfg.maxAttempts >= 2
    requires ScopedMinHits(cfg, limit, maxTop) > 0
    ensures WidensFrom(cfg, maxTop, widths) && attempts == |widths| >= 2 && top == widths[attempts - 1]
    ensures Recorded(w, Collected(w, widths), hits, seeds)
    ensures NeverStopped(w, cfg, ScopedMinHits(cfg, limit, maxTop), maxTop, widths)
    ensures StopsAfter(w, cfg, ScopedMinHits(cfg, limit, maxTop), maxTop, widths) || NextTop(cfg, top, maxTop) == top
    ensures Grows(w, k => w.raw(attempts, k)) && forall a: nat :: a >= 2 ==> w.lookupOk(a)
    ensures Keep(w, w.raw(attempts, top)) == [v] && hits == []
  {
    hide StopsAfter, NeverStopped, ScopedMinHits;
    w := FailsFirst(v, item);
    var raw;
    hits, seeds, attempts, top, raw, widths := WidenSearch(w, cfg, limit, maxTop);
    NothingCollected(v, item, widths);
    GoesOn(cfg, limit, maxTop, v, item, widths);
    assert Keep(w, []) == [];
  }

  lemma FirstSeenOnce(w: World, widths: seq<nat>, a: nat, b: nat, v: nat)
    requires FirstSeenAt(w, widths, a, v) && FirstSeenAt(w, widths, b, v)
    ensures a == b
  {
    var low, high := Min(a, b), if a <= b then b else a;
    if low < high {
      assert widths[..high][..low] == widths[..low];
      assert FirstSeenAt(w, widths[..high], low, v);
      SeenIsUnion(w, widths[..high], v);
    }
  }

  /** A search whose result at a width is the start of its result at any larger one, with no id twice. */
  ghost predicate Extends(w: World, search: nat -> seq<nat>) {
    && (forall a: nat, k: nat :: w.raw(a, k) == search(k))
    && (forall j: nat, k: nat :: j <= k ==> search(j) <= search(k))
    && (forall k: nat :: Distinct(search(k)))
  }

  lemma {:induction false} NewIdsNone(raw: seq<nat>, seen: set<nat>)
    requires Members(raw) <= seen
    ensures NewIds(raw, seen) == []
  {
    if raw != [] {
      assert raw[|raw| - 1] in Members(raw) && Members(raw[..|raw| - 1]) <= Members(raw);
      NewIdsNone(raw[..|raw| - 1], seen);
    }
  }

  lemma {:induction false} NewIdsOfExtension(short: seq<nat>, long: seq<nat>)
    requires short <= long && Distinct(long)
    ensures NewIds(long, Members(short)) == long[|short|..]
  {
    if |long| == |short| {
      assert long == short && long[|short|..] == [];
      NewIdsNone(long, Members(short));
    } else {
      var n := |long| - 1;
      NewIdsOfExtension(short, long[..n]);
      NewIdsMembers(long[..n], Members(short));
      assert long[|short|..] == long[..n][|short|..] + [long[n]];
      assert long[n] !in long[..n];
      assert forall v :: v in short ==> v in long[..n];
    }
  }

  lemma KeepNext(w: World, ids: seq<nat>, v: nat)
    ensures Keep(w, ids + [v]) == Keep(w, ids) + KeepOne(w, v)
  {
    assert (ids + [v])[..|ids|] == ids;
  }

  lemma {:induction false} KeepSplits(w: World, a: seq<nat>, b: seq<nat>)
    ensures Keep(w, a + b) == Keep(w, a) + Keep(w, b)
  {
    if b == [] {
      assert a + b == a;
    } else {
      var front, v := b[..|b| - 1], b[|b| - 1];
      assert b == front + [v] && a + b == (a + front) + [v];
      KeepSplits(w, a, front);
      KeepNext(w, front, v);
      KeepNext(w, a + front, v);
    }
  }

  ghost predicate LookupsSucceed(w: World, attempts: nat) {
    forall a: nat :: 1 <= a <= attempts ==> w.lookupOk(a)
  }

  /** With lookups that succeed and a search that extends itself, widening costs nothing: the hits are, in order, the
      relevant results of one search at the final width. */
  lemma {:induction false} HitsAreFinalSearch(w: World, search: nat -> seq<nat>, widths: seq<nat>)
    requires Extends(w, search) && widths != [] && LookupsSucceed(w, |widths|)
    requires forall i, j :: 0 <= i < j < |widths| ==> widths[i] < widths[j]
    ensures Seen(w, widths) == Members(search(widths[|widths| - 1]))
    ensures Collected(w, widths) == Keep(w, search(widths[|widths| - 1]))
  {
    hide KeepOne, Relevant;
    var n := |widths| - 1;
    var long := search(widths[n]);
    if n == 0 {
      var none: seq<nat> := [];
      NewIdsOfExtension(none, long);
      assert Seen(w, widths[..n]) == Members(none) && long[|none|..] == long;
      assert w.lookupOk(n + 1);
    } else {
      var short := search(widths[n - 1]);
      HitsAreFinalSearch(w, search, widths[..n]);
      assert short <= long && Distinct(long);
      NewIdsOfExtension(short, long);
      assert long == short + long[|short|..];
      KeepSplits(w, short, long[|short|..]);
      assert w.lookupOk(n + 1);
    }
  }
}
