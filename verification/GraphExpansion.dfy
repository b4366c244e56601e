/** Batched graph expansion for several seeds over one shared neighbour memo: `src/query/route.rs`. */
module GraphExpansion {
  import opened Collections
  import opened Ordering

  datatype EdgeType =
    | DerivedFrom | DerivedVariant | Supersedes | SupersededBy | Supports | Derives | Updates
    | Prefers | WorksAt | LivesIn | CausedBy | LeadsTo | Default

  datatype Intent =
    | NumericAggregation | TemporalAggregation | Recommendation | Inference | PeripheralMention | General | NoIntent

  /** Score arithmetic. Nothing is assumed of it: no associativity, no commutativity. */
  datatype Arith<!S> = Arith(zero: S, one: S, boost: S, decay: S, add: (S, S) -> S, mul: (S, S) -> S)

  datatype Edge<S> = Edge(target: string, weight: S, kind: EdgeType)

  type Scores<S> = map<string, S>

  /** Whether an edge type aligns with the query's intent. */
  predicate Aligned(kind: EdgeType, intent: Intent) {
    match intent
    case Inference => kind.CausedBy? || kind.LeadsTo? || kind.Prefers?
    case Recommendation => kind.CausedBy? || kind.LeadsTo? || kind.Prefers?
    case PeripheralMention => kind.Updates? || kind.Supports?
    case _ => false
  }

  function IntentWeight<S>(a: Arith<S>, kind: EdgeType, intent: Intent): S {
    if Aligned(kind, intent) then a.boost else a.one
  }

  // ----- One round, as folds -----

  function Bumped<S>(a: Arith<S>, scores: Scores<S>, e: Edge<S>, pathWeight: S, intent: Intent): Scores<S> {
    var before := if e.target in scores then scores[e.target] else a.zero;
    scores[e.target := a.add(before, a.mul(a.mul(pathWeight, e.weight), IntentWeight(a, e.kind, intent)))]
  }

  function AddEdges<S>(a: Arith<S>, scores: Scores<S>, edges: seq<Edge<S>>, pathWeight: S, intent: Intent): Scores<S> {
    if edges == [] then scores
    else
      var n := |edges| - 1;
      Bumped(a, AddEdges(a, scores, edges[..n], pathWeight, intent), edges[n], pathWeight, intent)
  }

  function AddTargets<S>(next: seq<string>, edges: seq<Edge<S>>): seq<string> {
    if edges == [] then next else
    var rest := AddTargets(next, edges[..|edges| - 1]);
    if edges[|edges| - 1].target in rest then rest else rest + [edges[|edges| - 1].target]
  }

  function AddFrontier<S>(a: Arith<S>, oracle: string -> seq<Edge<S>>, scores: Scores<S>, frontier: seq<string>,
        pathWeight: S, intent: Intent): Scores<S> {
    if frontier == [] then scores
    else AddEdges(a, AddFrontier(a, oracle, scores, frontier[..|frontier| - 1], pathWeight, intent),
           oracle(frontier[|frontier| - 1]), pathWeight, intent)
  }

  function NextFrontier<S>(oracle: string -> seq<Edge<S>>, frontier: seq<string>): seq<string> {
    if frontier == [] then [] else
    var n := |frontier| - 1;
    AddTargets(NextFrontier(oracle, frontier[..n]), oracle(frontier[n]))
  }

  // ----- The independent walk of one seed -----

  /** One round of a walk: how scores, frontier and path weight move on. */
  datatype Round<!S> = Round(expand: (Scores<S>, seq<string>, S) -> Scores<S>, succ: seq<string> -> seq<string>,
        decay: S -> S, start: S)

  function RoundOf<S>(a: Arith<S>, oracle: string -> seq<Edge<S>>, intent: Intent): Round<S> {
    Round((scores, frontier, weight) => AddFrontier(a, oracle, scores, frontier, weight, intent),
          frontier => NextFrontier(oracle, frontier),
          weight => a.mul(weight, a.decay),
          a.one)
  }

  /** Depth-decayed walk that stops as soon as nothing new is reached. */
  function WalkFrom<S>(r: Round<S>, frontier: seq<string>, scores: Scores<S>, weight: S, depth: nat): Scores<S>
    decreases depth
  {
    if depth == 0 then scores else
    var scores' := r.expand(scores, frontier, weight);
    var next := r.succ(frontier);
    if next == [] then scores' else WalkFrom(r, next, scores', r.decay(weight), depth - 1)
  }

  function Walk<S>(a: Arith<S>, oracle: string -> seq<Edge<S>>, seed: string, depth: nat, intent: Intent): Scores<S> {
    WalkFrom(RoundOf(a, oracle, intent), [seed], map[], a.one, depth)
  }

  /** Path weight, frontier and scores after `depth` rounds without stopping early. */
  function WeightAt<S>(r: Round<S>, depth: nat): S {
    if depth == 0 then r.start else r.decay(WeightAt(r, depth - 1))
  }

  function FrontierAt<S>(r: Round<S>, seed: string, depth: nat): seq<string> {
    if depth == 0 then [seed] else r.succ(FrontierAt(r, seed, depth - 1))
  }

  function ScoresAt<S>(r: Round<S>, seed: string, depth: nat): Scores<S> {
    if depth == 0 then map[] else
    var d := depth - 1;
    r.expand(ScoresAt(r, seed, d), FrontierAt(r, seed, d), WeightAt(r, d))
  }

  /** Expanding nothing reaches nothing and scores nothing. */
  ghost predicate Settles<S(!new)>(r: Round<S>) {
    r.succ([]) == [] && forall scores, weight :: r.expand(scores, [], weight) == scores
  }

  lemma {:induction false} EmptyStays<S(!new)>(r: Round<S>, seed: string, depth: nat, later: nat)
    requires Settles(r) && FrontierAt(r, seed, depth) == [] && depth <= later
    ensures FrontierAt(r, seed, later) == [] && ScoresAt(r, seed, later) == ScoresAt(r, seed, depth)
  {
    if later > depth { EmptyStays(r, seed, depth, later - 1); }
  }

  lemma {:induction false} WalkContinues<S(!new)>(r: Round<S>, seed: string, done: nat, depth: nat)
    requires Settles(r) && done <= depth
    ensures WalkFrom(r, FrontierAt(r, seed, done), ScoresAt(r, seed, done), WeightAt(r, done), depth - done) ==
              ScoresAt(r, seed, depth)
    decreases depth - done
  {
    if done < depth {
      if FrontierAt(r, seed, done + 1) == [] {
        EmptyStays(r, seed, done + 1, depth);
      } else {
        WalkContinues(r, seed, done + 1, depth);
      }
    }
  }

  /** Stopping early changes no score. */
  lemma WalkIsScoresAt<S(!new)>(a: Arith<S>, oracle: string -> seq<Edge<S>>, seed: string, depth: nat, intent: Intent)
    ensures Walk(a, oracle, seed, depth, intent) == ScoresAt(RoundOf(a, oracle, intent), seed, depth)
  {
    WalkContinues(RoundOf(a, oracle, intent), seed, 0, depth);
  }

  // ----- What the walk reaches -----

  ghost predicate Linked<S(!new)>(oracle: string -> seq<Edge<S>>, y: string, x: string) {
    exists e :: e in oracle(y) && e.target == x
  }

  /** `path` follows edges from `seed` to `x`. */
  ghost predicate Leads<S(!new)>(oracle: string -> seq<Edge<S>>, path: seq<string>, seed: string, x: string) {
    && path != [] && path[0] == seed && path[|path| - 1] == x
    && forall i :: 0 < i < |path| ==> Linked(oracle, path[i - 1], path[i])
  }

  /** Some path of `d` edges leads from `seed` to `x`. */
  ghost predicate Reaches<S(!new)>(oracle: string -> seq<Edge<S>>, seed: string, d: nat, x: string) {
    exists path :: |path| == d + 1 && Leads(oracle, path, seed, x)
  }

  lemma ReachesNext<S(!new)>(oracle: string -> seq<Edge<S>>, seed: string, d: nat, x: string)
    ensures Reaches(oracle, seed, d + 1, x) <==> exists y :: Reaches(oracle, seed, d, y) && Linked(oracle, y, x)
  {
    if Reaches(oracle, seed, d + 1, x) {
      var path :| |path| == d + 2 && Leads(oracle, path, seed, x);
      assert Leads(oracle, path[..d + 1], seed, path[d]) && Linked(oracle, path[d], path[d + 1]);
    }
    if y :| Reaches(oracle, seed, d, y) && Linked(oracle, y, x) {
      var path :| |path| == d + 1 && Leads(oracle, path, seed, y);
      assert Leads(oracle, path + [x], seed, x);
    }
  }

  lemma {:induction false} TargetsAdded<S(!new)>(next: seq<string>, edges: seq<Edge<S>>)
    requires Distinct(next)
    ensures Distinct(AddTargets(next, edges)) && next <= AddTargets(next, edges)
    ensures forall x :: x in AddTargets(next, edges) <==> x in next || exists e :: e in edges && e.target == x
  {
    if edges != [] {
      var n := |edges| - 1;
      TargetsAdded(next, edges[..n]);
      assert edges == edges[..n] + [edges[n]];
    }
  }

  lemma {:induction false} NextIsLinked<S(!new)>(oracle: string -> seq<Edge<S>>, frontier: seq<string>)
    ensures Distinct(NextFrontier(oracle, frontier))
    ensures forall x :: x in NextFrontier(oracle, frontier) <==> exists y :: y in frontier && Linked(oracle, y, x)
  {
    if frontier != [] {
      var n := |frontier| - 1;
      NextIsLinked(oracle, frontier[..n]);
      TargetsAdded(NextFrontier(oracle, frontier[..n]), oracle(frontier[n]));
      assert frontier == frontier[..n] + [frontier[n]];
      forall x
        ensures x in NextFrontier(oracle, frontier) <==> exists y :: y in frontier && Linked(oracle, y, x)
      {
        assert x in NextFrontier(oracle, frontier) <==>
          x in NextFrontier(oracle, frontier[..n]) || Linked(oracle, frontier[n], x);
      }
    }
  }

  /** The frontier of level `d` lists every node that a path of `d` edges reaches, once. */
  lemma {:induction false} FrontierIsReached<S(!new)>(a: Arith<S>, oracle: string -> seq<Edge<S>>, seed: string,
        d: nat, intent: Intent)
    ensures Distinct(FrontierAt(RoundOf(a, oracle, intent), seed, d))
    ensures forall x :: x in FrontierAt(RoundOf(a, oracle, intent), seed, d) <==> Reaches(oracle, seed, d, x)
  {
    if d == 0 {
      assert Leads(oracle, [seed], seed, seed);
    } else {
      FrontierIsReached(a, oracle, seed, d - 1, intent);
      NextIsLinked(oracle, FrontierAt(RoundOf(a, oracle, intent), seed, d - 1));
      forall x ensures x in FrontierAt(RoundOf(a, oracle, intent), seed, d) <==> Reaches(oracle, seed, d, x) {
        ReachesNext(oracle, seed, d - 1, x);
      }
    }
  }

  lemma {:induction false} EdgesScore<S(!new)>(a: Arith<S>, scores: Scores<S>, edges: seq<Edge<S>>, w: S,
        intent: Intent)
    ensures forall x :: x in AddEdges(a, scores, edges, w, intent) <==>
              x in scores || exists e :: e in edges && e.target == x
  {
    if edges != [] {
      var n := |edges| - 1;
      EdgesScore(a, scores, edges[..n], w, intent);
      assert edges == edges[..n] + [edges[n]];
    }
  }

  lemma {:induction false} FrontierScores<S(!new)>(a: Arith<S>, oracle: string -> seq<Edge<S>>, scores: Scores<S>,
        frontier: seq<string>, w: S, intent: Intent, x: string)
    ensures x in AddFrontier(a, oracle, scores, frontier, w, intent) <==>
              x in scores || exists y :: y in frontier && Linked(oracle, y, x)
  {
    if frontier != [] {
      var n := |frontier| - 1;
      FrontierScores(a, oracle, scores, frontier[..n], w, intent, x);
      EdgesScore(a, AddFrontier(a, oracle, scores, frontier[..n], w, intent), oracle(frontier[n]), w, intent);
      assert frontier == frontier[..n] + [frontier[n]];
      assert x in AddFrontier(a, oracle, scores, frontier, w, intent) <==>
        x in AddFrontier(a, oracle, scores, frontier[..n], w, intent) || Linked(oracle, frontier[n], x);
    }
  }

  /** A walk scores exactly what some path of one to `depth` edges reaches. */
  lemma {:induction false} ScoredIff<S(!new)>(a: Arith<S>, oracle: string -> seq<Edge<S>>, seed: string, depth: nat,
        intent: Intent, x: string)
    ensures x in ScoresAt(RoundOf(a, oracle, intent), seed, depth) <==>
              exists d: nat :: 0 < d <= depth && Reaches(oracle, seed, d, x)
  {
    if depth > 0 {
      var r, d := RoundOf(a, oracle, intent), depth - 1;
      ScoredIff(a, oracle, seed, d, intent, x);
      FrontierIsReached(a, oracle, seed, d, intent);
      FrontierScores(a, oracle, ScoresAt(r, seed, d), FrontierAt(r, seed, d), WeightAt(r, d), intent, x);
      ReachesNext(oracle, seed, d, x);
    }
  }

  // ----- The batched expansion -----

  /** The memo holds the oracle's edges for every node it knows. */
  ghost predicate MemoSound<S(!new)>(memo: map<string, seq<Edge<S>>>, oracle: string -> seq<Edge<S>>) {
    forall n :: n in memo ==> memo[n] == oracle(n)
  }

  method ExpandNode<S(!new)>(a: Arith<S>, edges: seq<Edge<S>>, scores0: Scores<S>, next0: seq<string>,
        seen0: set<string>, pathWeight: S, intent: Intent)
    returns (scores: Scores<S>, next: seq<string>, seen: set<string>)
    requires forall x :: x in seen0 <==> x in next0
    ensures scores == AddEdges(a, scores0, edges, pathWeight, intent) && next == AddTargets(next0, edges)
    ensures forall x :: x in seen <==> x in next
  {
    hide IntentWeight;
    scores, next, seen := scores0, next0, seen0;
    var k := 0;
    while k < |edges|
      invariant 0 <= k <= |edges|
      invariant scores == AddEdges(a, scores0, edges[..k], pathWeight, intent)
      invariant next == AddTargets(next0, edges[..k])
      invariant forall x :: x in seen <==> x in next
    {
      var e := edges[k];
      assert edges[..k + 1][..k] == edges[..k];
      var total := if e.target in scores then scores[e.target] else a.zero;
      scores := scores[e.target := a.add(total, a.mul(a.mul(pathWeight, e.weight), IntentWeight(a, e.kind, intent)))];
      if e.target !in seen {
        seen := seen + {e.target};
        next := next + [e.target];
      }
      k := k + 1;
    }
    assert edges[..k] == edges;
  }

  method ExpandFrontier<S(!new)>(a: Arith<S>, ghost oracle: string -> seq<Edge<S>>, memo: map<string, seq<Edge<S>>>,
        frontier: seq<string>,
                           before: Scores<S>, pathWeight: S, intent: Intent)
    returns (scores: Scores<S>, next: seq<string>)
    requires MemoSound(memo, oracle) && forall n :: n in frontier ==> n in memo
    ensures scores == AddFrontier(a, oracle, before, frontier, pathWeight, intent)
    ensures next == NextFrontier(oracle, frontier)
  {
    hide AddEdges, AddTargets;
    scores, next := before, [];
    var seen: set<string> := {};
    var n := 0;
    while n < |frontier|
      invariant 0 <= n <= |frontier|
      invariant scores == AddFrontier(a, oracle, before, frontier[..n], pathWeight, intent)
      invariant next == NextFrontier(oracle, frontier[..n])
      invariant forall x :: x in seen <==> x in next
    {
      assert frontier[n] in frontier;
      var edges := if frontier[n] in memo then memo[frontier[n]] else [];
      scores, next, seen := ExpandNode(a, edges, scores, next, seen, pathWeight, intent);
      assert frontier[..n + 1][..n] == frontier[..n];
      n := n + 1;
    }
    assert frontier[..n] == frontier;
  }

  ghost predicate InStep<S(!new)>(a: Arith<S>, oracle: string -> seq<Edge<S>>, seeds: seq<string>,
        frontiers: seq<seq<string>>, scores: seq<Scores<S>>, depth: nat, intent: Intent) {
    && |frontiers| == |scores| == |seeds|
    && forall i :: 0 <= i < |seeds| ==>
         frontiers[i] == FrontierAt(RoundOf(a, oracle, intent), seeds[i], depth)
         && scores[i] == ScoresAt(RoundOf(a, oracle, intent), seeds[i], depth)
  }

  /** One depth level for all seeds. */
  method ExpandAll<S(!new)>(a: Arith<S>, ghost oracle: string -> seq<Edge<S>>, memo: map<string, seq<Edge<S>>>,
        ghost seeds: seq<string>, frontiers: seq<seq<string>>, scores: seq<Scores<S>>, pathWeight: S, ghost depth: nat,
        intent: Intent)
    returns (frontiers': seq<seq<string>>, scores': seq<Scores<S>>, anyNext: bool)
    requires MemoSound(memo, oracle) && InStep(a, oracle, seeds, frontiers, scores, depth, intent)
    requires pathWeight == WeightAt(RoundOf(a, oracle, intent), depth)
    requires forall i, n :: 0 <= i < |frontiers| && n in frontiers[i] ==> n in memo
    ensures InStep(a, oracle, seeds, frontiers', scores', depth + 1, intent)
    ensures anyNext <==> exists i :: 0 <= i < |frontiers'| && frontiers'[i] != []
  {
    hide AddFrontier, NextFrontier;
    frontiers', scores', anyNext := [], [], false;
    while |frontiers'| < |frontiers|
      invariant |frontiers'| == |scores'| <= |frontiers|
      invariant forall i :: 0 <= i < |frontiers'| ==>
                  && frontiers'[i] == FrontierAt(RoundOf(a, oracle, intent), seeds[i], depth + 1)
                  && scores'[i] == ScoresAt(RoundOf(a, oracle, intent), seeds[i], depth + 1)
      invariant anyNext <==> exists i :: 0 <= i < |frontiers'| && frontiers'[i] != []
    {
      var i := |frontiers'|;
      var expanded, next := ExpandFrontier(a, oracle, memo, frontiers[i], scores[i], pathWeight, intent);
      anyNext := anyNext || next != [];
      frontiers', scores' := frontiers' + [next], scores' + [expanded];
      assert frontiers'[i] == next;
    }
  }

  ghost predicate Asked(fetched: seq<set<string>>, n: string) {
    exists i :: 0 <= i < |fetched| && n in fetched[i]
  }

  /** What has been asked for so far: every batch disjoint from the others, and together what the memo knows. */
  ghost predicate FetchedOnce<S(!new)>(fetched: seq<set<string>>, memo: map<string, seq<Edge<S>>>, expanded: nat) {
    (forall n :: n in memo <==> Asked(fetched, n)) && BatchesApart(fetched, expanded)
  }

  /** No node is in two batches, and `expanded` counts them all. */
  ghost predicate BatchesApart(fetched: seq<set<string>>, expanded: nat) {
    && (forall i, j :: 0 <= i < j < |fetched| ==> fetched[i] !! fetched[j])
    && expanded == TotalSize(fetched)
  }

  /** The nodes of all frontiers that the memo does not know. */
  function Missing<S>(frontiers: seq<seq<string>>, memo: map<string, seq<Edge<S>>>): (missing: set<string>)
    ensures forall n :: n in missing <==> n !in memo && exists i :: 0 <= i < |frontiers| && n in frontiers[i]
  {
    set i, n | 0 <= i < |frontiers| && n in frontiers[i] && n !in memo :: n
  }

  /** Asks for the nodes of all frontiers that the memo does not know, and for no others. */
  method FetchMissing<S(!new)>(oracle: string -> seq<Edge<S>>, memo0: map<string, seq<Edge<S>>>,
        frontiers: seq<seq<string>>, expanded0: nat, ghost fetched0: seq<set<string>>, fails: bool)
    returns (memo: map<string, seq<Edge<S>>>, expanded: nat, ok: bool, ghost fetched: seq<set<string>>)
    requires MemoSound(memo0, oracle) && FetchedOnce(fetched0, memo0, expanded0)
    ensures MemoSound(memo, oracle) && (ok <==> !fails || Missing(frontiers, memo0) == {})
    ensures BatchesApart(fetched, expanded)
    ensures ok ==> FetchedOnce(fetched, memo, expanded)
    ensures ok ==> forall n :: n in memo <==> n in memo0 || exists i :: 0 <= i < |frontiers| && n in frontiers[i]
  {
    hide Asked, BatchesApart, Missing;
    memo, expanded, ok, fetched := memo0, expanded0, true, fetched0;
    var missing := Missing(frontiers, memo);
    if missing != {} {
      expanded := expanded + |missing|;
      fetched := fetched + [missing];
      FetchedNext(oracle, fetched0, memo0, expanded0, missing);
      if fails {
        ok := false;
        return;
      }
      memo := Learned(oracle, memo, missing);
    }
  }

  /** The memo with the edges of the nodes asked for. */
  function Learned<S>(oracle: string -> seq<Edge<S>>, memo: map<string, seq<Edge<S>>>, missing: set<string>)
    : map<string, seq<Edge<S>>>
  {
    memo + map n | n in missing :: oracle(n)
  }

  lemma FetchedNext<S(!new)>(oracle: string -> seq<Edge<S>>, fetched: seq<set<string>>, memo: map<string, seq<Edge<S>>>,
        expanded: nat, missing: set<string>)
    requires FetchedOnce(fetched, memo, expanded) && forall n :: n in missing ==> n !in memo
    ensures FetchedOnce(fetched + [missing], Learned(oracle, memo, missing), expanded + |missing|)
    ensures BatchesApart(fetched + [missing], expanded + |missing|)
  {
    var fetched' := fetched + [missing];
    assert fetched'[..|fetched|] == fetched;
    forall n ensures Asked(fetched', n) <==> Asked(fetched, n) || n in missing {
      if Asked(fetched, n) {
        var i :| 0 <= i < |fetched| && n in fetched[i];
        assert n in fetched'[i];
      }
      assert n in missing ==> n in fetched'[|fetched|];
    }
    forall i | 0 <= i < |fetched| ensures fetched[i] !! missing {
      assert forall n :: n in fetched[i] ==> Asked(fetched, n);
    }
  }

  /** Some seed's walk comes by `n` in its first `depth` levels. */
  ghost predicate ReachedWithin<S(!new)>(oracle: string -> seq<Edge<S>>, seeds: seq<string>, depth: nat, n: string) {
    exists i, d: nat :: 0 <= i < |seeds| && d < depth && Reaches(oracle, seeds[i], d, n)
  }

  /** The memo knows the nodes of the first `depth` levels of every seed's walk. */
  ghost predicate KnowsLevels<S(!new)>(oracle: string -> seq<Edge<S>>, seeds: seq<string>, depth: nat,
        memo: map<string, seq<Edge<S>>>)
  {
    forall n :: n in memo <==> ReachedWithin(oracle, seeds, depth, n)
  }

  lemma KnowsNextLevel<S(!new)>(a: Arith<S>, oracle: string -> seq<Edge<S>>, seeds: seq<string>,
        frontiers: seq<seq<string>>, scores: seq<Scores<S>>, depth: nat, intent: Intent,
        memo: map<string, seq<Edge<S>>>, memo': map<string, seq<Edge<S>>>)
    requires InStep(a, oracle, seeds, frontiers, scores, depth, intent) && KnowsLevels(oracle, seeds, depth, memo)
    requires forall n :: n in memo' <==> n in memo || exists i :: 0 <= i < |frontiers| && n in frontiers[i]
    ensures KnowsLevels(oracle, seeds, depth + 1, memo')
  {
    forall n ensures n in memo' <==> ReachedWithin(oracle, seeds, depth + 1, n) {
      forall i | 0 <= i < |seeds| ensures n in frontiers[i] <==> Reaches(oracle, seeds[i], depth, n) {
        FrontierIsReached(a, oracle, seeds[i], depth, intent);
      }
      if ReachedWithin(oracle, seeds, depth + 1, n) {
        var i, d: nat :| 0 <= i < |seeds| && d < depth + 1 && Reaches(oracle, seeds[i], d, n);
        if d < depth { assert ReachedWithin(oracle, seeds, depth, n); }
      }
      if ReachedWithin(oracle, seeds, depth, n) {
        var i, d: nat :| 0 <= i < |seeds| && d < depth && Reaches(oracle, seeds[i], d, n);
        assert d < depth + 1;
      }
    }
  }

  /** Level `d` comes by a node that no earlier level came by. */
  ghost predicate BringsNews<S(!new)>(oracle: string -> seq<Edge<S>>, seeds: seq<string>, d: nat) {
    exists n :: ReachedWithin(oracle, seeds, d + 1, n) && !ReachedWithin(oracle, seeds, d, n)
  }

  /** The walk stops before the first level whose fetch is needed and fails. */
  ghost predicate StopsAt<S(!new)>(oracle: string -> seq<Edge<S>>, seeds: seq<string>, failsAt: nat -> bool,
        levels: nat, maxDepth: nat)
  {
    && levels <= maxDepth
    && (forall d: nat :: d < levels ==> !(failsAt(d) && BringsNews(oracle, seeds, d)))
    && (levels < maxDepth ==> failsAt(levels) && BringsNews(oracle, seeds, levels))
  }

  lemma NewsIsMissing<S(!new)>(a: Arith<S>, oracle: string -> seq<Edge<S>>, seeds: seq<string>,
        frontiers: seq<seq<string>>, scores: seq<Scores<S>>, depth: nat, intent: Intent,
        memo: map<string, seq<Edge<S>>>)
    requires InStep(a, oracle, seeds, frontiers, scores, depth, intent) && KnowsLevels(oracle, seeds, depth, memo)
    ensures BringsNews(oracle, seeds, depth) <==> Missing(frontiers, memo) != {}
  {
    var missing := Missing(frontiers, memo);
    var memo' := Learned(oracle, memo, missing);
    forall n ensures n in memo' <==> n in memo || exists i :: 0 <= i < |frontiers| && n in frontiers[i] {
      assert n in memo' <==> n in memo || n in missing;
    }
    KnowsNextLevel(a, oracle, seeds, frontiers, scores, depth, intent, memo, memo');
    assert forall n :: n in missing <==>
      ReachedWithin(oracle, seeds, depth + 1, n) && !ReachedWithin(oracle, seeds, depth, n);
  }

  lemma NoLaterNews<S(!new)>(a: Arith<S>, oracle: string -> seq<Edge<S>>, seeds: seq<string>,
        frontiers: seq<seq<string>>, scores: seq<Scores<S>>, done: nat, d: nat, intent: Intent,
        memo: map<string, seq<Edge<S>>>)
    requires InStep(a, oracle, seeds, frontiers, scores, done, intent) && KnowsLevels(oracle, seeds, done, memo)
    requires done <= d && forall i :: 0 <= i < |frontiers| ==> frontiers[i] == []
    ensures !BringsNews(oracle, seeds, d)
  {
    KnowsAllLevels(a, oracle, seeds, frontiers, scores, done, d, intent, memo);
    KnowsAllLevels(a, oracle, seeds, frontiers, scores, done, d + 1, intent, memo);
  }

  /** Once every frontier is empty, no later level reaches anything. */
  lemma KnowsAllLevels<S(!new)>(a: Arith<S>, oracle: string -> seq<Edge<S>>, seeds: seq<string>,
        frontiers: seq<seq<string>>, scores: seq<Scores<S>>, done: nat, depth: nat, intent: Intent,
        memo: map<string, seq<Edge<S>>>)
    requires InStep(a, oracle, seeds, frontiers, scores, done, intent) && KnowsLevels(oracle, seeds, done, memo)
    requires done <= depth && forall i :: 0 <= i < |frontiers| ==> frontiers[i] == []
    ensures KnowsLevels(oracle, seeds, depth, memo)
  {
    forall n ensures ReachedWithin(oracle, seeds, depth, n) <==> ReachedWithin(oracle, seeds, done, n) {
      forall i, d: nat | 0 <= i < |seeds| && done <= d ensures !Reaches(oracle, seeds[i], d, n) {
        FrontierIsReached(a, oracle, seeds[i], d, intent);
        EmptyStays(RoundOf(a, oracle, intent), seeds[i], done, d);
      }
      if ReachedWithin(oracle, seeds, done, n) {
        var i, d: nat :| 0 <= i < |seeds| && d < done && Reaches(oracle, seeds[i], d, n);
        assert d < depth;
      }
    }
  }

  /** Scores for every seed, the number of nodes asked for, and as ghosts which nodes those were and how
      many levels were completed. `failsAt(d)` says whether the fetch of level `d` would fail. */
  method CollectEdgeClusterScores<S(!new)>(a: Arith<S>, oracle: string -> seq<Edge<S>>, seeds: seq<string>,
        maxDepth: nat, intent: Intent, failsAt: nat -> bool)
    returns (accumulated: seq<Scores<S>>, expanded: nat, ghost fetched: seq<set<string>>, ghost levels: nat)
    ensures |accumulated| == |seeds| && StopsAt(oracle, seeds, failsAt, levels, maxDepth)
    ensures forall i :: 0 <= i < |seeds| ==> accumulated[i] == Walk(a, oracle, seeds[i], levels, intent)
    ensures BatchesApart(fetched, expanded)
    ensures levels == maxDepth ==> forall n :: Asked(fetched, n) <==> ReachedWithin(oracle, seeds, maxDepth, n)
  {
    hide BringsNews, ReachedWithin, InStep, MemoSound, FetchedOnce, KnowsLevels, Asked, BatchesApart, Walk, Missing;
    hide RoundOf, WeightAt;
    var memo: map<string, seq<Edge<S>>> := map[];
    accumulated := seq(|seeds|, _ => map[]);
    var frontiers := seq(|seeds|, i requires 0 <= i < |seeds| => [seeds[i]]);
    var pathWeight := a.one;
    expanded, fetched := 0, [];
    NothingYet(a, oracle, seeds, frontiers, accumulated, intent, memo);
    var depth := 0;
    while depth < maxDepth
      invariant depth <= maxDepth && MemoSound(memo, oracle)
      invariant InStep(a, oracle, seeds, frontiers, accumulated, depth, intent)
      invariant pathWeight == WeightAt(RoundOf(a, oracle, intent), depth)
      invariant forall d: nat :: d < depth ==> !(failsAt(d) && BringsNews(oracle, seeds, d))
      invariant FetchedOnce(fetched, memo, expanded) && KnowsLevels(oracle, seeds, depth, memo)
    {
      var fetchedOk;
      ghost var known := memo;
      NewsIsMissing(a, oracle, seeds, frontiers, accumulated, depth, intent, memo);
      memo, expanded, fetchedOk, fetched := FetchMissing(oracle, memo, frontiers, expanded, fetched, failsAt(depth));
      if !fetchedOk {
        FinishAt(a, oracle, seeds, frontiers, accumulated, depth, depth, intent);
        levels := depth;
        return;
      }
      KnowsNextLevel(a, oracle, seeds, frontiers, accumulated, depth, intent, known, memo);
      var anyNext;
      frontiers, accumulated, anyNext := ExpandAll(a, oracle, memo, seeds, frontiers, accumulated, pathWeight, depth,
          intent);
      if !anyNext {
        FinishAt(a, oracle, seeds, frontiers, accumulated, depth + 1, maxDepth, intent);
        KnowsAllLevels(a, oracle, seeds, frontiers, accumulated, depth + 1, maxDepth, intent, memo);
        forall d: nat | depth < d ensures !BringsNews(oracle, seeds, d) {
          NoLaterNews(a, oracle, seeds, frontiers, accumulated, depth + 1, d, intent, memo);
        }
        levels := maxDepth;
        AskedWithin(oracle, seeds, maxDepth, fetched, memo, expanded);
        return;
      }
      WeightNext(a, oracle, intent, depth);
      pathWeight := a.mul(pathWeight, a.decay);
      depth := depth + 1;
    }
    FinishAt(a, oracle, seeds, frontiers, accumulated, depth, maxDepth, intent);
    AskedWithin(oracle, seeds, maxDepth, fetched, memo, expanded);
    levels := maxDepth;
  }

  lemma NothingYet<S(!new)>(a: Arith<S>, oracle: string -> seq<Edge<S>>, seeds: seq<string>,
        frontiers: seq<seq<string>>, scores: seq<Scores<S>>, intent: Intent, memo: map<string, seq<Edge<S>>>)
    requires memo == map[] && |frontiers| == |scores| == |seeds|
    requires forall i :: 0 <= i < |seeds| ==> frontiers[i] == [seeds[i]] && scores[i] == map[]
    ensures MemoSound(memo, oracle) && InStep(a, oracle, seeds, frontiers, scores, 0, intent)
    ensures FetchedOnce([], memo, 0) && KnowsLevels(oracle, seeds, 0, memo)
    ensures WeightAt(RoundOf(a, oracle, intent), 0) == a.one
  {}

  lemma WeightNext<S(!new)>(a: Arith<S>, oracle: string -> seq<Edge<S>>, intent: Intent, d: nat)
    ensures WeightAt(RoundOf(a, oracle, intent), d + 1) == a.mul(WeightAt(RoundOf(a, oracle, intent), d), a.decay)
  {}

  lemma AskedWithin<S(!new)>(oracle: string -> seq<Edge<S>>, seeds: seq<string>, depth: nat,
        fetched: seq<set<string>>, memo: map<string, seq<Edge<S>>>, expanded: nat)
    requires FetchedOnce(fetched, memo, expanded) && KnowsLevels(oracle, seeds, depth, memo)
    ensures forall n :: Asked(fetched, n) <==> ReachedWithin(oracle, seeds, depth, n)
    ensures BatchesApart(fetched, expanded)
  {}

  function TotalSize(fetched: seq<set<string>>): nat {
    if fetched == [] then 0 else TotalSize(fetched[..|fetched| - 1]) + |fetched[|fetched| - 1]|
  }

  /** After `done` levels, or when every frontier is exhausted, the scores are the walks' to `depth`. */
  lemma FinishAt<S(!new)>(a: Arith<S>, oracle: string -> seq<Edge<S>>, seeds: seq<string>, frontiers: seq<seq<string>>,
        scores: seq<Scores<S>>, done: nat, depth: nat, intent: Intent)
    requires InStep(a, oracle, seeds, frontiers, scores, done, intent)
    requires done <= depth && (done < depth ==> forall i :: 0 <= i < |frontiers| ==> frontiers[i] == [])
    ensures |scores| == |seeds|
    ensures forall i :: 0 <= i < |seeds| ==> scores[i] == Walk(a, oracle, seeds[i], depth, intent)
  {
    forall i | 0 <= i < |seeds| ensures scores[i] == Walk(a, oracle, seeds[i], depth, intent) {
      WalkIsScoresAt(a, oracle, seeds[i], depth, intent);
      if done < depth { EmptyStays(RoundOf(a, oracle, intent), seeds[i], done, depth); }
    }
  }

  // ----- What a score is, in exact arithmetic -----

  const EXACT: Arith<real> := Arith(0.0, 1.0, 1.5, 0.6, (x, y) => x + y, (x, y) => x * y)

  /** The factor that an edge's type earns under an intent. */
  function Multiplier(kind: EdgeType, intent: Intent): real {
    if intent in {Inference, Recommendation} && kind in {CausedBy, LeadsTo, Prefers} then 1.5
    else if intent == PeripheralMention && kind in {Updates, Supports} then 1.5
    else 1.0
  }

  /** What an edge weighs, if it leads to `x`. */
  function EdgeWeight(e: Edge<real>, intent: Intent, x: string): real {
    if e.target == x then e.weight * Multiplier(e.kind, intent) else 0.0
  }

  /** What the edges to `x` among these weigh. */
  function EdgeSum(edges: seq<Edge<real>>, intent: Intent, x: string): real {
    if edges == [] then 0.0
    else EdgeSum(edges[..|edges| - 1], intent, x) + EdgeWeight(edges[|edges| - 1], intent, x)
  }

  /** What the edges to `x` from a node weigh. */
  function EdgesTo(oracle: string -> seq<Edge<real>>, intent: Intent, x: string): string -> real {
    y => EdgeSum(oracle(y), intent, x)
  }

  function Times(w: real, x: real): real {
    w * x
  }

  function Power(x: real, d: nat): real {
    if d == 0 then 1.0 else Power(x, d - 1) * x
  }

  /** The first `depth` levels' edges to `x`, each level decayed by 0.6 more than the one before. */
  function Total(oracle: string -> seq<Edge<real>>, levels: nat -> seq<string>, depth: nat, intent: Intent,
        x: string): real
  {
    if depth == 0 then 0.0
    else Total(oracle, levels, depth - 1, intent, x) +
         Times(Power(0.6, depth - 1), SumBy(EdgesTo(oracle, intent, x), levels(depth - 1)))
  }

  function ScoreOf(scores: Scores<real>, x: string): real {
    if x in scores then scores[x] else 0.0
  }

  lemma TimesAdd(w: real, x: real, y: real)
    ensures Times(w, 0.0) == 0.0 && Times(w, x + y) == Times(w, x) + Times(w, y)
  {}

  lemma BumpAdds(scores: Scores<real>, e: Edge<real>, w: real, intent: Intent, x: string)
    ensures ScoreOf(Bumped(EXACT, scores, e, w, intent), x) ==
              ScoreOf(scores, x) + Times(w, EdgeWeight(e, intent, x))
  {
    assert IntentWeight(EXACT, e.kind, intent) == Multiplier(e.kind, intent);
    Regroup(w, e.weight, Multiplier(e.kind, intent));
    TimesAdd(w, 0.0, 0.0);
  }

  lemma Regroup(w: real, x: real, m: real)
    ensures w * x * m == Times(w, x * m)
  {}

  lemma {:induction false} EdgesAdd(scores: Scores<real>, edges: seq<Edge<real>>, w: real, intent: Intent, x: string)
    ensures ScoreOf(AddEdges(EXACT, scores, edges, w, intent), x) ==
              ScoreOf(scores, x) + Times(w, EdgeSum(edges, intent, x))
  {
    hide Times, Bumped, ScoreOf, EdgeWeight;
    TimesAdd(w, 0.0, 0.0);
    if edges != [] {
      var n := |edges| - 1;
      EdgesAdd(scores, edges[..n], w, intent, x);
      BumpAdds(AddEdges(EXACT, scores, edges[..n], w, intent), edges[n], w, intent, x);
      TimesAdd(w, EdgeSum(edges[..n], intent, x), EdgeWeight(edges[n], intent, x));
    }
  }

  lemma {:induction false} FrontierAdds(oracle: string -> seq<Edge<real>>, scores: Scores<real>, frontier: seq<string>,
        w: real, intent: Intent, x: string)
    ensures ScoreOf(AddFrontier(EXACT, oracle, scores, frontier, w, intent), x) ==
              ScoreOf(scores, x) + Times(w, SumBy(EdgesTo(oracle, intent, x), frontier))
  {
    hide Times, AddEdges, EdgeSum, ScoreOf;
    TimesAdd(w, 0.0, 0.0);
    if frontier != [] {
      var n := |frontier| - 1;
      FrontierAdds(oracle, scores, frontier[..n], w, intent, x);
      EdgesAdd(AddFrontier(EXACT, oracle, scores, frontier[..n], w, intent), oracle(frontier[n]), w, intent, x);
      TimesAdd(w, SumBy(EdgesTo(oracle, intent, x), frontier[..n]), EdgeSum(oracle(frontier[n]), intent, x));
    }
  }

  lemma {:induction false} WeightIsPower(oracle: string -> seq<Edge<real>>, intent: Intent, d: nat)
    ensures WeightAt(RoundOf(EXACT, oracle, intent), d) == Power(0.6, d)
  {
    if d > 0 { WeightIsPower(oracle, intent, d - 1); }
  }

  /** Level by level, every node that a path of so many edges from `seed` reaches, once. */
  ghost predicate ListsReached(oracle: string -> seq<Edge<real>>, seed: string, levels: nat -> seq<string>) {
    forall d: nat :: ListsLevel(oracle, seed, d, levels(d))
  }

  ghost predicate ListsLevel(oracle: string -> seq<Edge<real>>, seed: string, d: nat, level: seq<string>) {
    Distinct(level) && forall x :: x in level <==> Reaches(oracle, seed, d, x)
  }

  /** The score of a memory is the sum, over the levels, of 0.6 to the level's power times the weights of the edges
      that lead to it from the nodes first listed for that level, each node counted once. */
  lemma {:induction false} ScoreIsTotal(oracle: string -> seq<Edge<real>>, seed: string, levels: nat -> seq<string>,
        depth: nat, intent: Intent, x: string)
    requires ListsReached(oracle, seed, levels)
    ensures ScoreOf(ScoresAt(RoundOf(EXACT, oracle, intent), seed, depth), x) ==
              Total(oracle, levels, depth, intent, x)
  {
    if depth > 0 {
      var r, d := RoundOf(EXACT, oracle, intent), depth - 1;
      ScoreIsTotal(oracle, seed, levels, d, intent, x);
      LevelAdds(oracle, seed, levels(d), d, intent, x);
    }
  }

  lemma LevelAdds(oracle: string -> seq<Edge<real>>, seed: string, level: seq<string>, d: nat, intent: Intent,
        x: string)
    requires ListsLevel(oracle, seed, d, level)
    ensures var r := RoundOf(EXACT, oracle, intent);
            ScoreOf(ScoresAt(r, seed, d + 1), x) ==
              ScoreOf(ScoresAt(r, seed, d), x) + Times(Power(0.6, d), SumBy(EdgesTo(oracle, intent, x), level))
  {
    hide Times, ScoreOf, Reaches;
    var r := RoundOf(EXACT, oracle, intent);
    FrontierIsReached(EXACT, oracle, seed, d, intent);
    SameMembersSameMultiset(FrontierAt(r, seed, d), level);
    SumPermutes(EdgesTo(oracle, intent, x), FrontierAt(r, seed, d), level);
    WeightIsPower(oracle, intent, d);
    FrontierAdds(oracle, ScoresAt(r, seed, d), FrontierAt(r, seed, d), WeightAt(r, d), intent, x);
  }

  /** The walk of `depth` levels, as the sum of what reaches each memory. */
  lemma WalkIsTotal(oracle: string -> seq<Edge<real>>, seed: string, levels: nat -> seq<string>, depth: nat,
        intent: Intent, x: string)
    requires ListsReached(oracle, seed, levels)
    ensures ScoreOf(Walk(EXACT, oracle, seed, depth, intent), x) == Total(oracle, levels, depth, intent, x)
  {
    WalkIsScoresAt(EXACT, oracle, seed, depth, intent);
    ScoreIsTotal(oracle, seed, levels, depth, intent, x);
  }
}