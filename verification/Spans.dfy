/** Flat span tagging: the selection that ends `src/gliner.rs`'s `predict`. */
module Spans {
  import opened Ordering

  datatype Span = Span(tag: string, text: string, start: nat, end: nat, score: real)

  /** Highest score first, then leftmost, then by label. */
  predicate ByRank(a: Span, b: Span) {
    a.score > b.score || (a.score == b.score && (a.start < b.start || (a.start == b.start && LexLeq(a.tag, b.tag))))
  }

  predicate ByStart(a: Span, b: Span) {
    a.start <= b.start
  }

  predicate Within(s: Span, words: nat) {
    s.start <= s.end < words
  }

  predicate Overlap(a: Span, b: Span) {
    a.start <= b.end && b.start <= a.end
  }

  ghost predicate AllWithin(spans: seq<Span>, words: nat) {
    forall i :: 0 <= i < |spans| ==> Within(spans[i], words)
  }

  ghost predicate PairwiseApart(spans: seq<Span>) {
    forall i, j :: 0 <= i < j < |spans| ==> !Overlap(spans[i], spans[j])
  }

  /** Each span ends before the next begins. */
  ghost predicate LeftToRight(spans: seq<Span>) {
    forall i, j :: 0 <= i < j < |spans| ==> spans[i].end < spans[j].start
  }

  ghost predicate Covered(spans: seq<Span>, word: nat) {
    exists i :: 0 <= i < |spans| && spans[i].start <= word <= spans[i].end
  }

  ghost predicate BeatenBefore(picked: seq<Span>, order: seq<Span>, k: nat)
    requires k < |order|
  {
    exists j :: 0 <= j < k && order[j] in picked && Overlap(order[j], order[k])
  }

  /** Of the first `n` of `order`, a span is left out only when an earlier picked one shares a word with it. */
  ghost predicate GreedyTo(picked: seq<Span>, order: seq<Span>, n: nat)
    requires n <= |order|
  {
    && (forall s :: s in picked ==> s in order[..n])
    && (forall k :: 0 <= k < n && order[k] !in picked ==> BeatenBefore(picked, order, k))
  }

  /** The result: left to right, drawn from the candidates, nothing left out without a reason. */
  ghost predicate IsFlatTagging(selected: seq<Span>, order: seq<Span>) {
    LeftToRight(selected) && GreedyTo(selected, order, |order|)
  }

  // ----- Candidates -----

  /** The score grid: sigmoids of the logits by first word, width and label, and the trimmed text of each stretch. */
  datatype Grid = Grid(labels: seq<string>, score: (nat, nat, nat) -> real, text: (nat, nat) -> string, threshold: real,
                       keptWords: nat)

  /** A cell of the grid stands for the `width + 1` words from `start` under the label with index `l`. */
  datatype Cell = Cell(start: nat, width: nat, l: nat)

  /** By start, then width, then label. */
  predicate Before(a: Cell, b: Cell) {
    a.start < b.start || (a.start == b.start && (a.width < b.width || (a.width == b.width && a.l < b.l)))
  }

  /** The cell lies within the kept words, scores at least the threshold and has text. */
  predicate Offers(g: Grid, c: Cell) {
    && c.l < |g.labels| && c.start + c.width < g.keptWords
    && g.score(c.start, c.width, c.l) >= g.threshold && g.text(c.start, c.start + c.width) != ""
  }

  function SpanAt(g: Grid, c: Cell): Span
    requires c.l < |g.labels|
  {
    Span(g.labels[c.l], g.text(c.start, c.start + c.width), c.start, c.start + c.width, g.score(c.start, c.width, c.l))
  }

  /** `spans` are what `cells` offer, in grid order. */
  ghost predicate Listing(g: Grid, cells: seq<Cell>, spans: seq<Span>) {
    && |cells| == |spans|
    && (forall i :: 0 <= i < |cells| ==> Offers(g, cells[i]) && spans[i] == SpanAt(g, cells[i]))
    && (forall i, j :: 0 <= i < j < |cells| ==> Before(cells[i], cells[j]))
  }

  lemma JoinListings(g: Grid, cells: seq<Cell>, spans: seq<Span>, later: seq<Cell>, more: seq<Span>)
    requires Listing(g, cells, spans) && Listing(g, later, more)
    requires forall a, b :: a in cells && b in later ==> Before(a, b)
    ensures Listing(g, cells + later, spans + more)
  {}

  method ScanLabels(g: Grid, start: nat, width: nat) returns (spans: seq<Span>, ghost cells: seq<Cell>)
    ensures Listing(g, cells, spans)
    ensures forall c :: c in cells <==> c.start == start && c.width == width && Offers(g, c)
  {
    spans, cells := [], [];
    var l := 0;
    while l < |g.labels|
      invariant l <= |g.labels| && Listing(g, cells, spans)
      invariant forall c :: c in cells <==> c.start == start && c.width == width && c.l < l && Offers(g, c)
    {
      var c := Cell(start, width, l);
      if Offers(g, c) {
        JoinListings(g, cells, spans, [c], [SpanAt(g, c)]);
        spans, cells := spans + [SpanAt(g, c)], cells + [c];
      }
      l := l + 1;
    }
  }

  method ScanWidths(g: Grid, start: nat, widths: nat) returns (spans: seq<Span>, ghost cells: seq<Cell>)
    ensures Listing(g, cells, spans)
    ensures forall c :: c in cells <==> c.start == start && c.width < widths && Offers(g, c)
  {
    spans, cells := [], [];
    var width := 0;
    while width < widths
      invariant width <= widths && Listing(g, cells, spans)
      invariant forall c :: c in cells <==> c.start == start && c.width < width && Offers(g, c)
    {
      var found, at := ScanLabels(g, start, width);
      JoinListings(g, cells, spans, at, found);
      spans, cells := spans + found, cells + at;
      width := width + 1;
    }
  }

  /** Scans the score grid: lists exactly the cells that offer a span, in grid order, all within the kept words. */
  method Candidates(g: Grid, outWords: nat, outWidths: nat) returns (candidates: seq<Span>, ghost cells: seq<Cell>)
    ensures Listing(g, cells, candidates)
    ensures forall c :: c in cells <==> c.start < outWords && c.width < outWidths && Offers(g, c)
    ensures AllWithin(candidates, g.keptWords)
  {
    candidates, cells := [], [];
    var start := 0;
    while start < outWords && start < g.keptWords
      invariant start <= outWords && Listing(g, cells, candidates)
      invariant forall c :: c in cells <==> c.start < start && c.width < outWidths && Offers(g, c)
    {
      var found, at := ScanWidths(g, start, outWidths);
      JoinListings(g, cells, candidates, at, found);
      candidates, cells := candidates + found, cells + at;
      start := start + 1;
    }
  }

  /** A stretch of `width + 1` kept words with text that scores at least the threshold under the label `l`. */
  predicate Describes(g: Grid, s: Span, width: int, l: int) {
    && 0 <= l < |g.labels| && 0 <= width && s.end == s.start + width < g.keptWords
    && s.tag == g.labels[l] && s.text == g.text(s.start, s.end) != ""
    && s.score == g.score(s.start, width, l) >= g.threshold
  }

  /** The candidates are exactly those stretches, as far as the grid goes. */
  lemma CandidateIff(g: Grid, cells: seq<Cell>, spans: seq<Span>, outWords: nat, outWidths: nat, s: Span)
    requires Listing(g, cells, spans)
    requires forall c :: c in cells <==> c.start < outWords && c.width < outWidths && Offers(g, c)
    ensures s in spans <==> s.start < outWords && exists width, l :: width < outWidths && Describes(g, s, width, l)
  {
    if s in spans {
      var i :| 0 <= i < |spans| && spans[i] == s;
      assert cells[i] in cells;
      assert Describes(g, s, cells[i].width, cells[i].l);
    }
    if s.start < outWords {
      if width, l :| width < outWidths && Describes(g, s, width, l) {
        assert Cell(s.start, width, l) in cells;
        var i :| 0 <= i < |cells| && cells[i] == Cell(s.start, width, l);
        assert spans[i] == s;
      }
    }
  }

  predicate CellLeq(a: Cell, b: Cell) {
    a == b || Before(a, b)
  }

  /** Grid order leaves one listing, so the candidates and their order are fixed. */
  lemma ListingIsUnique(g: Grid, a: seq<Cell>, sa: seq<Span>, b: seq<Cell>, sb: seq<Span>)
    requires Listing(g, a, sa) && Listing(g, b, sb) && forall c :: c in a <==> c in b
    ensures a == b && sa == sb
  {
    assert TotalOrder(CellLeq);
    SameMembersSameMultiset(a, b);
    SortedIsUnique(CellLeq, a, b);
    assert forall i :: 0 <= i < |a| ==> sa[i] == sb[i];
  }

  // ----- Selection -----

  method AnyTaken(taken: array<bool>, s: Span) returns (any: bool)
    requires Within(s, taken.Length)
    ensures any <==> exists w :: s.start <= w <= s.end && taken[w]
  {
    any := false;
    var word := s.start;
    while word <= s.end && !any
      invariant s.start <= word <= s.end + 1
      invariant any <==> exists w :: s.start <= w < word && taken[w]
    {
      any := taken[word];
      word := word + 1;
    }
  }

  /** Highest-scoring span wins its words. */
  method SelectSpans(candidates: seq<Span>, keptWords: nat) returns (selected: seq<Span>)
    requires AllWithin(candidates, keptWords)
    ensures IsFlatTagging(selected, Sort(ByRank, candidates))
  {
    var order := Sort(ByRank, candidates);
    SortStaysWithin(candidates, keptWords);
    var taken := new bool[keptWords](_ => false);
    selected := [];
    var i := 0;
    while i < |order|
      invariant i <= |order| && AllWithin(selected, keptWords)
      invariant PairwiseApart(selected) && GreedyTo(selected, order, i)
      invariant forall w :: 0 <= w < keptWords ==> (taken[w] <==> Covered(selected, w))
    {
      var candidate := order[i];
      var blocked := AnyTaken(taken, candidate);
      if blocked {
        ghost var w :| candidate.start <= w <= candidate.end && taken[w];
        BlockedIsBeaten(selected, order, i, w);
      } else {
        FreeIsApart(selected, candidate, keptWords, taken[..]);
        PickKeepsGreedy(selected, order, i);
        CoverGrows(selected, candidate);
        forall w | candidate.start <= w <= candidate.end {
          taken[w] := true;
        }
        selected := selected + [candidate];
      }
      i := i + 1;
    }
    assert order[..i] == order;
    ApartSortsLeftToRight(selected, keptWords);
    SortPermutes(ByStart, selected);
    SameMembersStayGreedy(selected, Sort(ByStart, selected), order);
    selected := Sort(ByStart, selected);
  }

  lemma SortStaysWithin(spans: seq<Span>, words: nat)
    requires AllWithin(spans, words)
    ensures AllWithin(Sort(ByRank, spans), words)
  {
    SortPermutes(ByRank, spans);
    var order := Sort(ByRank, spans);
    forall i | 0 <= i < |order| ensures Within(order[i], words) {
      assert order[i] in order;
      assert order[i] in spans;
    }
  }

  lemma BlockedIsBeaten(picked: seq<Span>, order: seq<Span>, i: nat, word: nat)
    requires i < |order| && GreedyTo(picked, order, i)
    requires order[i].start <= word <= order[i].end && Covered(picked, word)
    ensures GreedyTo(picked, order, i + 1)
  {
    var p :| 0 <= p < |picked| && picked[p].start <= word <= picked[p].end;
    assert picked[p] in order[..i];
    var j :| 0 <= j < i && order[..i][j] == picked[p];
    assert order[j] in picked && Overlap(order[j], order[i]);
    assert BeatenBefore(picked, order, i);
    assert order[..i + 1] == order[..i] + [order[i]];
  }

  lemma FreeIsApart(picked: seq<Span>, s: Span, words: nat, taken: seq<bool>)
    requires AllWithin(picked, words) && Within(s, words) && |taken| == words && PairwiseApart(picked)
    requires forall w :: 0 <= w < words ==> (taken[w] <==> Covered(picked, w))
    requires forall w :: s.start <= w <= s.end ==> !taken[w]
    ensures PairwiseApart(picked + [s])
  {
    forall i | 0 <= i < |picked| ensures !Overlap(picked[i], s) {
      assert Within(picked[i], words);
      var w := if picked[i].start <= s.start then s.start else picked[i].start;
      assert picked[i].start <= w <= picked[i].end ==> Covered(picked, w);
    }
  }

  lemma CoverGrows(picked: seq<Span>, s: Span)
    ensures forall w: nat :: Covered(picked + [s], w) <==> Covered(picked, w) || s.start <= w <= s.end
  {
    forall w: nat ensures Covered(picked + [s], w) <==> Covered(picked, w) || s.start <= w <= s.end {
      var more := picked + [s];
      if Covered(picked, w) {
        var i :| 0 <= i < |picked| && picked[i].start <= w <= picked[i].end;
        assert more[i] == picked[i];
      }
      if s.start <= w <= s.end {
        assert more[|picked|] == s;
      }
    }
  }

  lemma PickKeepsGreedy(picked: seq<Span>, order: seq<Span>, i: nat)
    requires i < |order| && GreedyTo(picked, order, i)
    ensures GreedyTo(picked + [order[i]], order, i + 1)
  {
    var more := picked + [order[i]];
    assert order[..i + 1] == order[..i] + [order[i]];
    forall k | 0 <= k < i + 1 && order[k] !in more ensures BeatenBefore(more, order, k) {
      var j :| 0 <= j < k && order[j] in picked && Overlap(order[j], order[k]);
      assert order[j] in more;
    }
  }

  lemma SameMembersStayGreedy(a: seq<Span>, b: seq<Span>, order: seq<Span>)
    requires GreedyTo(a, order, |order|) && forall s :: s in a <==> s in b
    ensures GreedyTo(b, order, |order|)
  {
    forall k | 0 <= k < |order| && order[k] !in b ensures BeatenBefore(b, order, k) {
      var j :| 0 <= j < k && order[j] in a && Overlap(order[j], order[k]);
      assert order[j] in b;
    }
  }

  lemma {:induction false} InsertLeftToRight(x: Span, s: seq<Span>, words: nat)
    requires LeftToRight(s) && AllWithin([x] + s, words) && forall t :: t in s ==> !Overlap(x, t)
    ensures LeftToRight(Insert(ByStart, x, s))
  {
    if s != [] {
      assert Within(([x] + s)[0], words) && Within(([x] + s)[1], words);
      assert s[0] in s;
      if ByStart(x, s[0]) {
      } else {
        assert [x] + s[1..] == ([x] + s)[..1] + ([x] + s)[2..];
        InsertLeftToRight(x, s[1..], words);
        InsertPermutes(ByStart, x, s[1..]);
        var rest := Insert(ByStart, x, s[1..]);
        forall t | t in rest ensures s[0].end < t.start {
          assert t in multiset(rest);
          assert t == x || t in s[1..];
        }
        PrependSpan(s[0], rest);
      }
    }
  }

  lemma PrependSpan(x: Span, rest: seq<Span>)
    requires LeftToRight(rest) && forall t :: t in rest ==> x.end < t.start
    ensures LeftToRight([x] + rest)
  {
    assert forall j :: 0 <= j < |rest| ==> rest[j] in rest;
  }

  lemma {:induction false} ApartSortsLeftToRight(spans: seq<Span>, words: nat)
    requires PairwiseApart(spans) && AllWithin(spans, words)
    ensures LeftToRight(Sort(ByStart, spans))
  {
    if spans != [] {
      var rest := Sort(ByStart, spans[1..]);
      ApartSortsLeftToRight(spans[1..], words);
      SortPermutes(ByStart, spans[1..]);
      forall t | t in rest ensures !Overlap(spans[0], t) && Within(t, words) {
        assert t in spans[1..];
      }
      InsertLeftToRight(spans[0], rest, words);
    }
  }

  // ----- What the selection means -----

  lemma RankIsTotalPreorder()
    ensures TotalPreorder(ByRank)
  {
    LexIsTotalOrder();
  }

  /** Every rejected candidate shares a word with a selected one that ranks no lower: it scores higher or, at the same
      score, begins earlier or, there, has no larger a label. */
  lemma RejectedForABetterOne(candidates: seq<Span>, words: nat, selected: seq<Span>, c: Span)
    returns (winner: Span, word: nat)
    requires AllWithin(candidates, words) && IsFlatTagging(selected, Sort(ByRank, candidates))
    requires c in candidates && c !in selected
    ensures winner in selected && winner.start <= word <= winner.end && c.start <= word <= c.end
    ensures winner.score > c.score || (winner.score == c.score &&
              (winner.start < c.start || (winner.start == c.start && LexLeq(winner.tag, c.tag))))
  {
    var order := Sort(ByRank, candidates);
    SortPermutes(ByRank, candidates);
    RankIsTotalPreorder();
    SortSorts(ByRank, candidates);
    assert c in order;
    var k: nat :| k < |order| && order[k] == c;
    assert BeatenBefore(selected, order, k);
    var j :| 0 <= j < k && order[j] in selected && Overlap(order[j], order[k]);
    assert ByRank(order[j], order[k]);
    winner := order[j];
    assert winner in candidates && Within(winner, words) && Within(c, words);
    word := if winner.start <= c.start then c.start else winner.start;
  }

  lemma {:induction false} SamePicks(a: seq<Span>, b: seq<Span>, order: seq<Span>, words: nat, k: nat)
    requires IsFlatTagging(a, order) && IsFlatTagging(b, order) && AllWithin(order, words) && k < |order|
    ensures order[k] in a <==> order[k] in b
    decreases k
  {
    forall j | 0 <= j < k ensures order[j] in a <==> order[j] in b {
      SamePicks(a, b, order, words, j);
    }
    if order[k] !in a && order[k] in b {
      PickedIsNotBeaten(b, order, words, k);
    }
    if order[k] !in b && order[k] in a {
      PickedIsNotBeaten(a, order, words, k);
    }
  }

  /** A picked span is beaten, if at all, only by an equal copy of itself. */
  lemma PickedIsNotBeaten(picked: seq<Span>, order: seq<Span>, words: nat, k: nat)
    requires LeftToRight(picked) && AllWithin(order, words) && k < |order| && order[k] in picked
    ensures forall j :: 0 <= j < k && order[j] in picked && Overlap(order[j], order[k]) ==> order[j] == order[k]
  {
  }

  /** The conditions leave one selection: the tagging is a function of the ranked candidates. */
  lemma FlatTaggingIsUnique(a: seq<Span>, b: seq<Span>, order: seq<Span>, words: nat)
    requires IsFlatTagging(a, order) && IsFlatTagging(b, order) && AllWithin(order, words)
    ensures a == b
  {
    forall s ensures s in a <==> s in b {
      if s in a {
        assert s in order;
        var k :| 0 <= k < |order| && order[k] == s;
        SamePicks(a, b, order, words, k);
      }
      if s in b {
        assert s in order;
        var k :| 0 <= k < |order| && order[k] == s;
        SamePicks(a, b, order, words, k);
      }
    }
    forall s | s in a ensures Within(s, words) {
      assert s in order;
    }
    LeftToRightIsUnique(a, b, words);
  }

  lemma {:induction false} LeftToRightIsUnique(a: seq<Span>, b: seq<Span>, words: nat)
    requires LeftToRight(a) && LeftToRight(b)
    requires forall s :: s in a ==> Within(s, words)
    requires forall s :: s in a <==> s in b
    ensures a == b
  {
    assert b != [] ==> b[0] in a;
    if a != [] {
      assert a[0] in b;
      assert b[0] in a;
      assert a[0] == b[0];
      forall s ensures s in a[1..] <==> s in b[1..] {
        if s in a[1..] { assert s in a; }
        if s in b[1..] { assert s in b; }
      }
      LeftToRightIsUnique(a[1..], b[1..], words);
    }
  }
}
