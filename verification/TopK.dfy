/** What "the k most similar vectors" means, independently of how they are found. */
module TopK {
  import opened Collections
  import opened Ordering

  datatype Hit = Hit(id: nat, sim: real)

  /** More similar first, then smaller id: the comparator of `scan` (over rows) and of `search` (over ids). */
  predicate HitLeq(a: Hit, b: Hit) {
    a.sim > b.sim || (a.sim == b.sim && a.id <= b.id)
  }

  ghost predicate UniqueIds(hits: seq<Hit>) {
    forall i, j :: 0 <= i < j < |hits| ==> hits[i].id != hits[j].id
  }

  ghost function Ids(hits: seq<Hit>): set<nat> {
    set h | h in hits :: h.id
  }

  ghost predicate TrueScores(hits: seq<Hit>, scores: map<nat, real>) {
    forall h :: h in hits ==> h.id in scores && scores[h.id] == h.sim
  }

  /** The brute-force answer, up to the choice among ties at the cut. */
  ghost predicate IsTopK(hits: seq<Hit>, scores: map<nat, real>, k: nat) {
    && UniqueIds(hits)
    && TrueScores(hits, scores)
    && |hits| == Min(k, |scores|)
    && (forall i, j :: 0 <= i < j < |hits| ==> hits[i].sim >= hits[j].sim)
    && (forall id, h :: id in scores && id !in Ids(hits) && h in hits ==> scores[id] <= h.sim)
  }

  function Sims(hits: seq<Hit>): seq<real> {
    seq(|hits|, i requires 0 <= i < |hits| => hits[i].sim)
  }

  lemma HitLeqIsTotalOrder()
    ensures TotalOrder(HitLeq)
  {}

  /** So a sorted list puts the more similar hit first and, of two equally similar, the one with the smaller id. */
  lemma SortedHits(hits: seq<Hit>)
    ensures SortedBy(HitLeq, hits) && UniqueIds(hits) <==>
              UniqueIds(hits) && forall i, j :: 0 <= i < j < |hits| ==>
                hits[i].sim > hits[j].sim || (hits[i].sim == hits[j].sim && hits[i].id < hits[j].id)
  {}

  lemma {:induction false} UniqueIdsCount(hits: seq<Hit>)
    requires UniqueIds(hits)
    ensures |Ids(hits)| == |hits|
  {
    if hits == [] {
      assert Ids(hits) == {};
    } else {
      var n := |hits| - 1;
      UniqueIdsCount(hits[..n]);
      assert hits == hits[..n] + [hits[n]];
      assert Ids(hits) == Ids(hits[..n]) + {hits[n].id};
      assert hits[n].id !in Ids(hits[..n]);
    }
  }

  /** The definition pins down the similarity sequence: two answers differ only in which of the
      equally similar ids they name. */
  lemma TopKSimilaritiesAreUnique(a: seq<Hit>, b: seq<Hit>, scores: map<nat, real>, k: nat)
    requires IsTopK(a, scores, k) && IsTopK(b, scores, k)
    ensures Sims(a) == Sims(b)
  {
    forall i | 0 <= i < |a| ensures a[i].sim == b[i].sim {
      NoBetterAt(a, b, scores, k, i);
      NoBetterAt(b, a, scores, k, i);
    }
  }

  lemma NoBetterAt(a: seq<Hit>, b: seq<Hit>, scores: map<nat, real>, k: nat, i: nat)
    requires IsTopK(a, scores, k) && IsTopK(b, scores, k) && i < |a|
    ensures a[i].sim <= b[i].sim
  {
    if a[i].sim > b[i].sim {
      BetterAreListedEarlier(a, b, scores, k, i);
      UniqueIdsCount(a[..i + 1]);
      UniqueIdsCount(b[..i]);
      SubsetCount(Ids(a[..i + 1]), Ids(b[..i]));
      assert false;
    }
  }

  lemma BetterAreListedEarlier(a: seq<Hit>, b: seq<Hit>, scores: map<nat, real>, k: nat, i: nat)
    requires IsTopK(a, scores, k) && IsTopK(b, scores, k) && i < |a| && i < |b| && a[i].sim > b[i].sim
    ensures Ids(a[..i + 1]) <= Ids(b[..i])
  {
    forall id | id in Ids(a[..i + 1]) ensures id in Ids(b[..i]) {
      var p :| 0 <= p <= i && a[..i + 1][p].id == id;
      assert a[p] in a && (p == i || a[p].sim >= a[i].sim);
      BetterIsListedEarlier(a[p], b, scores, k, i);
    }
  }

  lemma BetterIsListedEarlier(h: Hit, b: seq<Hit>, scores: map<nat, real>, k: nat, i: nat)
    requires IsTopK(b, scores, k) && i < |b|
    requires h.id in scores && scores[h.id] == h.sim > b[i].sim
    ensures h.id in Ids(b[..i])
  {
    assert b[i] in b;
    var p :| 0 <= p < |b| && b[p].id == h.id;
    assert b[p] in b;
    assert p < i;
    assert b[..i][p] == b[p];
    assert b[p] in b[..i];
  }

  // ----- Partial selection followed by a sort -----

  /** The contract of `select_nth_unstable_by(k - 1, ..)`: some rearrangement whose first `k` precede the rest. */
  predicate Selected(p: seq<Hit>, s: seq<Hit>, k: nat) {
    && multiset(p) == multiset(s)
    && forall i, j :: 0 <= i < k <= j < |p| ==> HitLeq(p[i], p[j])
  }

  /** Selecting, truncating and then sorting is sorting and then truncating. */
  lemma SelectThenSort(p: seq<Hit>, s: seq<Hit>, k: nat)
    requires Selected(p, s, k) && k <= |s|
    ensures |Sort(HitLeq, s)| == |s| == |p|
    ensures Sort(HitLeq, p[..k]) == Sort(HitLeq, s)[..k]
  {
    HitLeqIsTotalOrder();
    SameLength(p, s);
    assert p == p[..k] + p[k..];
    var front, back := Sort(HitLeq, p[..k]), Sort(HitLeq, p[k..]);
    SortPermutes(HitLeq, p[..k]);
    SortPermutes(HitLeq, p[k..]);
    SortPermutes(HitLeq, s);
    SortSorts(HitLeq, s);
    assert SortedBy(HitLeq, front + back) by { SortedHalves(p, k); }
    SortedIsUnique(HitLeq, front + back, Sort(HitLeq, s));
    assert (front + back)[..k] == front;
  }

  lemma SameLength(p: seq<Hit>, s: seq<Hit>)
    requires multiset(p) == multiset(s)
    ensures |p| == |s|
  {
    assert |multiset(p)| == |multiset(s)|;
  }

  lemma SortedHalves(p: seq<Hit>, k: nat)
    requires k <= |p| && forall i, j :: 0 <= i < k <= j < |p| ==> HitLeq(p[i], p[j])
    ensures SortedBy(HitLeq, Sort(HitLeq, p[..k]) + Sort(HitLeq, p[k..]))
  {
    HitLeqIsTotalOrder();
    var front, back := Sort(HitLeq, p[..k]), Sort(HitLeq, p[k..]);
    SortPermutes(HitLeq, p[..k]);
    SortPermutes(HitLeq, p[k..]);
    SortSorts(HitLeq, p[..k]);
    SortSorts(HitLeq, p[k..]);
    forall i, j | 0 <= i < |front| && 0 <= j < |back| ensures HitLeq(front[i], back[j]) {
      assert front[i] in front && back[j] in back;
      FrontBeforeBack(p, k, front[i], back[j]);
    }
  }

  lemma FrontBeforeBack(p: seq<Hit>, k: nat, f: Hit, b: Hit)
    requires k <= |p| && forall i, j :: 0 <= i < k <= j < |p| ==> HitLeq(p[i], p[j])
    requires f in p[..k] && b in p[k..]
    ensures HitLeq(f, b)
  {
    var x :| 0 <= x < k && p[x] == f;
    var y :| k <= y < |p| && p[y] == b;
  }

  /** `scan`'s cut: partial selection when it helps, then a sort of what is left. */
  method TakeBest(all: seq<Hit>, k: nat) returns (best: seq<Hit>)
    ensures |Sort(HitLeq, all)| == |all|
    ensures best == Sort(HitLeq, all)[..Min(k, |all|)]
    ensures forall i :: 0 <= i < |best| ==> best[i] in all
  {
    SortPermutes(HitLeq, all);
    var n := Min(k, |all|);
    best := all;
    if n < |all| {
      SortIsSelected(all, n);
      var p :| Selected(p, all, n);
      SelectThenSort(p, all, n);
      best := p[..n];
    }
    best := Sort(HitLeq, best);
    assert forall i :: 0 <= i < n ==> Sort(HitLeq, all)[i] in all;
  }

  lemma SortIsSelected(s: seq<Hit>, k: nat)
    ensures Selected(Sort(HitLeq, s), s, k)
  {
    HitLeqIsTotalOrder();
    SortPermutes(HitLeq, s);
    SortSorts(HitLeq, s);
  }

  // ----- Candidate lists that lose nothing -----

  ghost function AtLeast(hits: seq<Hit>, bound: real): set<Hit> {
    set h | h in hits && h.sim >= bound
  }

  /** `hits` may omit an entry only when `k` listed entries are at least as similar. */
  ghost predicate Covers(hits: seq<Hit>, scores: map<nat, real>, k: nat) {
    && UniqueIds(hits)
    && TrueScores(hits, scores)
    && forall id :: id in scores && id !in Ids(hits) ==> |AtLeast(hits, scores[id])| >= k
  }

  lemma {:induction false} HitSetCount(hits: seq<Hit>)
    requires UniqueIds(hits)
    ensures |set h | h in hits| == |hits|
  {
    if hits == [] {
      assert (set h | h in hits) == {};
    } else {
      var n := |hits| - 1;
      HitSetCount(hits[..n]);
      assert hits == hits[..n] + [hits[n]];
      assert (set h | h in hits) == (set h | h in hits[..n]) + {hits[n]};
    }
  }

  lemma TopKCovers(hits: seq<Hit>, scores: map<nat, real>, k: nat)
    requires IsTopK(hits, scores, k)
    ensures Covers(hits, scores, k)
  {
    forall id | id in scores && id !in Ids(hits) ensures |AtLeast(hits, scores[id])| >= k {
      assert AtLeast(hits, scores[id]) == set h | h in hits;
      HitSetCount(hits);
      UniqueIdsCount(hits);
      assert Ids(hits) <= scores.Keys - {id};
      SubsetCount(Ids(hits), scores.Keys - {id});
    }
  }

  /** Covering lists of disjoint maps concatenate to a covering list of the union. */
  lemma CoversConcat(a: seq<Hit>, sa: map<nat, real>, b: seq<Hit>, sb: map<nat, real>, k: nat)
    requires Covers(a, sa, k) && Covers(b, sb, k) && sa.Keys !! sb.Keys
    ensures Covers(a + b, sa + sb, k)
  {
    var all, scores := a + b, sa + sb;
    forall h | h in all ensures h.id in scores && scores[h.id] == h.sim {
      assert h in a || h in b;
      assert h.id in sa.Keys || h.id in sb.Keys;
    }
    forall i, j | 0 <= i < j < |all| ensures all[i].id != all[j].id {
      if i < |a| <= j {
        assert all[i] in a && all[j] in b;
        assert all[i].id in sa.Keys && all[j].id in sb.Keys;
      }
    }
    forall id | id in scores && id !in Ids(all) ensures |AtLeast(all, scores[id])| >= k {
      assert forall h :: h in a ==> h in all;
      assert forall h :: h in b ==> h in all;
      if id in sa {
        assert id !in Ids(a) && id !in sb.Keys;
        SubsetCount(AtLeast(a, sa[id]), AtLeast(all, scores[id]));
      } else {
        assert id !in Ids(b);
        SubsetCount(AtLeast(b, sb[id]), AtLeast(all, scores[id]));
      }
    }
  }

  lemma CoverSize(hits: seq<Hit>, scores: map<nat, real>, k: nat)
    requires Covers(hits, scores, k)
    ensures Min(k, |hits|) == Min(k, |scores|)
  {
    UniqueIdsCount(hits);
    assert Ids(hits) <= scores.Keys;
    SubsetCount(Ids(hits), scores.Keys);
    if id :| id in scores && id !in Ids(hits) {
      HitSetCount(hits);
      SubsetCount(AtLeast(hits, scores[id]), set h | h in hits);
    } else {
      assert Ids(hits) == scores.Keys;
    }
  }

  /** The `k` best of a list, by the comparator. */
  function Cut(hits: seq<Hit>, k: nat): (top: seq<Hit>)
    ensures |top| == Min(k, |hits|)
  {
    Sort(HitLeq, hits)[..Min(k, |hits|)]
  }

  /** Sorting a covering list and cutting it at `k` yields the brute-force answer. */
  lemma CutIsTopK(hits: seq<Hit>, scores: map<nat, real>, k: nat)
    requires Covers(hits, scores, k)
    ensures |Sort(HitLeq, hits)| == |hits|
    ensures IsTopK(Cut(hits, k), scores, k)
  {
    HitLeqIsTotalOrder();
    SortPermutes(HitLeq, hits);
    SortSorts(HitLeq, hits);
    SortKeepsUnique(HitLeq, (h: Hit) => h.id, hits);
    CoverSize(hits, scores, k);
    SortedCutIsTopK(Sort(HitLeq, hits), hits, scores, k, Min(k, |hits|));
  }

  lemma SortedCutIsTopK(sorted: seq<Hit>, hits: seq<Hit>, scores: map<nat, real>, k: nat, n: nat)
    requires Covers(hits, scores, k) && |sorted| == |hits| && n == Min(k, |hits|) == Min(k, |scores|)
    requires UniqueIds(sorted) && SortedBy(HitLeq, sorted) && multiset(sorted) == multiset(hits)
    ensures IsTopK(sorted[..n], scores, k)
  {
    PrefixOfSorted(sorted, hits, scores, n);
    hide Covers, HitLeq, UniqueIds, TrueScores;
    forall id, h | id in scores && id !in Ids(sorted[..n]) && h in sorted[..n] ensures scores[id] <= h.sim {
      var p :| 0 <= p < n && sorted[..n][p] == h;
      OmittedIsNoBetter(sorted, hits, scores, k, n, id, p);
    }
  }

  lemma PrefixOfSorted(sorted: seq<Hit>, hits: seq<Hit>, scores: map<nat, real>, n: nat)
    requires TrueScores(hits, scores) && multiset(sorted) == multiset(hits)
    requires UniqueIds(sorted) && SortedBy(HitLeq, sorted) && n <= |sorted|
    ensures UniqueIds(sorted[..n]) && TrueScores(sorted[..n], scores)
    ensures forall i, j :: 0 <= i < j < n ==> sorted[i].sim >= sorted[j].sim
  {
    forall h | h in sorted[..n] ensures h in hits {
      assert h in multiset(sorted);
    }
    forall i, j | 0 <= i < j < n ensures sorted[i].sim >= sorted[j].sim {
      assert HitLeq(sorted[i], sorted[j]);
    }
  }

  lemma OmittedIsNoBetter(sorted: seq<Hit>, hits: seq<Hit>, scores: map<nat, real>, k: nat, n: nat, id: nat, p: nat)
    requires Covers(hits, scores, k) && n <= k && p < n <= |sorted|
    requires UniqueIds(sorted) && SortedBy(HitLeq, sorted) && multiset(sorted) == multiset(hits)
    requires id in scores && id !in Ids(sorted[..n])
    ensures scores[id] <= sorted[p].sim
  {
    if id in Ids(hits) {
      var g :| g in hits && g.id == id;
      assert g in multiset(sorted);
      var q :| 0 <= q < |sorted| && sorted[q] == g;
      assert HitLeq(sorted[p], sorted[q]);
    } else if sorted[p].sim < scores[id] {
      DominatorsFillTheCut(sorted, hits, scores[id], n, p);
      assert false;
    }
  }

  /** If an entry below `bound` made the cut, fewer than `n` entries reach `bound`. */
  lemma DominatorsFillTheCut(sorted: seq<Hit>, hits: seq<Hit>, bound: real, n: nat, p: nat)
    requires UniqueIds(sorted) && SortedBy(HitLeq, sorted) && multiset(sorted) == multiset(hits)
    requires p < n <= |sorted| && sorted[p].sim < bound
    ensures |AtLeast(hits, bound)| < n
  {
    var front := sorted[..p];
    forall h | h in AtLeast(hits, bound) ensures h in front {
      assert h in multiset(hits);
      assert h in sorted;
      var q :| 0 <= q < |sorted| && sorted[q] == h;
      assert q <= p || HitLeq(sorted[p], sorted[q]);
      assert front[q] == h;
    }
    assert UniqueIds(front);
    HitSetCount(front);
    SubsetCount(AtLeast(hits, bound), set h | h in front);
  }

  /** A list naming every entry of the map covers it for every `k`. */
  lemma CompleteCovers(hits: seq<Hit>, scores: map<nat, real>, k: nat)
    requires UniqueIds(hits) && TrueScores(hits, scores)
    requires forall id :: id in scores ==> id in Ids(hits)
    ensures Covers(hits, scores, k)
  {}

  // ----- Answers and shortlists chosen by estimates -----

  /** The `k` best by estimates that may be off by `slack`: every listed similarity is near the ideal one, and an
      omitted entry is no better than a listed one by more than its own slack. */
  ghost predicate IsNearTopK(hits: seq<Hit>, ideals: map<nat, real>, slack: map<nat, real>, k: nat)
    requires ideals.Keys == slack.Keys
  {
    && UniqueIds(hits)
    && (forall h :: h in hits ==> h.id in ideals && -slack[h.id] <= ideals[h.id] - h.sim <= slack[h.id])
    && |hits| == Min(k, |ideals|)
    && (forall i, j :: 0 <= i < j < |hits| ==> hits[i].sim >= hits[j].sim)
    && (forall id, h :: id in ideals && id !in Ids(hits) && h in hits ==> ideals[id] <= h.sim + slack[id])
  }

  lemma TopKIsNear(hits: seq<Hit>, scores: map<nat, real>, ideals: map<nat, real>, slack: map<nat, real>, k: nat)
    requires IsTopK(hits, scores, k) && scores.Keys == ideals.Keys == slack.Keys
    requires forall id :: id in scores ==> -slack[id] <= ideals[id] - scores[id] <= slack[id]
    ensures IsNearTopK(hits, ideals, slack, k)
  {
    assert |scores| == |scores.Keys| == |ideals|;
  }

  /** The ids that `id` may not outdo by more than both slacks. */
  ghost function Rivals(ids: set<nat>, id: nat, ideals: map<nat, real>, slack: map<nat, real>): set<nat>
    requires ids <= ideals.Keys == slack.Keys && id in ideals
  {
    set y | y in ids && ideals[id] <= ideals[y] + slack[y] + slack[id]
  }

  /** `ids` leaves an entry out only when it lists `k` others that the entry does not outdo by more than the slacks. */
  ghost predicate Shortlist(ids: set<nat>, ideals: map<nat, real>, slack: map<nat, real>, k: nat)
    requires ideals.Keys == slack.Keys
  {
    && ids <= ideals.Keys
    && forall id :: id in ideals && id !in ids ==> |Rivals(ids, id, ideals, slack)| >= k
  }

  lemma NearTopKShortlists(hits: seq<Hit>, ideals: map<nat, real>, slack: map<nat, real>, k: nat)
    requires ideals.Keys == slack.Keys && IsNearTopK(hits, ideals, slack, k)
    ensures Shortlist(Ids(hits), ideals, slack, k)
  {
    forall id | id in ideals && id !in Ids(hits) ensures |Rivals(Ids(hits), id, ideals, slack)| >= k {
      assert Rivals(Ids(hits), id, ideals, slack) == Ids(hits);
      UniqueIdsCount(hits);
      SubsetCount(Ids(hits) + {id}, ideals.Keys);
    }
  }

  lemma ShortlistsJoin(a: set<nat>, ia: map<nat, real>, sa: map<nat, real>, b: set<nat>, ib: map<nat, real>,
        sb: map<nat, real>, k: nat)
    requires ia.Keys == sa.Keys && ib.Keys == sb.Keys && ia.Keys !! ib.Keys
    requires Shortlist(a, ia, sa, k) && Shortlist(b, ib, sb, k)
    ensures (ia + ib).Keys == (sa + sb).Keys && Shortlist(a + b, ia + ib, sa + sb, k)
  {
    forall id | id in ia + ib && id !in a + b ensures |Rivals(a + b, id, ia + ib, sa + sb)| >= k {
      if id in ia {
        SubsetCount(Rivals(a, id, ia, sa), Rivals(a + b, id, ia + ib, sa + sb));
      } else {
        SubsetCount(Rivals(b, id, ib, sb), Rivals(a + b, id, ia + ib, sa + sb));
      }
    }
  }

  /** The scores of the listed ids. */
  function Among(scores: map<nat, real>, ids: set<nat>): map<nat, real> {
    map id | id in scores && id in ids :: scores[id]
  }

  /** The best of a shortlist, by true scores, are the best of all up to twice any bound on the slack. */
  lemma BestOfShortlist(hits: seq<Hit>, ids: set<nat>, scores: map<nat, real>, slack: map<nat, real>, k: nat,
        limit: nat, e: real)
    requires scores.Keys == slack.Keys && Shortlist(ids, scores, slack, k) && limit <= k
    requires IsTopK(hits, Among(scores, ids), limit)
    requires e >= 0.0 && forall id :: id in slack ==> slack[id] <= e
    ensures UniqueIds(hits) && TrueScores(hits, scores) && |hits| == Min(limit, |scores|)
    ensures forall id, h :: id in scores && id !in Ids(hits) && h in hits ==> scores[id] <= h.sim + 2.0 * e
  {
    assert Among(scores, ids).Keys == ids;
    ShortlistSize(ids, scores, slack, k);
    forall id, h | id in scores && id !in Ids(hits) && h in hits ensures scores[id] <= h.sim + 2.0 * e {
      if id in ids {
        assert id in Among(scores, ids);
      } else if h.sim + 2.0 * e < scores[id] {
        FewAbove(hits, Among(scores, ids), limit, h, Rivals(ids, id, scores, slack));
        assert false;
      }
    }
  }

  lemma ShortlistSize(ids: set<nat>, scores: map<nat, real>, slack: map<nat, real>, k: nat)
    requires scores.Keys == slack.Keys && Shortlist(ids, scores, slack, k)
    ensures |ids| >= Min(k, |scores|) && |ids| <= |scores|
  {
    SubsetCount(ids, scores.Keys);
    if id :| id in scores && id !in ids {
      SubsetCount(Rivals(ids, id, scores, slack), ids);
    } else {
      assert ids == scores.Keys;
    }
  }

  /** A listed hit has fewer than `k` ids above it. */
  lemma FewAbove(hits: seq<Hit>, scores: map<nat, real>, k: nat, h: Hit, above: set<nat>)
    requires IsTopK(hits, scores, k) && h in hits && above <= scores.Keys
    requires forall id :: id in above ==> scores[id] > h.sim
    ensures |above| < k
  {
    assert h.id in Ids(hits) && h.id !in above;
    forall id | id in above ensures id in Ids(hits) { assert id in scores; }
    SubsetCount(above + {h.id}, Ids(hits));
    UniqueIdsCount(hits);
  }
}
