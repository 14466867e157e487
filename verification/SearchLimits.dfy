/** When the limits of a search cost a release its best score (src/gruvax/db/queries.py:304-361):
    the documentation promises every result at its best, and the limit of the catalog path can
    break that. The condition is stated on the table, the query and the limit alone. */
module SearchLimits {
  import opened Sequences
  import opened Search
  import N = Normalize
  import P = CatalogPattern

  // ── A limit filled by preference ───────────────────────────────────────────

  /** By score; within a score, preferred hits first. */
  function Preferring(p: Hit -> bool): (Hit, Hit) -> bool {
    (a: Hit, b: Hit) => a.score > b.score || (a.score == b.score && (p(a) || !p(b)))
  }

  function TopPreferring(hits: seq<Hit>, n: nat, p: Hit -> bool): (r: seq<Hit>) {
    var s := Sort(hits, Preferring(p));
    if |s| <= n then s else s[..n]
  }

  lemma PreferringIsPreorder(p: Hit -> bool)
    ensures Preorder(Preferring(p))
  {
  }

  /** Ties may be broken by any preference. */
  lemma TopPreferringIsTop(hits: seq<Hit>, n: nat, p: Hit -> bool)
    ensures IsTop(TopPreferring(hits, n, p), hits, n)
  {
    var s, picked := Sort(hits, Preferring(p)), TopPreferring(hits, n, p);
    var rest := s[|picked|..];
    PreferringIsPreorder(p);
    SortOrders(hits, Preferring(p));
    SortPermutes(hits, Preferring(p));
    assert s == picked + rest;
    assert multiset(hits) - multiset(picked) == multiset(rest);
    forall i, j | 0 <= i < j < |s| ensures s[i].score >= s[j].score {
      assert Preferring(p)(s[i], s[j]);
    }
    PrefixIsTop(picked, rest);
  }

  lemma SortCounts(hits: seq<Hit>, p: Hit -> bool, q: Hit -> bool)
    ensures |Filter(Sort(hits, Preferring(p)), q)| == |Filter(hits, q)|
  {
    PreferringIsPreorder(p);
    FilterSort(hits, Preferring(p), q);
    SortPermutes(Filter(hits, q), Preferring(p));
  }

  function Above(t: real): Hit -> bool { (h: Hit) => h.score > t }

  function Only(h: Hit): Hit -> bool { (x: Hit) => x == h }

  lemma FilterTake(s: seq<Hit>, k: nat, q: Hit -> bool)
    requires k <= |s| && forall i :: 0 <= i < k ==> q(s[i])
    ensures |Filter(s, q)| >= k
  {
    assert s == s[..k] + s[k..];
    FilterConcat(s[..k], s[k..], q);
    FilterAll(s[..k], q);
  }

  lemma FilterDrop(s: seq<Hit>, k: nat, q: Hit -> bool)
    requires k <= |s| && forall i :: k <= i < |s| ==> !q(s[i])
    ensures |Filter(s, q)| <= k
  {
    assert s == s[..k] + s[k..];
    FilterConcat(s[..k], s[k..], q);
    FilterNone(s[k..], q);
    FilterIsShorter(s[..k], q);
  }

  lemma {:induction false} FilterIsShorter(s: seq<Hit>, q: Hit -> bool)
    ensures |Filter(s, q)| <= |s|
  {
    if s != [] { FilterIsShorter(s[1..], q); }
  }

  /** A hit with fewer than n better ones can be kept. */
  lemma PreferredHitIsKept(hits: seq<Hit>, n: nat, h: Hit)
    requires h in hits && |Filter(hits, Above(h.score))| < n
    ensures h in TopPreferring(hits, n, Only(h))
  {
    var s := Sort(hits, Preferring(Only(h)));
    PreferringIsPreorder(Only(h));
    SortOrders(hits, Preferring(Only(h)));
    SortPermutes(hits, Preferring(Only(h)));
    SortCounts(hits, Only(h), Above(h.score));
    var i := FirstIndex(s, Only(h));
    var k :| 0 <= k < |s| && s[k] == h;
    assert Only(h)(s[k]);
    forall j | 0 <= j < i ensures Above(h.score)(s[j]) {
      assert Preferring(Only(h))(s[j], s[i]) && !Only(h)(s[j]);
    }
    FilterTake(s, i, Above(h.score));
    assert TopPreferring(hits, n, Only(h)) == if |s| <= n then s else s[..n];
  }

  function AlsoAtLeast(p: Hit -> bool, u: real): Hit -> bool { (h: Hit) => p(h) && h.score >= u }

  /** A limit can be filled from preferred hits alone if they include every hit above some score
      and enough hits at or above it. */
  lemma PreferredHitsFill(hits: seq<Hit>, n: nat, p: Hit -> bool, u: real)
    requires forall x :: x in hits && x.score > u ==> p(x)
    requires |Filter(hits, AlsoAtLeast(p, u))| >= n
    ensures forall x :: x in TopPreferring(hits, n, p) && |hits| > n ==> p(x)
  {
    var s, q := Sort(hits, Preferring(p)), AlsoAtLeast(p, u);
    PreferringIsPreorder(p);
    SortOrders(hits, Preferring(p));
    SortPermutes(hits, Preferring(p));
    SortCounts(hits, p, q);
    forall j | 0 <= j < n && j < |s| ensures p(s[j]) {
      if !p(s[j]) {
        assert s[j] in hits && s[j].score <= u;
        forall i | j <= i < |s| ensures !q(s[i]) {
          assert i > j ==> Preferring(p)(s[j], s[i]);
        }
        FilterDrop(s, j, q);
      }
    }
  }

  // ── The condition ──────────────────────────────────────────────────────────

  ghost function BothPaths(rows: seq<Row>, q: string, text: Scoring): (r: seq<Hit>) {
    Hits(rows, text) + Hits(rows, CatalogScore(q))
  }

  /** Every answer shows every result at its best score over all matches of both paths. */
  ghost predicate AlwaysBest(rows: seq<Row>, q: string, text: Scoring, limit: nat) {
    forall st, found, h :: Searched(rows, q, text, limit, st, found) && h in found ==> BestOf(h, BothPaths(rows, q, text))
  }

  function InReleases(ids: set<int>): Hit -> bool { (h: Hit) => h.row.releaseId in ids }

  /** A release is matched by both paths and fewer than `limit` other releases can take its catalog
      rank away: `h` is its best text match, with fewer than 40 better ones, all of the others; and
      the others have 20 catalog matches at some score and every one above it. */
  ghost predicate CrowdedOut(rows: seq<Row>, q: string, text: Scoring, limit: nat, h: Hit, others: set<int>, u: real) {
    var byText, byCatalog := Hits(rows, text), Hits(rows, CatalogScore(q));
    && BestOf(h, byText) && Lists(byCatalog, h.row.releaseId)
    && h.row.releaseId !in others && |others| < limit
    && |Filter(byText, Above(h.score))| < TEXT_LIMIT
    && (forall x :: x in byText && x.score > h.score ==> x.row.releaseId in others)
    && (forall x :: x in byCatalog && x.score > u ==> x.row.releaseId in others)
    && |Filter(byCatalog, AlsoAtLeast(InReleases(others), u))| >= CATALOG_LIMIT
  }

  ghost predicate CanCrowdOut(rows: seq<Row>, q: string, text: Scoring, limit: nat) {
    P.QueryKey(q) != "" && exists h, others, u :: CrowdedOut(rows, q, text, limit, h, others, u)
  }

  // ── A loss needs a crowd ───────────────────────────────────────────────────

  lemma LostIsByText(rows: seq<Row>, q: string, text: Scoring, limit: nat, st: Stages, found: seq<Hit>, h: Hit)
    requires Searched(rows, q, text, limit, st, found) && TextScores(text) && h in found
    requires !BestOf(h, BothPaths(rows, q, text))
    ensures h in st.fts && h.score < 0.8 && BestOf(h, Hits(rows, text))
    ensures Lists(Hits(rows, CatalogScore(q)), h.row.releaseId) && !Lists(st.cat, h.row.releaseId)
  {
    BestOverAllMatches(rows, q, text, limit, st, found, h);
    ResultsAreRanked(rows, q, text, limit, st, found);
    ScoresTell(rows, q, text, limit, st, found, h);
    TopMembers(st.fts, Hits(rows, text), TEXT_LIMIT);
    forall x | x in Hits(rows, text) && x.row.releaseId == h.row.releaseId ensures x.score <= h.score {
      TopOrLess(st.fts, Hits(rows, text), TEXT_LIMIT, x, h);
    }
  }

  lemma ReleasesFit(found: seq<Hit>, ids: set<int>, id: int)
    requires OnePerRelease(found) && id !in ids && Lists(found, id) && forall x :: x in ids ==> Lists(found, x)
    ensures |ids| < |found|
  {
    IdsCount(found);
    forall x | x in ids + {id} ensures x in IdsOf(found) {
      assert Lists(found, x);
    }
    SubsetSize(ids + {id}, IdsOf(found));
  }

  lemma SubsetSize(a: set<int>, b: set<int>)
    requires a <= b
    ensures |a| <= |b|
  {
    assert b == a + (b - a);
  }

  /** Everything that ranks above a result is a result too. */
  lemma BetterAreFound(rows: seq<Row>, q: string, text: Scoring, limit: nat, st: Stages, found: seq<Hit>, h: Hit, x: Hit)
    requires Searched(rows, q, text, limit, st, found) && P.QueryKey(q) != "" && h in found
    requires x in st.fts + st.cat && x.score > h.score
    ensures Lists(found, x.row.releaseId)
  {
    ResortIsNoOp(rows, q, text, limit, st, found);
    assert Lists(st.deduped, x.row.releaseId);
    var d :| d in st.deduped && d.row.releaseId == x.row.releaseId;
    assert BestOf(d, st.fts + st.cat);
    TopOrLess(found, st.deduped, limit, d, h);
  }

  lemma TextAboveIsKept(rows: seq<Row>, text: Scoring, fts: seq<Hit>, h: Hit)
    requires IsTop(fts, Hits(rows, text), TEXT_LIMIT) && h in fts
    ensures |Filter(Hits(rows, text), Above(h.score))| < TEXT_LIMIT
    ensures forall x :: x in Hits(rows, text) && x.score > h.score ==> x in fts
  {
    var byText := Hits(rows, text);
    var above := multiset(Filter(byText, Above(h.score)));
    forall x | x in byText && x.score > h.score ensures x in fts {
      TopOrLess(fts, byText, TEXT_LIMIT, x, h);
    }
    forall y ensures (above + multiset{h})[y] <= multiset(fts)[y] {
      FilterCounts(byText, Above(h.score), y);
      assert multiset(fts)[y] < multiset(byText)[y] ==> y in multiset(byText) - multiset(fts);
    }
    SubmultisetSize(above + multiset{h}, multiset(fts));
  }

  lemma CatalogIsFull(rows: seq<Row>, q: string, cat: seq<Hit>, id: int)
    requires IsTop(cat, Hits(rows, CatalogScore(q)), CATALOG_LIMIT)
    requires Lists(Hits(rows, CatalogScore(q)), id) && !Lists(cat, id)
    ensures |cat| == CATALOG_LIMIT
  {
    var byCatalog := Hits(rows, CatalogScore(q));
    var x :| x in byCatalog && x.row.releaseId == id;
    SubmultisetSize(multiset(cat), multiset(byCatalog));
    assert x in multiset(byCatalog) && (x in multiset(cat) ==> x in cat);
  }

  lemma FullCatalogCrowds(rows: seq<Row>, q: string, cat: seq<Hit>, others: set<int>)
    requires IsTop(cat, Hits(rows, CatalogScore(q)), CATALOG_LIMIT) && |cat| == CATALOG_LIMIT
    requires forall x :: x in cat ==> x.row.releaseId in others
    ensures var u := cat[CATALOG_LIMIT - 1].score;
            && (forall x :: x in Hits(rows, CatalogScore(q)) && x.score > u ==> x.row.releaseId in others)
            && |Filter(Hits(rows, CatalogScore(q)), AlsoAtLeast(InReleases(others), u))| >= CATALOG_LIMIT
  {
    var byCatalog, last := Hits(rows, CatalogScore(q)), cat[CATALOG_LIMIT - 1];
    var p := AlsoAtLeast(InReleases(others), last.score);
    forall x | x in byCatalog && x.score > last.score ensures x.row.releaseId in others {
      TopOrLess(cat, byCatalog, CATALOG_LIMIT, x, last);
    }
    forall y ensures multiset(cat)[y] <= multiset(Filter(byCatalog, p))[y] {
      FilterCounts(byCatalog, p, y);
      if y in cat {
        var i :| 0 <= i < |cat| && cat[i] == y;
        assert p(y);
      }
    }
    SubmultisetSize(multiset(cat), multiset(Filter(byCatalog, p)));
  }

  lemma OtherScoresMore(rows: seq<Row>, q: string, text: Scoring, limit: nat, st: Stages, found: seq<Hit>, h: Hit, id: int)
    requires Searched(rows, q, text, limit, st, found) && P.QueryKey(q) != "" && TextScores(text)
    requires h in st.fts && h.score < 0.8
    requires id in IdsOf(st.cat) + IdsOf(Filter(Hits(rows, text), Above(h.score)))
    ensures exists x :: x in st.fts + st.cat && x.row.releaseId == id && x.score > h.score
  {
    if id in IdsOf(st.cat) {
      var x :| x in st.cat && x.row.releaseId == id;
      assert x in st.fts + st.cat;
      ScoresTell(rows, q, text, limit, st, found, x);
    } else {
      var x :| x in Filter(Hits(rows, text), Above(h.score)) && x.row.releaseId == id;
      FilterMember(Hits(rows, text), Above(h.score), x);
      TextAboveIsKept(rows, text, st.fts, h);
      assert x in st.fts + st.cat;
    }
  }

  lemma OthersAreFound(rows: seq<Row>, q: string, text: Scoring, limit: nat, st: Stages, found: seq<Hit>, h: Hit)
    requires Searched(rows, q, text, limit, st, found) && P.QueryKey(q) != "" && TextScores(text)
    requires h in st.fts && h.score < 0.8 && h in found
    ensures forall id :: id in IdsOf(st.cat) + IdsOf(Filter(Hits(rows, text), Above(h.score))) ==> Lists(found, id)
  {
    forall id | id in IdsOf(st.cat) + IdsOf(Filter(Hits(rows, text), Above(h.score))) ensures Lists(found, id) {
      OtherScoresMore(rows, q, text, limit, st, found, h, id);
      var x :| x in st.fts + st.cat && x.row.releaseId == id && x.score > h.score;
      BetterAreFound(rows, q, text, limit, st, found, h, x);
    }
  }

  lemma CrowdIsElsewhere(hits: seq<Hit>, cat: seq<Hit>, h: Hit)
    requires BestOf(h, hits) && !Lists(cat, h.row.releaseId)
    ensures var others := IdsOf(cat) + IdsOf(Filter(hits, Above(h.score)));
            && h.row.releaseId !in others
            && (forall x :: x in cat ==> x.row.releaseId in others)
            && forall x :: x in hits && x.score > h.score ==> x.row.releaseId in others
  {
    FilterMembers(hits, Above(h.score));
  }

  /** A result that is not at its best: the releases above it are the crowd. */
  lemma LossNeedsCrowd(rows: seq<Row>, q: string, text: Scoring, limit: nat, st: Stages, found: seq<Hit>, h: Hit)
    requires Searched(rows, q, text, limit, st, found) && TextScores(text) && h in found
    requires !BestOf(h, BothPaths(rows, q, text))
    ensures CanCrowdOut(rows, q, text, limit)
  {
    var byText := Hits(rows, text);
    var others := IdsOf(st.cat) + IdsOf(Filter(byText, Above(h.score)));
    LostIsByText(rows, q, text, limit, st, found, h);
    ResultsAreRanked(rows, q, text, limit, st, found);
    CrowdIsElsewhere(byText, st.cat, h);
    TextAboveIsKept(rows, text, st.fts, h);
    CatalogIsFull(rows, q, st.cat, h.row.releaseId);
    FullCatalogCrowds(rows, q, st.cat, others);
    OthersAreFound(rows, q, text, limit, st, found, h);
    assert Lists(found, h.row.releaseId);
    ReleasesFit(found, others, h.row.releaseId);
    assert CrowdedOut(rows, q, text, limit, h, others, st.cat[CATALOG_LIMIT - 1].score);
  }

  // ── A crowd makes a loss ───────────────────────────────────────────────────

  /** The distinct releases of the two paths, best hit first. */
  ghost function Deduped(fts: seq<Hit>, cat: seq<Hit>): (r: seq<Hit>) {
    FirstPerRelease(Sort(fts + cat, RankFirst()))
  }

  lemma DedupedIsDistinctOn(fts: seq<Hit>, cat: seq<Hit>)
    ensures IsDistinctOn(Deduped(fts, cat), fts + cat)
  {
    var merged := Sort(fts + cat, RankFirst());
    RankFirstIsPreorder();
    SortOrders(fts + cat, RankFirst());
    SortPermutes(fts + cat, RankFirst());
    FirstPerReleaseIsDistinctOn(merged);
    SameHitsSameBest(Deduped(fts, cat), merged, fts + cat);
  }

  /** The crowd fills the catalog path, the release is kept by its text match only. */
  lemma CrowdFills(rows: seq<Row>, q: string, text: Scoring, limit: nat, h: Hit, others: set<int>, u: real)
    requires CrowdedOut(rows, q, text, limit, h, others, u)
    ensures var cat := TopPreferring(Hits(rows, CatalogScore(q)), CATALOG_LIMIT, InReleases(others));
            !Lists(cat, h.row.releaseId) && forall x :: x in cat ==> x.row.releaseId in others
  {
    var byCatalog, p := Hits(rows, CatalogScore(q)), InReleases(others);
    PreferredHitsFill(byCatalog, CATALOG_LIMIT, p, u);
    var x :| x in byCatalog && x.row.releaseId == h.row.releaseId;
    StrictlyFewer(byCatalog, AlsoAtLeast(p, u), x);
  }

  lemma {:induction false} StrictlyFewer(hits: seq<Hit>, p: Hit -> bool, x: Hit)
    requires x in hits && !p(x)
    ensures |Filter(hits, p)| < |hits|
  {
    if x == hits[0] {
      FilterIsShorter(hits[1..], p);
    } else {
      StrictlyFewer(hits[1..], p, x);
    }
  }

  /** What ranks above the release's entry belongs to the crowd. */
  lemma FewRankAbove(deduped: seq<Hit>, d: Hit, others: set<int>, limit: nat)
    requires OnePerRelease(deduped) && |others| < limit
    requires forall x :: x in deduped && x.score > d.score ==> x.row.releaseId in others
    ensures |Filter(deduped, Above(d.score))| < limit
  {
    var above := Filter(deduped, Above(d.score));
    FilterDistinct(deduped, Above(d.score));
    FilterMembers(deduped, Above(d.score));
    IdsCount(above);
    SubsetSize(IdsOf(above), others);
  }

  /** The entry of a release that only the text path kept. */
  lemma TextEntry(fts: seq<Hit>, cat: seq<Hit>, deduped: seq<Hit>, byText: seq<Hit>, h: Hit) returns (d: Hit)
    requires IsDistinctOn(deduped, fts + cat) && h in fts && BestOf(h, byText) && !Lists(cat, h.row.releaseId)
    requires forall x :: x in fts ==> x in byText
    ensures d in deduped && d.row.releaseId == h.row.releaseId && d.score == h.score
  {
    assert h in fts + cat;
    assert Lists(deduped, h.row.releaseId);
    d :| d in deduped && d.row.releaseId == h.row.releaseId;
    assert BestOf(d, fts + cat);
    assert d in fts;
  }

  lemma CatalogBeatsText(rows: seq<Row>, q: string, text: Scoring, d: Hit)
    requires Lists(Hits(rows, CatalogScore(q)), d.row.releaseId) && d.score < 0.8
    ensures !BestOf(d, BothPaths(rows, q, text))
  {
    var x :| x in Hits(rows, CatalogScore(q)) && x.row.releaseId == d.row.releaseId;
    HitsMean(rows, CatalogScore(q), x);
    CatalogScoreMeans(q, x.row);
    assert x in BothPaths(rows, q, text);
  }

  lemma AboveIsCrowd(rows: seq<Row>, text: Scoring, fts: seq<Hit>, cat: seq<Hit>, deduped: seq<Hit>, h: Hit, others: set<int>)
    requires IsDistinctOn(deduped, fts + cat) && forall x :: x in fts ==> x in Hits(rows, text)
    requires forall x :: x in cat ==> x.row.releaseId in others
    requires forall x :: x in Hits(rows, text) && x.score > h.score ==> x.row.releaseId in others
    ensures forall x :: x in deduped && x.score > h.score ==> x.row.releaseId in others
  {
    forall x | x in deduped && x.score > h.score ensures x.row.releaseId in others {
      assert BestOf(x, fts + cat);
    }
  }

  lemma CrowdMakesLoss(rows: seq<Row>, q: string, text: Scoring, limit: nat, h: Hit, others: set<int>, u: real)
    returns (st: Stages, found: seq<Hit>, lost: Hit)
    requires P.QueryKey(q) != "" && TextScores(text) && CrowdedOut(rows, q, text, limit, h, others, u)
    ensures Searched(rows, q, text, limit, st, found) && lost in found && !BestOf(lost, BothPaths(rows, q, text))
  {
    var byText, byCatalog := Hits(rows, text), Hits(rows, CatalogScore(q));
    var fts := TopPreferring(byText, TEXT_LIMIT, Only(h));
    var cat := TopPreferring(byCatalog, CATALOG_LIMIT, InReleases(others));
    TopPreferringIsTop(byText, TEXT_LIMIT, Only(h));
    TopPreferringIsTop(byCatalog, CATALOG_LIMIT, InReleases(others));
    PreferredHitIsKept(byText, TEXT_LIMIT, h);
    TopMembers(fts, byText, TEXT_LIMIT);
    CrowdFills(rows, q, text, limit, h, others, u);
    var deduped := Deduped(fts, cat);
    DedupedIsDistinctOn(fts, cat);
    lost := TextEntry(fts, cat, deduped, byText, h);
    AboveIsCrowd(rows, text, fts, cat, deduped, h, others);
    FewRankAbove(deduped, lost, others, limit);
    PreferredHitIsKept(deduped, limit, lost);
    TopPreferringIsTop(deduped, limit, Only(lost));
    st := Stages(fts, cat, deduped, TopPreferring(deduped, limit, Only(lost)));
    found := Sort(st.ranked, RankFirst());
    SortPermutes(st.ranked, RankFirst());
    HitsMean(rows, text, h);
    assert text(h.row).Some?;
    CatalogBeatsText(rows, q, text, lost);
  }

  /** Every answer shows every result at its best score exactly when no release can be crowded out:
      no release matched by both paths has fewer than `limit` other releases that hold all its
      better text matches (fewer than 40) and can fill the 20 places of the catalog path. */
  lemma BestExactlyWithoutCrowd(rows: seq<Row>, q: string, text: Scoring, limit: nat)
    requires TextScores(text)
    ensures AlwaysBest(rows, q, text, limit) <==> !CanCrowdOut(rows, q, text, limit)
  {
    if CanCrowdOut(rows, q, text, limit) {
      var h, others, u :| CrowdedOut(rows, q, text, limit, h, others, u);
      var st, found, lost := CrowdMakesLoss(rows, q, text, limit, h, others, u);
      assert !AlwaysBest(rows, q, text, limit);
    } else {
      forall st, found, h | Searched(rows, q, text, limit, st, found) && h in found ensures BestOf(h, BothPaths(rows, q, text)) {
        if !BestOf(h, BothPaths(rows, q, text)) {
          LossNeedsCrowd(rows, q, text, limit, st, found, h);
        }
      }
    }
  }

  // ── Consequences ───────────────────────────────────────────────────────────

  /** With at most 20 catalog matches every answer is at its best, whatever the limit. */
  lemma FewMatchesAreBest(rows: seq<Row>, q: string, text: Scoring, limit: nat)
    requires TextScores(text) && |Hits(rows, CatalogScore(q))| <= 20
    ensures AlwaysBest(rows, q, text, limit)
  {
    var byCatalog := Hits(rows, CatalogScore(q));
    forall h, others, u ensures !CrowdedOut(rows, q, text, limit, h, others, u) {
      if CrowdedOut(rows, q, text, limit, h, others, u) {
        var x :| x in byCatalog && x.row.releaseId == h.row.releaseId;
        StrictlyFewer(byCatalog, AlsoAtLeast(InReleases(others), u), x);
      }
    }
    BestExactlyWithoutCrowd(rows, q, text, limit);
  }

  /** One row per release: no release sits in several folders. */
  ghost predicate DistinctReleases(rows: seq<Row>) {
    forall i, j :: 0 <= i < j < |rows| ==> rows[i].releaseId != rows[j].releaseId
  }

  lemma {:induction false} DistinctHits(rows: seq<Row>, scoring: Scoring)
    requires DistinctReleases(rows)
    ensures OnePerRelease(Hits(rows, scoring))
  {
    if rows != [] {
      DistinctHits(rows[1..], scoring);
      var rest := Hits(rows[1..], scoring);
      forall j | 0 <= j < |rest| ensures rest[j].row.releaseId != rows[0].releaseId {
        HitsMean(rows[1..], scoring, rest[j]);
        var k :| 0 <= k < |rows[1..]| && rows[1..][k] == rest[j].row;
        assert rows[k + 1] == rest[j].row;
      }
    }
  }

  /** With one row per release and the default limit of 20, every answer is at its best: a crowd
      needs 20 other releases. */
  lemma DefaultLimitIsBest(rows: seq<Row>, q: string, text: Scoring, limit: nat)
    requires TextScores(text) && DistinctReleases(rows) && limit <= 20
    ensures AlwaysBest(rows, q, text, limit)
  {
    var byCatalog := Hits(rows, CatalogScore(q));
    DistinctHits(rows, CatalogScore(q));
    forall h, others, u ensures !CrowdedOut(rows, q, text, limit, h, others, u) {
      var crowd := Filter(byCatalog, AlsoAtLeast(InReleases(others), u));
      FilterDistinct(byCatalog, AlsoAtLeast(InReleases(others), u));
      FilterMembers(byCatalog, AlsoAtLeast(InReleases(others), u));
      IdsCount(crowd);
      SubsetSize(IdsOf(crowd), others);
    }
    BestExactlyWithoutCrowd(rows, q, text, limit);
  }

  /** Every row matches the query by catalog number and by text. */
  ghost predicate AllMatch(rows: seq<Row>, q: string, text: Scoring) {
    forall row :: row in rows ==> Prefix(q, row) && text(row).Some?
  }

  lemma {:induction false} AllHit(rows: seq<Row>, scoring: Scoring)
    requires forall row :: row in rows ==> scoring(row).Some?
    ensures |Hits(rows, scoring)| == |rows| && IdsOf(Hits(rows, scoring)) == ReleasesOf(rows)
  {
    if rows != [] {
      AllHit(rows[1..], scoring);
      var first, rest := Hit(rows[0], scoring(rows[0]).value), Hits(rows[1..], scoring);
      assert Hits(rows, scoring) == [first] + rest;
      assert IdsOf([first] + rest) == {rows[0].releaseId} + IdsOf(rest);
      assert ReleasesOf(rows) == {rows[0].releaseId} + ReleasesOf(rows[1..]);
    }
  }

  lemma TopKeepsAll(picked: seq<Hit>, hits: seq<Hit>, n: nat)
    requires IsTop(picked, hits, n) && |hits| <= n
    ensures forall h :: h in hits <==> h in picked
  {
    SubmultisetSize(multiset(picked), multiset(hits));
    forall h ensures h in hits <==> h in picked {
      assert h in hits <==> h in multiset(hits);
      assert h in picked <==> h in multiset(picked);
    }
  }

  lemma {:induction false} IdsAreFew(hits: seq<Hit>)
    ensures |IdsOf(hits)| <= |hits|
  {
    if hits != [] {
      IdsAreFew(hits[1..]);
      assert IdsOf(hits) == IdsOf(hits[1..]) + {hits[0].row.releaseId};
    }
  }

  lemma LeftOut(ids: set<int>, cat: seq<Hit>) returns (id: int)
    requires |ids| > |cat|
    ensures id in ids && !Lists(cat, id)
  {
    IdsAreFew(cat);
    if forall x :: x in ids ==> x in IdsOf(cat) {
      SubsetSize(ids, IdsOf(cat));
      assert false;
    }
    id :| id in ids && id !in IdsOf(cat);
  }

  lemma AllAreFound(rows: seq<Row>, q: string, text: Scoring, limit: nat, st: Stages, found: seq<Hit>, id: int)
    requires Searched(rows, q, text, limit, st, found) && P.QueryKey(q) != ""
    requires AllMatch(rows, q, text) && |rows| <= TEXT_LIMIT && |rows| <= limit && id in ReleasesOf(rows)
    ensures Lists(found, id)
  {
    var byText := Hits(rows, text);
    AllHit(rows, text);
    TopKeepsAll(st.fts, byText, TEXT_LIMIT);
    var h :| h in byText && h.row.releaseId == id;
    assert h in st.fts + st.cat;
    forall x | x in IdsOf(st.deduped) ensures x in ReleasesOf(rows) {
      var d :| d in st.deduped && d.row.releaseId == x;
      StagesFromRows(rows, q, text, limit, st, found, d);
    }
    IdsCount(st.deduped);
    SubsetSize(IdsOf(st.deduped), ReleasesOf(rows));
    FewerReleases(rows);
    ResortIsNoOp(rows, q, text, limit, st, found);
    TopKeepsAll(found, st.deduped, limit);
    var d :| d in st.deduped && d.row.releaseId == id;
  }

  lemma StagesFromRows(rows: seq<Row>, q: string, text: Scoring, limit: nat, st: Stages, found: seq<Hit>, d: Hit)
    requires Searched(rows, q, text, limit, st, found) && P.QueryKey(q) != "" && d in st.deduped
    ensures d.row in rows
  {
    assert BestOf(d, st.fts + st.cat);
    if d in st.fts {
      TopMembers(st.fts, Hits(rows, text), TEXT_LIMIT);
      HitsMean(rows, text, d);
    } else {
      TopMembers(st.cat, Hits(rows, CatalogScore(q)), CATALOG_LIMIT);
      HitsMean(rows, CatalogScore(q), d);
    }
  }

  /** Between 21 and 40 one-folder releases that all match both ways, asked for in full: every
      answer shows some result below its best. */
  lemma ManyMatchesLose(rows: seq<Row>, q: string, text: Scoring, limit: nat, st: Stages, found: seq<Hit>)
    requires Searched(rows, q, text, limit, st, found) && P.QueryKey(q) != "" && TextScores(text)
    requires DistinctReleases(rows) && AllMatch(rows, q, text)
    requires 20 < |rows| <= 40 && |rows| <= limit
    ensures exists h :: h in found && !BestOf(h, BothPaths(rows, q, text))
  {
    var byCatalog := Hits(rows, CatalogScore(q));
    forall row | row in rows ensures CatalogScore(q)(row).Some? { CatalogScoreMeans(q, row); }
    AllHit(rows, CatalogScore(q));
    DistinctHits(rows, CatalogScore(q));
    IdsCount(byCatalog);
    var id := LeftOut(ReleasesOf(rows), st.cat);
    AllAreFound(rows, q, text, limit, st, found, id);
    var h :| h in found && h.row.releaseId == id;
    var x :| x in byCatalog && x.row.releaseId == id;
    BestOverAllMatches(rows, q, text, limit, st, found, h);
  }

  function Numbered(n: nat): (rows: seq<Row>) { seq(n, i => Row(i, 0, Some("a"))) }

  function HalfScore(): Scoring { (row: Row) => Some(0.5) }

  /** A failing input: 21 releases with the catalog number of the query, asked for with limit 21. */
  lemma TwentyOneMatchesLose(st: Stages, found: seq<Hit>)
    requires Searched(Numbered(21), "a", HalfScore(), 21, st, found)
    ensures exists h :: h in found && !BestOf(h, BothPaths(Numbered(21), "a", HalfScore()))
  {
    NumberedMatch(21);
    ManyMatchesLose(Numbered(21), "a", HalfScore(), 21, st, found);
  }

  lemma NumberedMatch(n: nat)
    ensures |Numbered(n)| == n && DistinctReleases(Numbered(n)) && AllMatch(Numbered(n), "a", HalfScore())
    ensures TextScores(HalfScore()) && P.QueryKey("a") != ""
  {
    KeyOfA();
    forall row | row in Numbered(n) ensures Prefix("a", row) {
      assert row.catalog == Some("a");
    }
  }

  lemma KeyOfA()
    ensures P.QueryKey("a") == "a" && P.ColumnKey("a") == "a"
  {
    FilterAll("a", N.Keeps());
    FilterAll("a", P.SqlKeeps());
    assert N.LowerCase("a") == "a";
  }
}
