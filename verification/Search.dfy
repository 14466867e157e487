/** What search_collection returns (src/gruvax/db/queries.py:265-489). The database may break ties
    in any way, so a search is a relation between the table and the rows it may return. */
module Search {
  import opened Sequences
  import P = CatalogPattern

  const TEXT_LIMIT := 40
  const CATALOG_LIMIT := 20

  /** A row of profile_collection; a release that sits in several folders has several. */
  datatype Row = Row(releaseId: int, folderId: int, catalog: Option<string>)

  datatype Hit = Hit(row: Row, score: real)

  type Scoring = Row -> Option<real>

  /** SELECT ..., score FROM rows WHERE there is a score */
  function Hits(rows: seq<Row>, scoring: Scoring): (r: seq<Hit>) {
    if rows == [] then []
    else (if scoring(rows[0]).Some? then [Hit(rows[0], scoring(rows[0]).value)] else []) + Hits(rows[1..], scoring)
  }

  /** The catalog path: 1.0 for an exact match, 0.9 for a longer catalog number. */
  ghost function CatalogScore(q: string): Scoring {
    (row: Row) =>
      if row.catalog.None? then None
      else
        P.PatternsAreLiteral(q, P.ColumnKey(row.catalog.value));
        if !P.Like(P.ColumnKey(row.catalog.value), P.CatalogLikePattern(q)) then None
        else if P.ColumnKey(row.catalog.value) == P.QueryKey(q) then Some(1.0) else Some(0.9)
  }

  /** The full-text path is the database's own; all that is used is the range of its scores. */
  ghost predicate TextScores(text: Scoring) {
    forall row :: text(row).Some? ==> 0.0 <= text(row).value < 0.8
  }

  ghost predicate Descending(hits: seq<Hit>) {
    forall i, j :: 0 <= i < j < |hits| ==> hits[i].score >= hits[j].score
  }

  /** ORDER BY score DESC LIMIT n, with ties broken anyhow. */
  ghost predicate IsTop(picked: seq<Hit>, hits: seq<Hit>, n: nat) {
    && multiset(picked) <= multiset(hits)
    && |picked| == (if |hits| <= n then |hits| else n)
    && Descending(picked)
    && forall x, y :: x in multiset(hits) - multiset(picked) && y in picked ==> x.score <= y.score
  }

  ghost predicate OnePerRelease(hits: seq<Hit>) {
    forall i, j :: 0 <= i < j < |hits| ==> hits[i].row.releaseId != hits[j].row.releaseId
  }

  ghost predicate BestOf(h: Hit, hits: seq<Hit>) {
    h in hits && forall x :: x in hits && x.row.releaseId == h.row.releaseId ==> x.score <= h.score
  }

  ghost predicate Lists(hits: seq<Hit>, releaseId: int) {
    exists h :: h in hits && h.row.releaseId == releaseId
  }

  /** DISTINCT ON (release_id) ... ORDER BY release_id, score DESC */
  ghost predicate IsDistinctOn(picked: seq<Hit>, hits: seq<Hit>) {
    && OnePerRelease(picked)
    && (forall h :: h in picked ==> BestOf(h, hits))
    && forall h :: h in hits ==> Lists(picked, h.row.releaseId)
  }

  /** The intermediate results of one search. */
  datatype Stages = Stages(fts: seq<Hit>, cat: seq<Hit>, deduped: seq<Hit>, ranked: seq<Hit>)

  function RankFirst(): (Hit, Hit) -> bool { (a: Hit, b: Hit) => a.score >= b.score }

  ghost predicate Searched(rows: seq<Row>, q: string, text: Scoring, limit: nat, st: Stages, found: seq<Hit>) {
    if P.QueryKey(q) == "" then found == []
    else
      && IsTop(st.fts, Hits(rows, text), TEXT_LIMIT)
      && IsTop(st.cat, Hits(rows, CatalogScore(q)), CATALOG_LIMIT)
      && IsDistinctOn(st.deduped, st.fts + st.cat)
      && IsTop(st.ranked, st.deduped, limit)
      && found == Sort(st.ranked, RankFirst())
  }

  // ── Lists of hits ──────────────────────────────────────────────────────────

  lemma {:induction false} HitsMean(rows: seq<Row>, scoring: Scoring, h: Hit)
    ensures h in Hits(rows, scoring) <==> h.row in rows && scoring(h.row) == Some(h.score)
  {
    if rows != [] {
      HitsMean(rows[1..], scoring, h);
      assert h.row in rows <==> h.row == rows[0] || h.row in rows[1..];
    }
  }

  function AtLeast(t: real): Hit -> bool { (h: Hit) => h.score >= t }

  lemma {:induction false} FilterCounts(hits: seq<Hit>, p: Hit -> bool, x: Hit)
    ensures multiset(Filter(hits, p))[x] == if p(x) then multiset(hits)[x] else 0
  {
    if hits != [] {
      FilterCounts(hits[1..], p, x);
      assert hits == [hits[0]] + hits[1..];
      assert multiset(hits) == multiset{hits[0]} + multiset(hits[1..]);
      if p(hits[0]) {
        assert multiset(Filter(hits, p)) == multiset{hits[0]} + multiset(Filter(hits[1..], p));
      }
    }
  }

  lemma SubmultisetSize(a: multiset<Hit>, b: multiset<Hit>)
    requires a <= b
    ensures |a| <= |b| && (|a| == |b| ==> a == b)
  {
    assert b == a + (b - a);
  }

  /** A limit that is not smaller than the number of hits at some score drops none of them. */
  lemma TopKeepsHigh(picked: seq<Hit>, hits: seq<Hit>, n: nat, t: real, x: Hit)
    requires IsTop(picked, hits, n) && |Filter(hits, AtLeast(t))| <= n && x in hits && x.score >= t
    ensures x in picked
  {
    if x !in picked {
      SubmultisetSize(multiset(picked), multiset(hits));
      assert x in multiset(hits) - multiset(picked);
      var high := multiset(Filter(hits, AtLeast(t)));
      forall y ensures (multiset(picked) + multiset{x})[y] <= high[y] {
        FilterCounts(hits, AtLeast(t), y);
      }
      SubmultisetSize(multiset(picked) + multiset{x}, high);
    }
  }

  lemma TopMembers(picked: seq<Hit>, hits: seq<Hit>, n: nat)
    requires IsTop(picked, hits, n)
    ensures forall h :: h in picked ==> h in hits
  {
    forall h | h in picked ensures h in hits {
      assert h in multiset(picked);
    }
  }

  lemma TopIsDistinct(picked: seq<Hit>, hits: seq<Hit>, n: nat)
    requires IsTop(picked, hits, n) && OnePerRelease(hits)
    ensures OnePerRelease(picked)
  {
    forall i, j | 0 <= i < j < |picked| ensures picked[i].row.releaseId != picked[j].row.releaseId {
      TopMembers(picked, hits, n);
      if picked[i] == picked[j] {
        TwiceCounts(picked, i, j);
        OnceCounts(hits, picked[i]);
      }
    }
  }

  lemma TwiceCounts(hits: seq<Hit>, i: nat, j: nat)
    requires i < j < |hits| && hits[i] == hits[j]
    ensures multiset(hits)[hits[i]] >= 2
  {
    assert hits == hits[..j] + hits[j..];
    assert hits[i] in hits[..j] && hits[j] in hits[j..];
  }

  lemma {:induction false} OnceCounts(hits: seq<Hit>, x: Hit)
    requires OnePerRelease(hits)
    ensures multiset(hits)[x] <= 1
  {
    if hits != [] {
      OnceCounts(hits[1..], x);
      assert hits == [hits[0]] + hits[1..];
      forall k | 0 <= k < |hits[1..]| ensures hits[1..][k] != hits[0] {
        assert hits[1..][k] == hits[k + 1];
      }
    }
  }

  function IdsOf(hits: seq<Hit>): (r: set<int>) { set h | h in hits :: h.row.releaseId }

  lemma {:induction false} IdsCount(hits: seq<Hit>)
    requires OnePerRelease(hits)
    ensures |IdsOf(hits)| == |hits|
  {
    if hits != [] {
      IdsCount(hits[1..]);
      assert IdsOf(hits) == IdsOf(hits[1..]) + {hits[0].row.releaseId};
    }
  }

  /** In a list by descending score the hits at or above a score come first. */
  lemma {:induction false} HighFirst(hits: seq<Hit>, t: real)
    requires Descending(hits)
    ensures var k := |Filter(hits, AtLeast(t))|; k <= |hits| && Filter(hits, AtLeast(t)) == hits[..k]
  {
    if hits != [] {
      HighFirst(hits[1..], t);
      if hits[0].score < t {
        FilterNone(hits, AtLeast(t));
      }
    }
  }

  // ── What a search returns ──────────────────────────────────────────────────

  /** The closing re-sort of the rows changes nothing. */
  lemma ResortIsNoOp(rows: seq<Row>, q: string, text: Scoring, limit: nat, st: Stages, found: seq<Hit>)
    requires Searched(rows, q, text, limit, st, found) && P.QueryKey(q) != ""
    ensures found == st.ranked
  {
    SortFixesOrdered(st.ranked, RankFirst());
  }

  /** No release twice, by non-increasing rank, no more than asked for, and every rank is the best
      score the release has over the candidates of both paths. */
  lemma ResultsAreRanked(rows: seq<Row>, q: string, text: Scoring, limit: nat, st: Stages, found: seq<Hit>)
    requires Searched(rows, q, text, limit, st, found)
    ensures OnePerRelease(found) && Descending(found) && |found| <= limit
    ensures forall h :: h in found ==> BestOf(h, st.fts + st.cat)
    ensures P.QueryKey(q) != "" ==>
              var (byText, byCatalog) := (|Hits(rows, text)|, |Hits(rows, CatalogScore(q))|);
              |st.fts| == (if byText <= 40 then byText else 40) && |st.cat| == (if byCatalog <= 20 then byCatalog else 20)
  {
    if P.QueryKey(q) != "" {
      ResortIsNoOp(rows, q, text, limit, st, found);
      TopIsDistinct(found, st.deduped, limit);
      TopMembers(found, st.deduped, limit);
    }
  }

  /** What kind of match a catalog number is. */
  ghost predicate Exact(q: string, row: Row) {
    row.catalog.Some? && P.ColumnKey(row.catalog.value) == P.QueryKey(q)
  }

  ghost predicate Prefix(q: string, row: Row) {
    row.catalog.Some? && P.QueryKey(q) <= P.ColumnKey(row.catalog.value)
  }

  lemma CatalogScoreMeans(q: string, row: Row)
    ensures CatalogScore(q)(row) == if Exact(q, row) then Some(1.0) else if Prefix(q, row) then Some(0.9) else None
  {
    if row.catalog.Some? {
      P.PatternsAreLiteral(q, P.ColumnKey(row.catalog.value));
    }
  }

  /** A score says which path a candidate came from and what it matched. */
  lemma ScoresTell(rows: seq<Row>, q: string, text: Scoring, limit: nat, st: Stages, found: seq<Hit>, h: Hit)
    requires Searched(rows, q, text, limit, st, found) && P.QueryKey(q) != "" && TextScores(text)
    requires h in st.fts + st.cat
    ensures h in st.cat <==> h.score >= 0.9
    ensures h in st.cat ==> h.row in rows && Prefix(q, h.row) && h.score == (if Exact(q, h.row) then 1.0 else 0.9)
    ensures h !in st.cat ==> h in st.fts && h.score < 0.8
  {
    if h in st.cat {
      TopMembers(st.cat, Hits(rows, CatalogScore(q)), CATALOG_LIMIT);
      HitsMean(rows, CatalogScore(q), h);
      CatalogScoreMeans(q, h.row);
    } else {
      assert h in st.fts;
      TopMembers(st.fts, Hits(rows, text), TEXT_LIMIT);
      HitsMean(rows, text, h);
      assert text(h.row).Some?;
    }
  }

  ghost predicate ExactIn(q: string, hits: seq<Hit>, releaseId: int) {
    exists h :: h in hits && h.row.releaseId == releaseId && Exact(q, h.row)
  }

  /** The tier of a result is that of the best candidate of its release: exact catalog match (1.0),
      longer catalog number (0.9) or text alone (below 0.8). */
  lemma RanksAreTiers(rows: seq<Row>, q: string, text: Scoring, limit: nat, st: Stages, found: seq<Hit>, h: Hit)
    requires Searched(rows, q, text, limit, st, found) && TextScores(text) && h in found
    ensures h.score == 1.0 <==> ExactIn(q, st.cat, h.row.releaseId)
    ensures h.score >= 0.9 <==> Lists(st.cat, h.row.releaseId)
    ensures h.score < 0.8 || h.score == 0.9 || h.score == 1.0
  {
    ResultsAreRanked(rows, q, text, limit, st, found);
    ScoresTell(rows, q, text, limit, st, found, h);
    forall x | x in st.cat ensures x.score >= 0.9 && x.score == (if Exact(q, x.row) then 1.0 else 0.9) {
      assert x in st.fts + st.cat;
      ScoresTell(rows, q, text, limit, st, found, x);
    }
  }

  /** Exact catalog matches precede longer ones, which precede text-only matches. */
  lemma TiersAreOrdered(rows: seq<Row>, q: string, text: Scoring, limit: nat, st: Stages, found: seq<Hit>, i: nat, j: nat)
    requires Searched(rows, q, text, limit, st, found) && TextScores(text) && i < j < |found|
    ensures ExactIn(q, st.cat, found[j].row.releaseId) ==> ExactIn(q, st.cat, found[i].row.releaseId)
    ensures Lists(st.cat, found[j].row.releaseId) ==> Lists(st.cat, found[i].row.releaseId)
  {
    ResultsAreRanked(rows, q, text, limit, st, found);
    RanksAreTiers(rows, q, text, limit, st, found, found[i]);
    RanksAreTiers(rows, q, text, limit, st, found, found[j]);
  }

  lemma TopOrLess(picked: seq<Hit>, hits: seq<Hit>, n: nat, x: Hit, y: Hit)
    requires IsTop(picked, hits, n) && x in hits && y in picked
    ensures x in picked || x.score <= y.score
  {
    if x !in picked {
      assert x in multiset(hits) - multiset(picked);
    }
  }

  /** Over all matches of both paths, before their limits, a result still carries the best score of
      its release exactly when the catalog limit did not drop every catalog match of the release. */
  lemma BestOverAllMatches(rows: seq<Row>, q: string, text: Scoring, limit: nat, st: Stages, found: seq<Hit>, h: Hit)
    requires Searched(rows, q, text, limit, st, found) && TextScores(text) && h in found
    ensures BestOf(h, Hits(rows, text) + Hits(rows, CatalogScore(q)))
            <==> (Lists(Hits(rows, CatalogScore(q)), h.row.releaseId) ==> Lists(st.cat, h.row.releaseId))
  {
    var byText, byCatalog := Hits(rows, text), Hits(rows, CatalogScore(q));
    ResultsAreRanked(rows, q, text, limit, st, found);
    RanksAreTiers(rows, q, text, limit, st, found, h);
    ScoresTell(rows, q, text, limit, st, found, h);
    TopMembers(st.fts, byText, TEXT_LIMIT);
    TopMembers(st.cat, byCatalog, CATALOG_LIMIT);
    forall x | x in byCatalog ensures x.score >= 0.9 {
      HitsMean(rows, CatalogScore(q), x);
      CatalogScoreMeans(q, x.row);
    }
    if Lists(byCatalog, h.row.releaseId) ==> Lists(st.cat, h.row.releaseId) {
      forall x | x in byText && x.row.releaseId == h.row.releaseId ensures x.score <= h.score {
        HitsMean(rows, text, x);
        assert text(x.row).Some?;
        if h in st.fts { TopOrLess(st.fts, byText, TEXT_LIMIT, x, h); }
      }
      forall x | x in byCatalog && x.row.releaseId == h.row.releaseId ensures x.score <= h.score {
        var y :| y in st.cat && y.row.releaseId == h.row.releaseId;
        TopOrLess(st.cat, byCatalog, CATALOG_LIMIT, x, y);
      }
    } else {
      var x :| x in byCatalog && x.row.releaseId == h.row.releaseId;
      assert x in byText + byCatalog;
    }
  }

  ghost function IsExact(q: string): Row -> bool { (row: Row) => Exact(q, row) }

  lemma {:induction false} ExactHits(rows: seq<Row>, q: string)
    ensures |Filter(Hits(rows, CatalogScore(q)), AtLeast(1.0))| == |Filter(rows, IsExact(q))|
  {
    if rows != [] {
      ExactHits(rows[1..], q);
      CatalogScoreMeans(q, rows[0]);
      var first := if CatalogScore(q)(rows[0]).Some? then [Hit(rows[0], CatalogScore(q)(rows[0]).value)] else [];
      FilterConcat(first, Hits(rows[1..], CatalogScore(q)), AtLeast(1.0));
    }
  }

  ghost function ReleasesOf(rows: seq<Row>): (r: set<int>) { set row | row in rows :: row.releaseId }

  lemma {:induction false} FewerReleases(rows: seq<Row>)
    ensures |ReleasesOf(rows)| <= |rows|
  {
    if rows != [] {
      FewerReleases(rows[1..]);
      assert ReleasesOf(rows) == ReleasesOf(rows[1..]) + {rows[0].releaseId};
    }
  }

  /** When the catalog limit is not exceeded, the deduplicated hits at 1.0 are the exact releases. */
  lemma ExactSurvive(rows: seq<Row>, q: string, text: Scoring, limit: nat, st: Stages, found: seq<Hit>)
    requires Searched(rows, q, text, limit, st, found) && P.QueryKey(q) != "" && TextScores(text)
    requires |Filter(rows, IsExact(q))| <= CATALOG_LIMIT
    ensures IdsOf(Filter(st.deduped, AtLeast(1.0))) == ReleasesOf(Filter(rows, IsExact(q)))
  {
    var high, exact := Filter(st.deduped, AtLeast(1.0)), Filter(rows, IsExact(q));
    ExactHits(rows, q);
    forall id | id in ReleasesOf(exact) ensures id in IdsOf(high) {
      var row :| row in exact && row.releaseId == id;
      FilterMember(rows, IsExact(q), row);
      CatalogScoreMeans(q, row);
      HitsMean(rows, CatalogScore(q), Hit(row, 1.0));
      TopKeepsHigh(st.cat, Hits(rows, CatalogScore(q)), CATALOG_LIMIT, 1.0, Hit(row, 1.0));
      assert Hit(row, 1.0) in st.fts + st.cat;
      var h :| h in st.deduped && h.row.releaseId == id;
      FilterMember(st.deduped, AtLeast(1.0), h);
    }
    forall id | id in IdsOf(high) ensures id in ReleasesOf(exact) {
      var h :| h in high && h.row.releaseId == id;
      FilterMember(st.deduped, AtLeast(1.0), h);
      ScoresTell(rows, q, text, limit, st, found, h);
      FilterMember(rows, IsExact(q), h.row);
    }
  }

  lemma {:induction false} FilterDistinct(hits: seq<Hit>, p: Hit -> bool)
    requires OnePerRelease(hits)
    ensures OnePerRelease(Filter(hits, p))
  {
    if hits != [] {
      FilterDistinct(hits[1..], p);
      FilterMembers(hits[1..], p);
      var kept := Filter(hits[1..], p);
      forall j | 0 <= j < |kept| ensures kept[j].row.releaseId != hits[0].row.releaseId {
        assert kept[j] in hits[1..];
      }
    }
  }

  lemma TopHasHigh(picked: seq<Hit>, hits: seq<Hit>, n: nat, t: real)
    requires IsTop(picked, hits, n) && |Filter(hits, AtLeast(t))| <= n
    ensures IdsOf(Filter(picked, AtLeast(t))) == IdsOf(Filter(hits, AtLeast(t)))
  {
    FilterMembers(picked, AtLeast(t));
    FilterMembers(hits, AtLeast(t));
    TopMembers(picked, hits, n);
    forall h | h in Filter(hits, AtLeast(t)) ensures h in picked {
      TopKeepsHigh(picked, hits, n, t, h);
    }
  }

  /** One hit per release: the releases at or above a score that fit the limit head the list. */
  lemma HighReleasesHead(picked: seq<Hit>, hits: seq<Hit>, n: nat, t: real)
    requires IsTop(picked, hits, n) && OnePerRelease(hits) && |Filter(hits, AtLeast(t))| <= n
    ensures var ids := IdsOf(Filter(hits, AtLeast(t))); |ids| <= |picked| && IdsOf(picked[..|ids|]) == ids
  {
    TopHasHigh(picked, hits, n, t);
    TopIsDistinct(picked, hits, n);
    FilterDistinct(picked, AtLeast(t));
    IdsCount(Filter(picked, AtLeast(t)));
    HighFirst(picked, t);
  }

  /** If at most min(limit, 20) rows match the query exactly, all their releases come first. */
  lemma ExactMatchesFirst(rows: seq<Row>, q: string, text: Scoring, limit: nat, st: Stages, found: seq<Hit>)
    requires Searched(rows, q, text, limit, st, found) && P.QueryKey(q) != "" && TextScores(text)
    requires |Filter(rows, IsExact(q))| <= CATALOG_LIMIT && |Filter(rows, IsExact(q))| <= limit
    ensures var exact := ReleasesOf(Filter(rows, IsExact(q)));
            |exact| <= |found| && IdsOf(found[..|exact|]) == exact
  {
    ResortIsNoOp(rows, q, text, limit, st, found);
    ExactSurvive(rows, q, text, limit, st, found);
    FewerReleases(Filter(rows, IsExact(q)));
    FilterDistinct(st.deduped, AtLeast(1.0));
    IdsCount(Filter(st.deduped, AtLeast(1.0)));
    HighReleasesHead(found, st.deduped, limit, 1.0);
  }

  // ── Every search has an answer ─────────────────────────────────────────────

  lemma RankFirstIsPreorder()
    ensures Preorder(RankFirst())
  {
  }

  function TopOf(hits: seq<Hit>, n: nat): (r: seq<Hit>) {
    var s := Sort(hits, RankFirst());
    if |s| <= n then s else s[..n]
  }

  lemma PrefixIsTop(picked: seq<Hit>, rest: seq<Hit>)
    requires Descending(picked + rest)
    ensures forall x, y :: x in multiset(rest) && y in picked ==> x.score <= y.score
    ensures Descending(picked)
  {
    var s := picked + rest;
    forall x, y | x in multiset(rest) && y in picked ensures x.score <= y.score {
      assert x in rest;
      var i :| 0 <= i < |rest| && rest[i] == x;
      var j :| 0 <= j < |picked| && picked[j] == y;
      assert s[j].score >= s[|picked| + i].score;
    }
    assert forall i :: 0 <= i < |picked| ==> s[i] == picked[i];
  }

  lemma TopOfIsTop(hits: seq<Hit>, n: nat)
    ensures IsTop(TopOf(hits, n), hits, n)
  {
    var s, picked := Sort(hits, RankFirst()), TopOf(hits, n);
    var rest := s[|picked|..];
    RankFirstIsPreorder();
    SortOrders(hits, RankFirst());
    SortPermutes(hits, RankFirst());
    assert s == picked + rest;
    assert multiset(hits) - multiset(picked) == multiset(rest);
    PrefixIsTop(picked, rest);
  }

  /** The first hit of each release. */
  ghost function FirstPerRelease(hits: seq<Hit>): (r: seq<Hit>) {
    if hits == [] then []
    else
      var n := |hits| - 1;
      var before := FirstPerRelease(hits[..n]);
      if Lists(before, hits[n].row.releaseId) then before else before + [hits[n]]
  }

  /** Adding a hit that scores no higher than the others. */
  lemma DistinctOnSnoc(before: seq<Hit>, hits: seq<Hit>, last: Hit)
    requires IsDistinctOn(before, hits) && forall x :: x in hits ==> x.score >= last.score
    requires Lists(before, last.row.releaseId)
    ensures IsDistinctOn(before, hits + [last])
  {
    forall h | h in before ensures BestOf(h, hits + [last]) {
      assert BestOf(h, hits);
    }
  }

  lemma DistinctOnNew(before: seq<Hit>, hits: seq<Hit>, last: Hit)
    requires IsDistinctOn(before, hits) && forall x :: x in hits ==> x.score >= last.score
    requires !Lists(before, last.row.releaseId)
    ensures IsDistinctOn(before + [last], hits + [last])
  {
    var r, all := before + [last], hits + [last];
    forall x | x in hits ensures x.row.releaseId != last.row.releaseId {
      assert Lists(before, x.row.releaseId);
    }
    forall h | h in r ensures BestOf(h, all) {
      assert h in before ==> BestOf(h, hits);
    }
    forall h | h in all ensures Lists(r, h.row.releaseId) {
      assert r[|before|] == last && last in r;
      if h in hits {
        var b :| b in before && b.row.releaseId == h.row.releaseId;
        assert b in r;
      }
    }
  }

  lemma {:induction false} FirstPerReleaseIsDistinctOn(hits: seq<Hit>)
    requires Descending(hits)
    ensures IsDistinctOn(FirstPerRelease(hits), hits)
  {
    if hits != [] {
      var n := |hits| - 1;
      var before, last := FirstPerRelease(hits[..n]), hits[n];
      FirstPerReleaseIsDistinctOn(hits[..n]);
      assert hits == hits[..n] + [last];
      if Lists(before, last.row.releaseId) {
        DistinctOnSnoc(before, hits[..n], last);
      } else {
        DistinctOnNew(before, hits[..n], last);
      }
    }
  }

  lemma SameHitsSameBest(picked: seq<Hit>, hits: seq<Hit>, others: seq<Hit>)
    requires IsDistinctOn(picked, hits) && forall h :: h in hits <==> h in others
    ensures IsDistinctOn(picked, others)
  {
    forall h | h in picked ensures BestOf(h, others) {
      assert BestOf(h, hits);
    }
  }

  /** Whatever the table, the query and the limit, some rows may be returned. */
  lemma EverySearchAnswers(rows: seq<Row>, q: string, text: Scoring, limit: nat) returns (st: Stages, found: seq<Hit>)
    ensures Searched(rows, q, text, limit, st, found)
  {
    var fts, cat := TopOf(Hits(rows, text), TEXT_LIMIT), TopOf(Hits(rows, CatalogScore(q)), CATALOG_LIMIT);
    TopOfIsTop(Hits(rows, text), TEXT_LIMIT);
    TopOfIsTop(Hits(rows, CatalogScore(q)), CATALOG_LIMIT);
    var merged := Sort(fts + cat, RankFirst());
    RankFirstIsPreorder();
    SortOrders(fts + cat, RankFirst());
    SortPermutes(fts + cat, RankFirst());
    var deduped := FirstPerRelease(merged);
    FirstPerReleaseIsDistinctOn(merged);
    SameHitsSameBest(deduped, merged, fts + cat);
    TopOfIsTop(deduped, limit);
    st := Stages(fts, cat, deduped, TopOf(deduped, limit));
    found := if P.QueryKey(q) == "" then [] else Sort(st.ranked, RankFirst());
  }
}
