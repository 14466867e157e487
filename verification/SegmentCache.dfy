/** `SegmentCache` (src/gruvax/estimator/segment_cache.py:85-674): derive as it is written, with
    its scans, dictionaries and running offset, proved to produce the reference bins. */
module SegmentCaching {
  import opened Sequences
  import opened Orders
  import opened Normalize
  import opened Records
  import opened Assignment
  import opened Widths
  import opened ShelfModel
  import opened LabelRuns
  import opened Partition
  import opened Locating
  import opened Tiling
  import opened SegmentFractions

  // ── The cut-key scan ───────────────────────────────────────────────────────

  datatype CutBin = CutBin(index: int, key: CutKey)

  function ByKey(): (CutBin, CutBin) -> bool { (a: CutBin, b: CutBin) => CutLe(a.key, b.key) }

  /** Cut-key order with the physical index deciding ties. */
  ghost predicate KeyThenIndex(a: CutBin, b: CutBin) {
    CutLe(a.key, b.key) && (a.key == b.key ==> a.index < b.index)
  }

  ghost predicate Indexed(bins: seq<CutBin>) {
    forall i, j :: 0 <= i < j < |bins| ==> KeyThenIndex(bins[i], bins[j])
  }

  ghost predicate Scannable(bins: seq<CutBin>, cuts: seq<Option<CutKey>>) {
    && Indexed(bins)
    && (forall b :: b in bins <==> 0 <= b.index < |cuts| && cuts[b.index] == Some(b.key))
  }

  lemma {:induction false} InsertKeepsKeyThenIndex(x: CutBin, bins: seq<CutBin>)
    requires Indexed(bins) && forall i :: 0 <= i < |bins| ==> x.index < bins[i].index
    ensures Indexed(Insert(x, bins, ByKey()))
  {
    CutOrderAll();
    if bins != [] && !ByKey()(x, bins[0]) {
      InsertKeepsKeyThenIndex(x, bins[1..]);
      InsertPermutes(x, bins[1..], ByKey());
      var rest := Insert(x, bins[1..], ByKey());
      forall j | 0 <= j < |rest| ensures KeyThenIndex(bins[0], rest[j]) {
        assert rest[j] in multiset(rest);
        assert rest[j] == x || rest[j] in bins[1..];
      }
    }
  }

  /** Stable sorting by key leaves equal cuts in physical order. */
  lemma {:induction false} SortKeepsPhysicalOrder(bins: seq<CutBin>)
    requires forall i, j :: 0 <= i < j < |bins| ==> bins[i].index < bins[j].index
    ensures Indexed(Sort(bins, ByKey()))
  {
    if bins != [] {
      SortKeepsPhysicalOrder(bins[1..]);
      SortPermutes(bins[1..], ByKey());
      var r := Sort(bins[1..], ByKey());
      forall i | 0 <= i < |r| ensures bins[0].index < r[i].index {
        assert r[i] in r;
        assert r[i] in bins[1..];
      }
      InsertKeepsKeyThenIndex(bins[0], r);
    }
  }

  /** cut_bins and cut_bins_by_key */
  method CutBinsByKey(c: Collator, rows: seq<BoundaryRow>) returns (byKey: seq<CutBin>)
    ensures Scannable(byKey, Cuts(c, rows))
  {
    ghost var cuts := Cuts(c, rows);
    var cutBins: seq<CutBin> := [];
    for i := 0 to |rows|
      invariant forall m, n :: 0 <= m < n < |cutBins| ==> cutBins[m].index < cutBins[n].index
      invariant forall b :: b in cutBins <==> 0 <= b.index < i && cuts[b.index] == Some(b.key)
    {
      var key := CutOf(c, rows[i]);
      if key.Some? {
        assert forall m :: 0 <= m < |cutBins| ==> cutBins[m] in cutBins;
        cutBins := cutBins + [CutBin(i, key.value)];
      }
    }
    byKey := Sort(cutBins, ByKey());
    SortPermutes(cutBins, ByKey());
    SortKeepsPhysicalOrder(cutBins);
  }

  /** The last cut-bearing bin in cut-key order whose cut is at or below the record's key. */
  method ScanForBin(byKey: seq<CutBin>, recKey: CutKey, ghost cuts: seq<Option<CutKey>>) returns (assignedBin: int)
    requires Scannable(byKey, cuts)
    ensures assignedBin == Owner(cuts, recKey)
  {
    CutOrderAll();
    assignedBin := -1;
    ghost var at := 0;
    for i := 0 to |byKey|
      invariant at == i
      invariant forall j :: 0 <= j < i ==> CutLe(byKey[j].key, recKey)
      invariant i == 0 ==> assignedBin == -1
      invariant i > 0 ==> assignedBin == byKey[i - 1].index
    {
      if CutLe(byKey[i].key, recKey) {
        assignedBin := byKey[i].index;
        at := i + 1;
      } else {
        break;
      }
    }
    ScanFindsOwner(byKey, recKey, cuts, at);
  }

  lemma ScanFindsOwner(byKey: seq<CutBin>, recKey: CutKey, cuts: seq<Option<CutKey>>, at: nat)
    requires Scannable(byKey, cuts) && at <= |byKey|
    requires forall j :: 0 <= j < at ==> CutLe(byKey[j].key, recKey)
    requires at < |byKey| ==> !CutLe(byKey[at].key, recKey)
    ensures Owner(cuts, recKey) == if at == 0 then -1 else byKey[at - 1].index
  {
    CutOrderAll();
    forall n | 0 <= n < |cuts| && Reaches(cuts[n], recKey)
      ensures exists j :: 0 <= j < at && byKey[j] == CutBin(n, cuts[n].value)
    {
      var x := CutBin(n, cuts[n].value);
      assert x in byKey;
      var j :| 0 <= j < |byKey| && byKey[j] == x;
      assert at < |byKey| ==> j != at;
    }
    if at > 0 {
      var b := byKey[at - 1];
      assert b in byKey;
      forall n | 0 <= n < |cuts| && Reaches(cuts[n], recKey)
        ensures CutLe(cuts[n].value, cuts[b.index].value) && (cuts[n] == cuts[b.index] ==> n <= b.index)
      {
        var j :| 0 <= j < at && byKey[j] == CutBin(n, cuts[n].value);
        if j < at - 1 { assert KeyThenIndex(byKey[j], b); }
      }
      OwnerIsUnique(cuts, recKey, b.index);
    }
  }

  // ── Grouping one bin's records ─────────────────────────────────────────────

  /** What the dictionaries hold for one label of a bin. */
  ghost predicate GroupAt(c: Collator, records: seq<RecordRow>, groups: map<string, seq<RecordRow>>, display: map<string, string>, k: string) {
    && k in groups && groups[k] == Filter(records, LabelIs(c, k)) && groups[k] != []
    && k in display && display[k] == groups[k][0].labelName
  }

  ghost predicate GroupsBin(c: Collator, records: seq<RecordRow>, labels: seq<string>,
                            groups: map<string, seq<RecordRow>>, display: map<string, string>) {
    && labels == Seen(c, records)
    && (forall k :: k in groups <==> k in labels)
    && (forall k :: k in groups ==> GroupAt(c, records, groups, display, k))
  }

  lemma FilterSnoc(c: Collator, records: seq<RecordRow>, record: RecordRow, k: string)
    ensures Filter(records + [record], LabelIs(c, k))
            == Filter(records, LabelIs(c, k)) + if k == c.casefold(record.labelName) then [record] else []
  {
    FilterConcat(records, [record], LabelIs(c, k));
    assert Filter([record], LabelIs(c, k)) == if k == c.casefold(record.labelName) then [record] else [];
  }

  lemma UnseenIsEmpty(c: Collator, records: seq<RecordRow>, k: string)
    requires k !in Seen(c, records)
    ensures Filter(records, LabelIs(c, k)) == []
  {
    SeenMeans(c, records);
    FilterNone(records, LabelIs(c, k));
  }

  lemma GroupsBinStep(c: Collator, records: seq<RecordRow>, record: RecordRow, labels: seq<string>,
                      groups: map<string, seq<RecordRow>>, display: map<string, string>)
    requires GroupsBin(c, records, labels, groups, display)
    ensures var lk, more := c.casefold(record.labelName), records + [record];
            if lk in groups then GroupsBin(c, more, labels, groups[lk := groups[lk] + [record]], display)
            else GroupsBin(c, more, labels + [lk], groups[lk := [record]], display[lk := record.labelName])
  {
    var lk, more := c.casefold(record.labelName), records + [record];
    var groups2 := groups[lk := (if lk in groups then groups[lk] else []) + [record]];
    var display2 := if lk in groups then display else display[lk := record.labelName];
    assert more[..|more| - 1] == records;
    if lk !in groups { UnseenIsEmpty(c, records, lk); }
    forall k | k in groups2 ensures GroupAt(c, more, groups2, display2, k) {
      FilterSnoc(c, records, record, k);
      if k in groups { assert GroupAt(c, records, groups, display, k); }
    }
    assert [] + [record] == [record];
  }

  /** label_groups and label_display */
  method GroupByLabel(c: Collator, records: seq<RecordRow>)
    returns (labels: seq<string>, groups: map<string, seq<RecordRow>>, display: map<string, string>)
    ensures GroupsBin(c, records, labels, groups, display)
  {
    labels, groups, display := [], map[], map[];
    for i := 0 to |records|
      invariant GroupsBin(c, records[..i], labels, groups, display)
    {
      var record := records[i];
      var lk := c.casefold(record.labelName);
      GroupsBinStep(c, records[..i], record, labels, groups, display);
      assert records[..i + 1] == records[..i] + [record];
      if lk !in groups {
        labels := labels + [lk];
        groups := groups[lk := []];
        display := display[lk := record.labelName];
      }
      groups := groups[lk := groups[lk] + [record]];
    }
    assert records[..|records|] == records;
  }

  // ── One bin ────────────────────────────────────────────────────────────────

  /** What derive knows when it builds bin `b`. */
  ghost predicate BinInputs(s: Shelf, b: int, row: BoundaryRow, records: seq<RecordRow>,
                            labelSorted: map<string, seq<RecordRow>>) {
    && s.Valid() && 0 <= b < |s.Rows()|
    && row == s.Rows()[b]
    && records == s.BinRecords(b)
    && (forall k :: k in labelSorted <==> k in s.byLabel)
    && (forall k :: k in labelSorted ==> labelSorted[k] == s.LabelRun(k))
  }

  datatype Ranks = Ranks(first: int, last: int, continues: bool)

  function RanksFrom(first: nat, count: nat, length: nat): (r: Ranks) {
    Ranks(first, first + count - 1, first + count - 1 < length - 1)
  }

  /** A run's first key differs from the key before it, since equal keys share a bin. */
  lemma RunStartsAtItsKey(s: Shelf, key: string, b: int, i: nat)
    requires s.Valid() && b >= 0 && s.Run(key, b) != [] && i < s.FirstRank(key, b)
    ensures s.FirstRank(key, b) + |s.Run(key, b)| <= |s.LabelRun(key)|
    ensures CatalogOf(s.LabelRun(key)[i]) != CatalogOf(s.LabelRun(key)[s.FirstRank(key, b)])
  {
    var list, lo := s.LabelRun(key), s.FirstRank(key, b);
    RunIsContiguous(s, key, b);
    RunMembers(s, key, list[i]);
    RunMembers(s, key, list[lo]);
    assert s.OwnerOf(list[i]) != s.OwnerOf(list[lo]);
  }

  function SortedFor(labelSorted: map<string, seq<RecordRow>>, key: string): (r: seq<RecordRow>) {
    if key in labelSorted then labelSorted[key] else []
  }

  /** Counts, ranks and `continues`, label by label. */
  method RankTables(labels: seq<string>, groups: map<string, seq<RecordRow>>,
                    labelSorted: map<string, seq<RecordRow>>, ghost firsts: seq<nat>)
    returns (counts: map<string, nat>, ranks: map<string, Ranks>)
    requires |firsts| == |labels| && Distinct(labels)
    requires forall j :: 0 <= j < |labels| ==>
               && labels[j] in groups && SortedFor(labelSorted, labels[j]) != []
               && RunFits(SortedFor(labelSorted, labels[j]), groups[labels[j]], firsts[j])
    ensures forall j :: 0 <= j < |labels| ==>
              && labels[j] in counts && counts[labels[j]] == |groups[labels[j]]|
              && labels[j] in ranks
              && ranks[labels[j]] == RanksFrom(firsts[j], |groups[labels[j]]|, |SortedFor(labelSorted, labels[j])|)
  {
    counts, ranks := map[], map[];
    for j := 0 to |labels|
      invariant forall i :: 0 <= i < j ==>
                  && labels[i] in counts && counts[labels[i]] == |groups[labels[i]]|
                  && labels[i] in ranks
                  && ranks[labels[i]] == RanksFrom(firsts[i], |groups[labels[i]]|, |SortedFor(labelSorted, labels[i])|)
    {
      var lk := labels[j];
      var first, last, continues := RankRun(SortedFor(labelSorted, lk), groups[lk], firsts[j]);
      counts := counts[lk := |groups[lk]|];
      ranks := ranks[lk := Ranks(first, last, continues)];
    }
  }

  lemma SortedForIsRun(s: Shelf, labelSorted: map<string, seq<RecordRow>>, key: string)
    requires forall k :: k in labelSorted <==> k in s.byLabel
    requires forall k :: k in labelSorted ==> labelSorted[k] == s.LabelRun(k)
    ensures SortedFor(labelSorted, key) == s.LabelRun(key)
  {
  }

  lemma RunsFit(s: Shelf, b: int, key: string)
    requires s.Valid() && b >= 0 && s.Run(key, b) != []
    ensures s.LabelRun(key) != []
    ensures RunFits(s.LabelRun(key), s.Run(key, b), s.FirstRank(key, b))
  {
    RunIsContiguous(s, key, b);
    RecordOrders(s.collator);
    SortOrders(s.Group(key), ByCatalog());
    forall i | 0 <= i < s.FirstRank(key, b) ensures CatalogOf(s.LabelRun(key)[i]) != CatalogOf(s.LabelRun(key)[s.FirstRank(key, b)]) {
      RunStartsAtItsKey(s, key, b, i);
    }
  }

  method SumApplied(labels: seq<string>, applied: map<string, real>, ghost values: seq<real>) returns (total: real)
    requires Tabulates(applied, labels, values)
    ensures total == Sum(values)
  {
    total := 0.0;
    for j := 0 to |labels|
      invariant total == Sum(values[..j])
    {
      SumStep(values, j);
      total := total + applied[labels[j]];
    }
    assert values[..|labels|] == values;
  }

  lemma BinRuns(s: Shelf, b: int, labels: seq<string>, groups: map<string, seq<RecordRow>>, display: map<string, string>)
    requires s.Valid() && GroupsBin(s.collator, s.BinRecords(b), labels, groups, display)
    ensures Sort(labels, ByLabel(s.collator)) == s.BinLabels(b)
    ensures forall k :: k in s.BinLabels(b) ==>
              && k in groups && groups[k] == s.Run(k, b) && groups[k] != []
              && k in display && display[k] == groups[k][0].labelName
  {
    SortPermutes(labels, ByLabel(s.collator));
    forall k | k in s.BinLabels(b) ensures k in groups && groups[k] == s.Run(k, b) {
      BinGroup(s, k, b);
    }
  }

  function SegmentFrom(key: string, display: string, r: Ranks, count: nat, binTotal: nat,
                       applied: real, offset: real, isOverride: bool): (seg: LabelSegment)
    requires binTotal > 0
  {
    LabelSegment(key, display, r.first, r.last, count, count as real / binTotal as real, applied, offset, isOverride, r.continues)
  }

  /** Step 6: segments with their running offset. */
  method BuildSegments(labels: seq<string>, display: map<string, string>, counts: map<string, nat>,
                       ranks: map<string, Ranks>, binTotal: nat, applied: map<string, real>, flags: map<string, bool>,
                       ghost values: seq<real>)
    returns (segments: seq<LabelSegment>)
    requires binTotal > 0 && Tabulates(applied, labels, values)
    requires forall j :: 0 <= j < |labels| ==> labels[j] in display && labels[j] in counts && labels[j] in ranks && labels[j] in flags
    ensures |segments| == |labels|
    ensures forall j :: 0 <= j < |labels| ==>
              segments[j] == SegmentFrom(labels[j], display[labels[j]], ranks[labels[j]], counts[labels[j]], binTotal,
                                         values[j], Sum(values[..j]), flags[labels[j]])
  {
    segments := [];
    var offset := 0.0;
    for j := 0 to |labels|
      invariant |segments| == j && offset == Sum(values[..j])
      invariant forall i :: 0 <= i < j ==>
                  segments[i] == SegmentFrom(labels[i], display[labels[i]], ranks[labels[i]], counts[labels[i]], binTotal,
                                             values[i], Sum(values[..i]), flags[labels[i]])
    {
      assert applied[labels[j]] == values[j];
      var lk := labels[j];
      var seg := SegmentFrom(lk, display[lk], ranks[lk], counts[lk], binTotal, applied[lk], offset, flags[lk]);
      segments := segments + [seg];
      SumStep(values, j);
      offset := offset + applied[lk];
    }
  }

  lemma SegmentMatches(s: Shelf, b: int, j: nat)
    requires s.Valid() && 0 <= b < |s.Rows()| && j < |s.BinLabels(b)| && |s.BinRecords(b)| > 0
    requires s.Run(s.BinLabels(b)[j], b) != []
    ensures var key := s.BinLabels(b)[j];
            s.SegmentAt(b, j) == SegmentFrom(key, s.Run(key, b)[0].labelName,
              RanksFrom(s.FirstRank(key, b), |s.Run(key, b)|, |s.LabelRun(key)|), |s.Run(key, b)|, |s.BinRecords(b)|,
              s.Fractions(b)[j], Sum(s.Fractions(b)[..j]), s.Active(b)[j].Some?)
  {
  }

  lemma EmptyBin(s: Shelf, b: int)
    requires s.Valid() && 0 <= b < |s.Rows()| && (s.Rows()[b].isEmpty || s.BinRecords(b) == [])
    ensures s.BinRecords(b) == [] && s.Segments(b) == []
  {
    if s.Rows()[b].isEmpty {
      assert s.CutPoints()[b].None?;
      FilterNone(s.Shelved(), s.OwnedBy(b));
    }
    LabelsNeedRecords(s, b);
  }

  /** Tables of step 4 agree with the reference bin. */
  ghost predicate TablesMatch(s: Shelf, b: int, labels: seq<string>, display: map<string, string>,
                              counts: map<string, nat>, ranks: map<string, Ranks>)
    requires s.Valid()
  {
    && labels == s.BinLabels(b)
    && (forall j :: 0 <= j < |labels| ==>
          && s.Run(labels[j], b) != []
          && labels[j] in display && display[labels[j]] == s.Run(labels[j], b)[0].labelName
          && labels[j] in counts && counts[labels[j]] == |s.Run(labels[j], b)|
          && labels[j] in ranks
          && ranks[labels[j]] == RanksFrom(s.FirstRank(labels[j], b), |s.Run(labels[j], b)|, |s.LabelRun(labels[j])|))
  }

  /** Steps 3 and 4 for one bin: labels, display names, counts and ranks. */
  method TabulateBin(c: Collator, records: seq<RecordRow>, labelSorted: map<string, seq<RecordRow>>, ghost s: Shelf, ghost b: int)
    returns (labels: seq<string>, display: map<string, string>, counts: map<string, nat>, ranks: map<string, Ranks>)
    requires s.Valid() && c == s.collator && b >= 0 && records == s.BinRecords(b)
    requires forall k :: k in labelSorted <==> k in s.byLabel
    requires forall k :: k in labelSorted ==> labelSorted[k] == s.LabelRun(k)
    ensures TablesMatch(s, b, labels, display, counts, ranks)
  {
    var seen, groups, shown := GroupByLabel(c, records);
    BinRuns(s, b, seen, groups, shown);
    BinLabelsMean(s, b);
    labels, display := Sort(seen, ByLabel(c)), shown;
    ghost var firsts := seq(|labels|, j requires 0 <= j < |labels| => s.FirstRank(labels[j], b));
    forall j | 0 <= j < |labels|
      ensures SortedFor(labelSorted, labels[j]) == s.LabelRun(labels[j]) != []
      ensures RunFits(s.LabelRun(labels[j]), groups[labels[j]], firsts[j])
    {
      assert labels[j] in labels;
      SortedForIsRun(s, labelSorted, labels[j]);
      RunsFit(s, b, labels[j]);
    }
    counts, ranks := RankTables(labels, groups, labelSorted, firsts);
  }

  /** Step 5 for one bin. */
  method BinFractions(c: Collator, overrides: seq<WidthOverride>, row: BoundaryRow, labels: seq<string>,
                      counts: map<string, nat>, binTotal: nat, ghost s: Shelf, ghost b: int)
    returns (applied: map<string, real>, flags: map<string, bool>)
    requires s.Valid() && c == s.collator && overrides == s.overrides && 0 <= b < |s.Rows()| && row == s.Rows()[b]
    requires labels == s.BinLabels(b) && Distinct(labels) && Tabulates(counts, labels, s.Counts(b))
    requires binTotal == Total(s.Counts(b)) > 0
    ensures Tabulates(applied, labels, s.Fractions(b))
    ensures forall j :: 0 <= j < |labels| ==> labels[j] in flags && flags[labels[j]] == s.Active(b)[j].Some?
  {
    var active := ActiveOverrides(c, overrides, row, labels);
    assert Holds(active, labels, s.Active(b));
    applied, flags := ApplyFractions(labels, counts, binTotal, active, s.Counts(b), s.Active(b));
  }

  /** derive's loop body for one boundary row; `raised` is its ValueError. */
  method BuildBin(c: Collator, row: BoundaryRow, records: seq<RecordRow>, labelSorted: map<string, seq<RecordRow>>,
                  overrides: seq<WidthOverride>, ghost s: Shelf, ghost b: int)
    returns (raised: bool, bin: SegmentBin)
    requires BinInputs(s, b, row, records, labelSorted) && c == s.collator && overrides == s.overrides
    ensures raised <==> records != [] && Degenerate(s.Counts(b), s.Active(b))
    ensures !raised ==> bin == s.BinAt(b)
  {
    bin := SegmentBin(row.unitId, row.row, row.col, row.firstLabel, row.firstCatalog, []);
    if row.isEmpty || records == [] {
      EmptyBin(s, b);
      return false, bin;
    }
    var labels, display, counts, ranks := TabulateBin(c, records, labelSorted, s, b);
    BinTotals(s, b);
    var applied, flags := BinFractions(c, overrides, row, labels, counts, |records|, s, b);
    var total := SumApplied(labels, applied, s.Fractions(b));
    AppliedSumsToOne(s.Counts(b), s.Active(b));
    if (if total >= 1.0 then total - 1.0 else 1.0 - total) >= 0.000001 {
      return true, bin;
    }
    var segments := BuildSegments(labels, display, counts, ranks, |records|, applied, flags, s.Fractions(b));
    SegmentsMatch(s, b, labels, display, counts, ranks, applied, flags, segments);
    return false, bin.(segments := segments);
  }

  lemma BinTotals(s: Shelf, b: int)
    requires s.Valid() && 0 <= b < |s.Rows()|
    ensures Distinct(s.BinLabels(b)) && Total(s.Counts(b)) == |s.BinRecords(b)|
  {
    BinLabelsMean(s, b);
    CountIsExact(s, b);
  }

  lemma SegmentsMatch(s: Shelf, b: int, labels: seq<string>, display: map<string, string>, counts: map<string, nat>,
                      ranks: map<string, Ranks>, applied: map<string, real>, flags: map<string, bool>, segments: seq<LabelSegment>)
    requires s.Valid() && 0 <= b < |s.Rows()| && |s.BinRecords(b)| > 0
    requires TablesMatch(s, b, labels, display, counts, ranks)
    requires forall j :: 0 <= j < |labels| ==> labels[j] in flags && flags[labels[j]] == s.Active(b)[j].Some?
    requires |segments| == |labels|
    requires forall j :: 0 <= j < |labels| ==>
               segments[j] == SegmentFrom(labels[j], display[labels[j]], ranks[labels[j]], counts[labels[j]], |s.BinRecords(b)|,
                                          s.Fractions(b)[j], Sum(s.Fractions(b)[..j]), flags[labels[j]])
    ensures segments == s.Segments(b)
  {
    forall j | 0 <= j < |labels| ensures segments[j] == s.SegmentAt(b, j) {
      SegmentMatches(s, b, j);
    }
  }

  // ── derive ─────────────────────────────────────────────────────────────────

  method CollectRecords(order: seq<string>, byLabel: map<string, seq<RecordRow>>) returns (all: seq<RecordRow>)
    requires forall k :: k in order ==> k in byLabel
    ensures all == Gather(order, byLabel)
  {
    all := [];
    for i := 0 to |order|
      invariant all == Gather(order[..i], byLabel)
    {
      assert order[..i + 1][..i] == order[..i];
      all := all + byLabel[order[i]];
    }
    assert order[..|order|] == order;
  }

  method SortLabels(order: seq<string>, byLabel: map<string, seq<RecordRow>>) returns (sorted: map<string, seq<RecordRow>>)
    requires forall k :: k in order <==> k in byLabel
    ensures forall k :: k in sorted <==> k in byLabel
    ensures forall k :: k in sorted ==> sorted[k] == Sort(byLabel[k], ByCatalog())
  {
    sorted := map[];
    for i := 0 to |order|
      invariant forall k :: k in sorted <==> k in order[..i]
      invariant forall k :: k in sorted ==> k in byLabel && sorted[k] == Sort(byLabel[k], ByCatalog())
    {
      assert order[..i + 1] == order[..i] + [order[i]];
      sorted := sorted[order[i] := Sort(byLabel[order[i]], ByCatalog())];
    }
    assert order[..|order|] == order;
  }

  /** The record loop: every record is appended to the bin the scan finds, if any. */
  method AssignRecords(c: Collator, records: seq<RecordRow>, byKey: seq<CutBin>, nBins: nat, ghost s: Shelf)
    returns (binRecords: seq<seq<RecordRow>>)
    requires c == s.collator && nBins == |s.CutPoints()| && Scannable(byKey, s.CutPoints())
    ensures |binRecords| == nBins
    ensures forall b :: 0 <= b < nBins ==> binRecords[b] == Filter(records, s.OwnedBy(b))
  {
    binRecords := seq(nBins, b => []);
    for i := 0 to |records|
      invariant |binRecords| == nBins
      invariant forall b :: 0 <= b < nBins ==> binRecords[b] == Filter(records[..i], s.OwnedBy(b))
    {
      var record := records[i];
      var bin := ScanForBin(byKey, RecordKey(c, record), s.CutPoints());
      AppendFilters(records, i, s);
      if bin >= 0 {
        binRecords := binRecords[bin := binRecords[bin] + [record]];
      }
    }
    assert records[..|records|] == records;
  }

  lemma AppendFilters(records: seq<RecordRow>, i: nat, s: Shelf)
    requires i < |records|
    ensures forall b :: Filter(records[..i + 1], s.OwnedBy(b)) ==
              Filter(records[..i], s.OwnedBy(b)) + if s.OwnerOf(records[i]) == b then [records[i]] else []
  {
    forall b ensures Filter(records[..i + 1], s.OwnedBy(b)) ==
        Filter(records[..i], s.OwnedBy(b)) + if s.OwnerOf(records[i]) == b then [records[i]] else [] {
      assert records[..i + 1] == records[..i] + [records[i]];
      FilterConcat(records[..i], [records[i]], s.OwnedBy(b));
      assert Filter([records[i]], s.OwnedBy(b)) == if s.OwnerOf(records[i]) == b then [records[i]] else [];
    }
  }

  type Coord = (int, int, int)

  function CoordOf(bin: SegmentBin): (r: Coord) { (bin.unitId, bin.row, bin.col) }

  /** {(unit, row, col): bin for bin in bins} */
  function CoordIndex(bins: seq<SegmentBin>): (m: map<Coord, SegmentBin>) {
    if bins == [] then map[] else
      var n := |bins| - 1;
      CoordIndex(bins[..n])[CoordOf(bins[n]) := bins[n]]
  }

  lemma {:induction false} CoordIndexFinds(bins: seq<SegmentBin>)
    ensures forall k :: k in CoordIndex(bins) ==> CoordIndex(bins)[k] in bins && CoordOf(CoordIndex(bins)[k]) == k
    ensures forall b :: b in bins ==> CoordOf(b) in CoordIndex(bins)
  {
    if bins != [] {
      var n := |bins| - 1;
      CoordIndexFinds(bins[..n]);
      assert bins == bins[..n] + [bins[n]];
    }
  }

  /** The shape no bin may have for derive to succeed: a bin with records, every one of them
      under an overridden label, with overrides that do not sum to something positive. */
  ghost predicate Overcommitted(s: Shelf, b: int)
    requires s.Valid() && 0 <= b < |s.Rows()|
  {
    s.BinRecords(b) != [] && Degenerate(s.Counts(b), s.Active(b))
  }

  /** Overrides in (0, 1] never make derive raise. */
  lemma PositiveOverridesNeverRaise(s: Shelf, b: int)
    requires s.Valid() && s.PositiveOverrides() && 0 <= b < |s.Rows()|
    ensures !Overcommitted(s, b)
  {
    if s.BinRecords(b) != [] { FractionsTile(s, b); }
  }

  ghost function InputsOf(c: Collator, cache: BoundaryCache, snapshot: CollectionSnapshot, overrides: seq<WidthOverride>): Shelf
    reads cache, snapshot
  {
    Shelf(c, cache.rows, snapshot.order, snapshot.byLabel, overrides)
  }

  /** Steps 1 to 3: the global sort, the per-label sorts and the assignment. */
  method AssignAll(c: Collator, rows: seq<BoundaryRow>, order: seq<string>, byLabel: map<string, seq<RecordRow>>, ghost s: Shelf)
    returns (binRecords: seq<seq<RecordRow>>, labelSorted: map<string, seq<RecordRow>>)
    requires s.Valid() && c == s.collator && rows == s.Rows() && order == s.order && byLabel == s.byLabel
    ensures |binRecords| == |rows| && forall b :: 0 <= b < |rows| ==> binRecords[b] == s.BinRecords(b)
    ensures forall k :: k in labelSorted <==> k in s.byLabel
    ensures forall k :: k in labelSorted ==> labelSorted[k] == s.LabelRun(k)
  {
    var allRecords := CollectRecords(order, byLabel);
    allRecords := Sort(allRecords, ByRecordKey(c));
    labelSorted := SortLabels(order, byLabel);
    var byKey := CutBinsByKey(c, rows);
    var pairs := Sort(allRecords, ByRecordKey(c));
    RecordOrders(c);
    SortOrders(Gather(order, byLabel), ByRecordKey(c));
    SortFixesOrdered(allRecords, ByRecordKey(c));
    binRecords := AssignRecords(c, pairs, byKey, |rows|, s);
  }

  ghost predicate AnyOvercommitted(s: Shelf)
    requires s.Valid()
  {
    exists b :: 0 <= b < |s.Rows()| && Overcommitted(s, b)
  }

  /** The bins of the first rows, none of which is overcommitted. */
  ghost predicate Built(s: Shelf, bins: seq<SegmentBin>)
    requires s.Valid()
  {
    |bins| <= |s.Rows()| && forall b :: 0 <= b < |bins| ==> bins[b] == s.BinAt(b) && !Overcommitted(s, b)
  }

  lemma BuiltSnoc(s: Shelf, bins: seq<SegmentBin>, bin: SegmentBin)
    requires s.Valid() && Built(s, bins) && |bins| < |s.Rows()| && bin == s.BinAt(|bins|) && !Overcommitted(s, |bins|)
    ensures Built(s, bins + [bin])
  {
  }

  lemma BuiltAll(s: Shelf, bins: seq<SegmentBin>)
    requires s.Valid() && Built(s, bins) && |bins| == |s.Rows()|
    ensures bins == s.Bins() && !AnyOvercommitted(s)
  {
  }

  /** Steps 4 to 6 for every row in physical order, stopping at the first raise. */
  method BuildBins(c: Collator, rows: seq<BoundaryRow>, binRecords: seq<seq<RecordRow>>, labelSorted: map<string, seq<RecordRow>>,
                   overrides: seq<WidthOverride>, ghost s: Shelf)
    returns (raised: bool, result: seq<SegmentBin>)
    requires s.Valid() && c == s.collator && rows == s.Rows() && overrides == s.overrides
    requires |binRecords| == |rows| && forall b :: 0 <= b < |rows| ==> binRecords[b] == s.BinRecords(b)
    requires forall k :: k in labelSorted <==> k in s.byLabel
    requires forall k :: k in labelSorted ==> labelSorted[k] == s.LabelRun(k)
    ensures raised <==> AnyOvercommitted(s)
    ensures !raised ==> result == s.Bins()
  {
    result := [];
    for b := 0 to |rows|
      invariant |result| == b
      invariant var built := Built(s, result); built
    {
      var bad, bin := BuildBin(c, rows[b], binRecords[b], labelSorted, overrides, s, b);
      if bad {
        assert Overcommitted(s, b);
        return true, result;
      }
      BuiltSnoc(s, result, bin);
      result := result + [bin];
    }
    BuiltAll(s, result);
    return false, result;
  }

  class SegmentCache {
    const collator: Collator
    var bins: seq<SegmentBin>
    var byCoord: map<Coord, SegmentBin>

    /** The coordinate index always describes the published bins. */
    ghost predicate Valid() reads this {
      byCoord == CoordIndex(bins)
    }

    constructor (collator: Collator)
      ensures Valid() && this.collator == collator && bins == []
    {
      this.collator := collator;
      bins, byCoord := [], map[];
    }

    /** derive publishes exactly the reference bins, or raises and publishes nothing; it raises
        exactly when some bin is overcommitted. */
    method Derive(cache: BoundaryCache, snapshot: CollectionSnapshot, overrides: seq<WidthOverride>) returns (raised: bool)
      requires Valid() && snapshot.Valid() && snapshot.collator == collator
      modifies this
      ensures Valid()
      ensures var s := InputsOf(collator, cache, snapshot, overrides);
              raised <==> AnyOvercommitted(s)
      ensures raised ==> bins == old(bins)
      ensures !raised ==> bins == InputsOf(collator, cache, snapshot, overrides).Bins()
    {
      ghost var s := InputsOf(collator, cache, snapshot, overrides);
      var boundaryRows := Sort(cache.rows, ByPlace());
      if boundaryRows == [] {
        bins, byCoord := [], map[];
        return false;
      }
      var binRecords, labelSorted := AssignAll(collator, boundaryRows, snapshot.order, snapshot.byLabel, s);
      var resultBins: seq<SegmentBin>;
      raised, resultBins := BuildBins(collator, boundaryRows, binRecords, labelSorted, overrides, s);
      if raised {
        return;
      }
      bins, byCoord := resultBins, CoordIndex(resultBins);
    }

    method PublishFrom(prepared: SegmentCache)
      requires prepared.Valid()
      modifies this
      ensures Valid() && bins == old(prepared.bins)
    {
      bins, byCoord := prepared.bins, prepared.byCoord;
    }

    method Invalidate()
      modifies this
      ensures Valid() && bins == []
    {
      bins, byCoord := [], map[];
    }

    /** get_bin */
    function GetBin(unitId: int, row: int, col: int): (r: Option<SegmentBin>)
      reads this
    {
      if (unitId, row, col) in byCoord then Some(byCoord[(unitId, row, col)]) else None
    }

    /** get_segment_for_rank: nested scans with an early return. */
    method GetSegmentForRank(name: string, rank: int) returns (r: Option<(SegmentBin, LabelSegment)>)
      ensures r == FindSegment(collator, bins, collator.casefold(name), rank)
    {
      var key := collator.casefold(name);
      for b := 0 to |bins|
        invariant FindSegment(collator, bins, key, rank) == FindSegment(collator, bins[b..], key, rank)
      {
        var segments := bins[b].segments;
        assert bins[b..][0] == bins[b] && bins[b..][1..] == bins[b + 1..];
        for j := 0 to |segments|
          invariant FindInBin(collator, segments, key, rank) == FindInBin(collator, segments[j..], key, rank)
        {
          assert segments[j..][1..] == segments[j + 1..];
          if SegmentHits(collator, segments[j], key, rank) {
            return Some((bins[b], segments[j]));
          }
        }
      }
      return None;
    }
  }

  lemma CoordIndexAt(bins: seq<SegmentBin>, b: nat)
    requires b < |bins| && forall i, j :: 0 <= i < j < |bins| ==> CoordOf(bins[i]) != CoordOf(bins[j])
    ensures CoordOf(bins[b]) in CoordIndex(bins) && CoordIndex(bins)[CoordOf(bins[b])] == bins[b]
  {
    CoordIndexFinds(bins);
    assert bins[b] in bins;
    var i :| 0 <= i < |bins| && bins[i] == CoordIndex(bins)[CoordOf(bins[b])];
  }

  /** get_bin returns a published bin at the coordinates, and nothing exactly when there is none. */
  lemma GetBinMeans(cache: SegmentCache, unitId: int, row: int, col: int)
    requires cache.Valid()
    ensures var r := cache.GetBin(unitId, row, col);
            && (r.Some? ==> r.value in cache.bins && CoordOf(r.value) == (unitId, row, col))
            && (r.None? ==> forall b :: b in cache.bins ==> CoordOf(b) != (unitId, row, col))
  {
    CoordIndexFinds(cache.bins);
  }

  /** With coordinates as a primary key, get_bin finds every derived bin under its own place. */
  lemma GetBinFinds(cache: SegmentCache, s: Shelf, b: int)
    requires s.Valid() && cache.Valid() && cache.bins == s.Bins() && 0 <= b < |s.Rows()|
    requires forall i, j :: 0 <= i < j < |s.Rows()| ==> CoordOf(s.BinAt(i)) != CoordOf(s.BinAt(j))
    ensures cache.GetBin(s.BinAt(b).unitId, s.BinAt(b).row, s.BinAt(b).col) == Some(s.BinAt(b))
  {
    forall i, j | 0 <= i < j < |s.Bins()| ensures CoordOf(s.Bins()[i]) != CoordOf(s.Bins()[j]) {
    }
    CoordIndexAt(s.Bins(), b);
  }
}
