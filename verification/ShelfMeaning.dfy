/** What the parts of the reference description mean, in terms of the rows and overrides alone
    (src/gruvax/estimator/segment_cache.py:190-302, 363-602). */
module ShelfMeaning {
  import opened Sequences
  import opened Normalize
  import opened Records
  import opened Assignment
  import opened Widths
  import opened ShelfModel
  import opened LabelRuns
  import opened Partition
  import opened Tiling
  import opened OrderMeaning

  // ── Which override applies ─────────────────────────────────────────────────

  /** The fraction found is that of the first override with the coordinates of the bin and a label
      that folds to the key; there is none exactly when no override has all four. */
  lemma {:induction false} OverrideForMeans(c: Collator, overrides: seq<WidthOverride>, row: BoundaryRow, key: string)
    ensures var f := OverrideFor(c, overrides, row, key);
            && (f.Some? ==>
                  (exists i :: 0 <= i < |overrides|
                    && overrides[i].unitId == row.unitId && overrides[i].row == row.row && overrides[i].col == row.col
                    && c.casefold(overrides[i].labelName) == key && overrides[i].fraction == f.value
                    && (forall k :: 0 <= k < i ==>
                          !(overrides[k].unitId == row.unitId && overrides[k].row == row.row
                            && overrides[k].col == row.col && c.casefold(overrides[k].labelName) == key))))
            && (f.None? <==> forall i :: 0 <= i < |overrides| ==>
                  !(overrides[i].unitId == row.unitId && overrides[i].row == row.row
                    && overrides[i].col == row.col && c.casefold(overrides[i].labelName) == key))
  {
    if overrides != [] {
      var rest := overrides[1..];
      OverrideForMeans(c, rest, row, key);
      assert forall i :: 0 < i < |overrides| ==> overrides[i] == rest[i - 1];
      var f := OverrideFor(c, overrides, row, key);
      if f.Some? && !Matches(c, overrides[0], row, key) {
        var i :| 0 <= i < |rest|
          && rest[i].unitId == row.unitId && rest[i].row == row.row && rest[i].col == row.col
          && c.casefold(rest[i].labelName) == key && rest[i].fraction == f.value
          && (forall k :: 0 <= k < i ==>
                !(rest[k].unitId == row.unitId && rest[k].row == row.row
                  && rest[k].col == row.col && c.casefold(rest[k].labelName) == key));
        assert overrides[i + 1] == rest[i];
      }
    }
  }

  /** The overrides set for one cube. */
  function AtCube(unitId: int, row: int, col: int): WidthOverride -> bool {
    (o: WidthOverride) => o.unitId == unitId && o.row == row && o.col == col
  }

  lemma {:induction false} OverrideIsLocal(c: Collator, overrides: seq<WidthOverride>, row: BoundaryRow, key: string)
    ensures OverrideFor(c, overrides, row, key)
            == OverrideFor(c, Filter(overrides, AtCube(row.unitId, row.row, row.col)), row, key)
  {
    if overrides != [] {
      OverrideIsLocal(c, overrides[1..], row, key);
      var kept := Filter(overrides[1..], AtCube(row.unitId, row.row, row.col));
      if AtCube(row.unitId, row.row, row.col)(overrides[0]) {
        assert ([overrides[0]] + kept)[1..] == kept;
      }
    }
  }

  /** Two shelves that differ in overrides only, and not in those of bin `b`. */
  ghost predicate SameButOverrides(s: Shelf, t: Shelf, b: int) {
    && t == s.(overrides := t.overrides) && 0 <= b < |s.Rows()|
    && var row := s.Rows()[b];
       Filter(s.overrides, AtCube(row.unitId, row.row, row.col)) == Filter(t.overrides, AtCube(row.unitId, row.row, row.col))
  }

  lemma SameOwners(s: Shelf, t: Shelf, b: int, list: seq<RecordRow>)
    requires t == s.(overrides := t.overrides)
    ensures Filter(list, s.OwnedBy(b)) == Filter(list, t.OwnedBy(b))
    ensures FirstIndex(list, s.OwnedBy(b)) == FirstIndex(list, t.OwnedBy(b))
  {
    FilterSame(list, s.OwnedBy(b), t.OwnedBy(b));
    assert forall r :: s.OwnedBy(b)(r) == t.OwnedBy(b)(r);
  }

  lemma SameRuns(s: Shelf, t: Shelf, b: int, key: string)
    requires t == s.(overrides := t.overrides)
    ensures s.LabelRun(key) == t.LabelRun(key) && s.Run(key, b) == t.Run(key, b) && s.FirstRank(key, b) == t.FirstRank(key, b)
  {
    SameOwners(s, t, b, s.LabelRun(key));
  }

  lemma SameRecords(s: Shelf, t: Shelf, b: int)
    requires s.Valid() && t == s.(overrides := t.overrides)
    ensures s.Rows() == t.Rows() && s.BinRecords(b) == t.BinRecords(b) && s.BinLabels(b) == t.BinLabels(b)
    ensures s.Counts(b) == t.Counts(b)
  {
    SameOwners(s, t, b, s.Shelved());
    forall j | 0 <= j < |s.BinLabels(b)| ensures s.Counts(b)[j] == t.Counts(b)[j] {
      SameRuns(s, t, b, s.BinLabels(b)[j]);
    }
  }

  lemma SameActive(s: Shelf, t: Shelf, b: int)
    requires s.Valid() && SameButOverrides(s, t, b)
    ensures s.Rows() == t.Rows() && s.Active(b) == t.Active(b)
  {
    SameRecords(s, t, b);
    forall j | 0 <= j < |s.BinLabels(b)| ensures s.Active(b)[j] == t.Active(b)[j] {
      OverrideIsLocal(s.collator, s.overrides, s.Rows()[b], s.BinLabels(b)[j]);
      OverrideIsLocal(s.collator, t.overrides, s.Rows()[b], s.BinLabels(b)[j]);
    }
  }

  lemma SameFractions(s: Shelf, t: Shelf, b: int)
    requires s.Valid() && SameButOverrides(s, t, b)
    ensures s.Rows() == t.Rows() && s.Fractions(b) == t.Fractions(b)
  {
    SameRecords(s, t, b);
    SameActive(s, t, b);
  }

  /** All that a segment is made of. */
  lemma SegmentParts(s: Shelf, b: int, j: nat, key: string, run: seq<RecordRow>, total: nat)
    requires s.Valid() && 0 <= b < |s.Rows()| && j < |s.BinLabels(b)|
    requires key == s.BinLabels(b)[j] && run == s.Run(key, b) && total == |s.BinRecords(b)|
    ensures s.SegmentAt(b, j) ==
              LabelSegment(key, if run == [] then "" else run[0].labelName, s.FirstRank(key, b), s.FirstRank(key, b) + |run| - 1, |run|,
                           if total == 0 then 0.0 else |run| as real / total as real,
                           s.Fractions(b)[j], Sum(s.Fractions(b)[..j]), s.Active(b)[j].Some?,
                           s.FirstRank(key, b) + |run| - 1 < |s.LabelRun(key)| - 1)
  {
  }

  lemma SameSegment(s: Shelf, t: Shelf, b: int, j: nat)
    requires s.Valid() && SameButOverrides(s, t, b) && j < |s.BinLabels(b)|
    ensures s.Rows() == t.Rows() && s.BinLabels(b) == t.BinLabels(b) && s.SegmentAt(b, j) == t.SegmentAt(b, j)
  {
    var key := s.BinLabels(b)[j];
    SameRecords(s, t, b);
    SameRuns(s, t, b, key);
    SameActive(s, t, b);
    SameFractions(s, t, b);
    SegmentParts(s, b, j, key, s.Run(key, b), |s.BinRecords(b)|);
    SegmentParts(t, b, j, key, t.Run(key, b), |t.BinRecords(b)|);
  }

  /** A bin, widths and all, does not depend on the overrides of other cubes. */
  lemma BinsIgnoreOtherOverrides(s: Shelf, t: Shelf, b: int)
    requires s.Valid() && SameButOverrides(s, t, b)
    ensures s.Rows() == t.Rows() && s.BinAt(b) == t.BinAt(b)
  {
    SameRecords(s, t, b);
    forall j | 0 <= j < |s.BinLabels(b)| ensures s.SegmentAt(b, j) == t.SegmentAt(b, j) {
      SameSegment(s, t, b, j);
    }
  }

  // ── The fields of a segment ────────────────────────────────────────────────

  /** A segment is flagged exactly when some override names its cube and its label. */
  lemma FlagMeans(s: Shelf, b: int, j: nat)
    requires s.Valid() && 0 <= b < |s.Rows()| && j < |s.BinLabels(b)|
    ensures s.SegmentAt(b, j).isOverride <==>
              exists o :: o in s.overrides && o.unitId == s.Rows()[b].unitId && o.row == s.Rows()[b].row
                          && o.col == s.Rows()[b].col && s.collator.casefold(o.labelName) == s.BinLabels(b)[j]
  {
    var row, key := s.Rows()[b], s.BinLabels(b)[j];
    OverrideForMeans(s.collator, s.overrides, row, key);
    assert s.SegmentAt(b, j).isOverride <==> OverrideFor(s.collator, s.overrides, row, key).Some?;
  }

  lemma NoneAtCube(c: Collator, overrides: seq<WidthOverride>, row: BoundaryRow, key: string)
    requires forall o :: o in overrides ==> !AtCube(row.unitId, row.row, row.col)(o)
    ensures OverrideFor(c, overrides, row, key).None?
  {
    OverrideIsLocal(c, overrides, row, key);
    FilterNone(overrides, AtCube(row.unitId, row.row, row.col));
  }

  lemma NoneActive(s: Shelf, b: int)
    requires s.Valid() && 0 <= b < |s.Rows()|
    requires forall o :: o in s.overrides ==> !AtCube(s.Rows()[b].unitId, s.Rows()[b].row, s.Rows()[b].col)(o)
    ensures !AnyOverride(s.Active(b))
  {
    var row := s.Rows()[b];
    forall j | 0 <= j < |s.BinLabels(b)| ensures s.Active(b)[j].None? {
      NoneAtCube(s.collator, s.overrides, row, s.BinLabels(b)[j]);
    }
  }

  /** The automatic fraction is the label's share of the bin's records, and in a cube without
      overrides it is the width. */
  lemma AutoFractionMeans(s: Shelf, b: int, j: nat)
    requires s.Valid() && 0 <= b < |s.Rows()| && j < |s.BinLabels(b)|
    ensures var seg := s.SegmentAt(b, j);
            && |s.BinRecords(b)| > 0
            && seg.autoFraction == |Filter(s.BinRecords(b), LabelIs(s.collator, s.BinLabels(b)[j]))| as real / |s.BinRecords(b)| as real
            && ((forall o :: o in s.overrides ==> !AtCube(s.Rows()[b].unitId, s.Rows()[b].row, s.Rows()[b].col)(o)) ==>
                  seg.appliedFraction == seg.autoFraction)
  {
    LabelsNeedRecords(s, b);
    BinGroup(s, s.BinLabels(b)[j], b);
    if forall o :: o in s.overrides ==> !AtCube(s.Rows()[b].unitId, s.Rows()[b].row, s.Rows()[b].col)(o) {
      NoneActive(s, b);
      CountIsExact(s, b);
      SharesWithoutOverrides(s.Counts(b), s.Active(b), j);
    }
  }

  /** A segment shows the label as its first record in the bin spells it. */
  lemma DisplayMeans(s: Shelf, b: int, j: nat)
    requires s.Valid() && 0 <= b < |s.Rows()| && j < |s.BinLabels(b)|
    ensures var run := s.Run(s.BinLabels(b)[j], b);
            run != [] && s.SegmentAt(b, j).display == run[0].labelName && s.collator.casefold(run[0].labelName) == s.BinLabels(b)[j]
  {
    var key := s.BinLabels(b)[j];
    BinLabelsMean(s, b);
    assert key in s.BinLabels(b);
    BinGroup(s, key, b);
    FilterMember(s.BinRecords(b), LabelIs(s.collator, key), s.Run(key, b)[0]);
  }

  // ── Cuts and the walk ──────────────────────────────────────────────────────

  /** Bins are walked by unit, then row, then column. */
  lemma WalkOrder(s: Shelf, i: nat, j: nat)
    requires i < j < |s.Rows()|
    ensures multiset(s.Rows()) == multiset(s.boundaries)
    ensures var (a, b) := (s.Rows()[i], s.Rows()[j]);
            a.unitId < b.unitId || (a.unitId == b.unitId && (a.row < b.row || (a.row == b.row && a.col <= b.col)))
  {
    RecordOrders(s.collator);
    SortOrders(s.boundaries, ByPlace());
    SortPermutes(s.boundaries, ByPlace());
    assert ByPlace()(s.Rows()[i], s.Rows()[j]);
  }

  /** A bin that is marked empty, or whose cut lacks a label or a catalog, owns nothing. */
  lemma NoCutNoRecords(s: Shelf, b: int)
    requires s.Valid() && 0 <= b < |s.Rows()|
    requires s.Rows()[b].isEmpty || s.Rows()[b].firstLabel.None? || s.Rows()[b].firstCatalog.None?
    ensures s.BinRecords(b) == [] && s.BinAt(b).segments == []
  {
    FilterNone(s.Shelved(), s.OwnedBy(b));
    LabelsNeedRecords(s, b);
  }

  /** The record at a cut, if it is on the shelf. */
  function CutRecord(row: BoundaryRow): (r: RecordRow)
    requires row.firstLabel.Some? && row.firstCatalog.Some?
  {
    RecordRow(0, row.firstLabel.value, row.firstCatalog.value)
  }

  /** A bin owns no record in front of its cut, and a record at its cut belongs to it unless a
      later bin has the same cut. */
  lemma CutsMean(s: Shelf, b: int, r: RecordRow)
    requires s.Valid() && 0 <= b < |s.Rows()|
    requires !s.Rows()[b].isEmpty && s.Rows()[b].firstLabel.Some? && s.Rows()[b].firstCatalog.Some?
    ensures var first := CutRecord(s.Rows()[b]);
            && (s.OwnerOf(r) == b ==> CutLe(RecordKey(s.collator, first), RecordKey(s.collator, r)))
            && (s.collator.casefold(r.labelName) == s.collator.casefold(first.labelName)
                && CompareCatalogs(Some(r.catalog), Some(first.catalog)) == 0 ==>
                  s.OwnerOf(r) >= b && s.CutPoints()[s.OwnerOf(r)] == s.CutPoints()[b])
  {
    var cuts, key := s.CutPoints(), RecordKey(s.collator, r);
    CutOrderAll();
    var first := CutRecord(s.Rows()[b]);
    assert cuts[b] == Some(RecordKey(s.collator, first));
    if s.collator.casefold(r.labelName) == s.collator.casefold(first.labelName)
       && CompareCatalogs(Some(r.catalog), Some(first.catalog)) == 0 {
      CompareIsTotalPreorder(Some(r.catalog), Some(first.catalog), None);
      assert key == cuts[b].value;
      assert Reaches(cuts[b], key);
      var owner := Owner(cuts, key);
      assert CutLe(cuts[b].value, cuts[owner].value) && CutLe(cuts[owner].value, key);
    }
  }
}
