/** The reference description of what `SegmentCache.derive` must produce
    (src/gruvax/estimator/segment_cache.py:103-604), stated without its scans and dictionaries:
    records sorted by key, each owned by one bin, each bin's labels cut out of their lists. */
module ShelfModel {
  import opened Sequences
  import opened Normalize
  import opened Records
  import opened Assignment
  import opened Widths

  datatype LabelSegment = LabelSegment(
    labelKey: string, display: string,
    firstRank: int, lastRank: int, count: nat,
    autoFraction: real, appliedFraction: real, offset: real,
    isOverride: bool, continues: bool)

  datatype SegmentBin = SegmentBin(
    unitId: int, row: int, col: int,
    cutLabel: Option<string>, cutCatalog: Option<string>,
    segments: seq<LabelSegment>)

  /** Casefolded labels in collation order. */
  function ByLabel(c: Collator): (string, string) -> bool {
    (a, b) => LabelLe(c.KeyOf(a), c.KeyOf(b))
  }

  /** The casefolded labels of `records`, each once, in order of first appearance. */
  function Seen(c: Collator, records: seq<RecordRow>): (r: seq<string>) {
    if records == [] then [] else
      var n := |records| - 1;
      var before := Seen(c, records[..n]);
      var key := c.casefold(records[n].labelName);
      if key in before then before else before + [key]
  }

  function Gather(order: seq<string>, byLabel: map<string, seq<RecordRow>>): (r: seq<RecordRow>)
    requires forall k :: k in order ==> k in byLabel
  {
    if order == [] then [] else
      Gather(order[..|order| - 1], byLabel) + byLabel[order[|order| - 1]]
  }

  /** The first override of this bin whose casefolded label is `key`. */
  function OverrideFor(c: Collator, overrides: seq<WidthOverride>, row: BoundaryRow, key: string): (f: Option<real>) {
    if overrides == [] then None
    else if Matches(c, overrides[0], row, key) then Some(overrides[0].fraction)
    else OverrideFor(c, overrides[1..], row, key)
  }

  predicate Matches(c: Collator, o: WidthOverride, row: BoundaryRow, key: string) {
    o.unitId == row.unitId && o.row == row.row && o.col == row.col && c.casefold(o.labelName) == key
  }

  /** Everything derive reads. */
  datatype Shelf = Shelf(
    collator: Collator,
    boundaries: seq<BoundaryRow>,
    order: seq<string>,
    byLabel: map<string, seq<RecordRow>>,
    overrides: seq<WidthOverride>)
  {
    ghost predicate Valid() {
      collator.Valid() && Grouped(collator, order, byLabel)
    }

    /** What the schema guarantees of the stored widths. */
    ghost predicate PositiveOverrides() {
      forall o :: o in overrides ==> o.fraction > 0.0
    }

    function Rows(): seq<BoundaryRow> { Sort(boundaries, ByPlace()) }

    function CutPoints(): seq<Option<CutKey>> { Cuts(collator, Rows()) }

    /** All records in (label key, catalog key) order. */
    function Shelved(): seq<RecordRow>
      requires forall k :: k in order ==> k in byLabel
    {
      Sort(Gather(order, byLabel), ByRecordKey(collator))
    }

    function Group(key: string): seq<RecordRow> {
      if key in byLabel then byLabel[key] else []
    }

    /** One label's records in catalog order; positions in it are ranks. */
    function LabelRun(key: string): seq<RecordRow> { Sort(Group(key), ByCatalog()) }

    function OwnerOf(r: RecordRow): (b: int)
      ensures -1 <= b < |CutPoints()|
    {
      Owner(CutPoints(), RecordKey(collator, r))
    }

    function OwnedBy(b: int): RecordRow -> bool {
      r => OwnerOf(r) == b
    }

    function BinRecords(b: int): seq<RecordRow>
      requires forall k :: k in order ==> k in byLabel
    {
      Filter(Shelved(), OwnedBy(b))
    }

    /** The labels present in a bin, in collation order. */
    function BinLabels(b: int): seq<string>
      requires forall k :: k in order ==> k in byLabel
    {
      Sort(Seen(collator, BinRecords(b)), ByLabel(collator))
    }

    function Run(key: string, b: int): seq<RecordRow> { Filter(LabelRun(key), OwnedBy(b)) }

    function FirstRank(key: string, b: int): nat { FirstIndex(LabelRun(key), OwnedBy(b)) }

    function Counts(b: int): (r: seq<nat>)
      requires forall k :: k in order ==> k in byLabel
      ensures |r| == |BinLabels(b)|
      ensures forall j :: 0 <= j < |r| ==> r[j] == |Run(BinLabels(b)[j], b)|
    {
      seq(|BinLabels(b)|, j requires 0 <= j < |BinLabels(b)| => |Run(BinLabels(b)[j], b)|)
    }

    function Active(b: int): (r: seq<Option<real>>)
      requires forall k :: k in order ==> k in byLabel
      requires 0 <= b < |Rows()|
      ensures |r| == |BinLabels(b)|
      ensures forall j :: 0 <= j < |r| ==> r[j] == OverrideFor(collator, overrides, Rows()[b], BinLabels(b)[j])
    {
      seq(|BinLabels(b)|, j requires 0 <= j < |BinLabels(b)| =>
        OverrideFor(collator, overrides, Rows()[b], BinLabels(b)[j]))
    }

    ghost function Fractions(b: int): seq<real>
      requires forall k :: k in order ==> k in byLabel
      requires 0 <= b < |Rows()|
    {
      Applied(Counts(b), Active(b))
    }

    ghost function SegmentAt(b: int, j: int): LabelSegment
      requires forall k :: k in order ==> k in byLabel
      requires 0 <= b < |Rows()| && 0 <= j < |BinLabels(b)|
    {
      var key := BinLabels(b)[j];
      var run := Run(key, b);
      LabelSegment(
        key,
        if run == [] then "" else run[0].labelName,
        FirstRank(key, b),
        FirstRank(key, b) + |run| - 1,
        |run|,
        if |BinRecords(b)| == 0 then 0.0 else |run| as real / |BinRecords(b)| as real,
        Fractions(b)[j],
        Sum(Fractions(b)[..j]),
        Active(b)[j].Some?,
        FirstRank(key, b) + |run| - 1 < |LabelRun(key)| - 1)
    }

    ghost function Segments(b: int): (r: seq<LabelSegment>)
      requires forall k :: k in order ==> k in byLabel
      requires 0 <= b < |Rows()|
      ensures |r| == |BinLabels(b)|
      ensures forall j :: 0 <= j < |r| ==> r[j] == SegmentAt(b, j)
    {
      seq(|BinLabels(b)|, j requires 0 <= j < |BinLabels(b)| => SegmentAt(b, j))
    }

    ghost function BinAt(b: int): SegmentBin
      requires forall k :: k in order ==> k in byLabel
      requires 0 <= b < |Rows()|
    {
      var row := Rows()[b];
      SegmentBin(row.unitId, row.row, row.col, row.firstLabel, row.firstCatalog, Segments(b))
    }

    ghost function Bins(): (r: seq<SegmentBin>)
      requires forall k :: k in order ==> k in byLabel
      ensures |r| == |Rows()|
      ensures forall b :: 0 <= b < |r| ==> r[b] == BinAt(b)
    {
      seq(|Rows()|, b requires 0 <= b < |Rows()| => BinAt(b))
    }
  }
}
