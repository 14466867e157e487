/** Every covered record is in exactly one bin, and slicing the rank ranges of a bin's segments
    out of the sorted label lists gives back exactly the records the bin owns
    (src/gruvax/estimator/boundary_math.py:49-95). */
module Partition {
  import opened Sequences
  import opened Orders
  import opened Normalize
  import opened Records
  import opened Assignment
  import opened ShelfModel
  import opened LabelRuns

  // ── Segments tile the bin's records ────────────────────────────────────────

  function Position(labels: seq<string>, key: string): (i: nat) {
    FirstIndex(labels, (k: string) => k == key)
  }

  function LabelPosition(s: Shelf, labels: seq<string>): RecordRow -> nat {
    (r: RecordRow) => Position(labels, s.collator.casefold(r.labelName))
  }

  lemma BinIsSortedByLabel(s: Shelf, b: int, i: int, j: int)
    requires s.Valid() && 0 <= i < j < |s.BinRecords(b)|
    ensures var p := LabelPosition(s, s.BinLabels(b));
            && p(s.BinRecords(b)[i]) <= p(s.BinRecords(b)[j])
            && p(s.BinRecords(b)[i]) < |s.BinLabels(b)|
            && p(s.BinRecords(b)[j]) < |s.BinLabels(b)|
  {
    var c, labels, x, y := s.collator, s.BinLabels(b), s.BinRecords(b)[i], s.BinRecords(b)[j];
    RecordOrders(c);
    SortOrders(Gather(s.order, s.byLabel), ByRecordKey(c));
    FilterOrdered(s.Shelved(), s.OwnedBy(b), ByRecordKey(c));
    assert ByRecordKey(c)(x, y);
    RecordHasLabel(s, b, x);
    RecordHasLabel(s, b, y);
    BinLabelsMean(s, b);
    var kx, ky := c.casefold(x.labelName), c.casefold(y.labelName);
    var px, py := Position(labels, kx), Position(labels, ky);
    assert c.KeyOf(x.labelName) == c.KeyOf(kx) && c.KeyOf(y.labelName) == c.KeyOf(ky);
    LabelOrder(c.KeyOf(kx), c.KeyOf(ky), c.KeyOf(ky));
    assert LabelLe(c.KeyOf(kx), c.KeyOf(ky));
  }

  lemma RecordHasLabel(s: Shelf, b: int, r: RecordRow)
    requires s.Valid() && r in s.BinRecords(b)
    ensures var key := s.collator.casefold(r.labelName);
            && key in s.BinLabels(b)
            && Position(s.BinLabels(b), key) < |s.BinLabels(b)|
            && s.BinLabels(b)[Position(s.BinLabels(b), key)] == key
  {
    var key := s.collator.casefold(r.labelName);
    BinGroup(s, key, b);
    FilterMember(s.BinRecords(b), LabelIs(s.collator, key), r);
    BinLabelsMean(s, b);
  }

  /** Python's slice bounds: negative positions count from the end, both are clipped. */
  function SliceBound(i: int, n: nat): (r: nat)
    ensures r <= n
  {
    if i < 0 then (if i + n < 0 then 0 else i + n) else if i > n then n else i
  }

  /** The rank slice of one segment out of its label's list. */
  function Slice(list: seq<RecordRow>, seg: LabelSegment): (r: seq<RecordRow>) {
    var lo, hi := SliceBound(seg.firstRank, |list|), SliceBound(seg.lastRank + 1, |list|);
    if lo <= hi then list[lo..hi] else []
  }

  ghost function Slices(s: Shelf, segments: seq<LabelSegment>): (r: seq<seq<RecordRow>>)
    ensures |r| == |segments|
    ensures forall i :: 0 <= i < |r| ==> r[i] == Slice(s.LabelRun(s.collator.casefold(segments[i].labelKey)), segments[i])
  {
    seq(|segments|, i requires 0 <= i < |segments| =>
      Slice(s.LabelRun(s.collator.casefold(segments[i].labelKey)), segments[i]))
  }

  lemma SliceOfRange(list: seq<RecordRow>, seg: LabelSegment, n: nat)
    requires 0 <= seg.firstRank && seg.lastRank == seg.firstRank + n - 1 && seg.firstRank + n <= |list|
    ensures Slice(list, seg) == list[seg.firstRank..seg.firstRank + n]
  {
  }

  lemma SegmentRange(s: Shelf, b: int, j: nat)
    requires s.Valid() && 0 <= b < |s.Rows()| && j < |s.BinLabels(b)|
    ensures var seg, key := s.SegmentAt(b, j), s.BinLabels(b)[j];
            seg.firstRank == s.FirstRank(key, b) && seg.lastRank == s.FirstRank(key, b) + |s.Run(key, b)| - 1
  {
  }

  lemma RangeIsRun(s: Shelf, key: string, b: int, seg: LabelSegment)
    requires s.Valid() && b >= 0
    requires seg.firstRank == s.FirstRank(key, b) && seg.lastRank == s.FirstRank(key, b) + |s.Run(key, b)| - 1
    ensures Slice(s.LabelRun(key), seg) == s.Run(key, b)
  {
    RunIsContiguous(s, key, b);
    SliceOfRange(s.LabelRun(key), seg, |s.Run(key, b)|);
  }

  lemma SegmentIsRun(s: Shelf, b: int, j: nat)
    requires s.Valid() && 0 <= b < |s.Rows()| && j < |s.BinLabels(b)|
    ensures Slice(s.LabelRun(s.BinLabels(b)[j]), s.SegmentAt(b, j)) == s.Run(s.BinLabels(b)[j], b)
  {
    SegmentRange(s, b, j);
    RangeIsRun(s, s.BinLabels(b)[j], b, s.SegmentAt(b, j));
  }

  lemma SliceIsRun(s: Shelf, b: int, j: nat)
    requires s.Valid() && 0 <= b < |s.Rows()| && j < |s.BinLabels(b)|
    ensures Slices(s, s.Segments(b))[j] == s.Run(s.BinLabels(b)[j], b)
  {
    SegmentIsRun(s, b, j);
    BinLabelsMean(s, b);
  }

  lemma RunIsClass(s: Shelf, b: int, j: nat)
    requires s.Valid() && j < |s.BinLabels(b)|
    ensures s.Run(s.BinLabels(b)[j], b) ==
              Filter(s.BinRecords(b), InClass(LabelPosition(s, s.BinLabels(b)), j))
  {
    var key, records, cls := s.BinLabels(b)[j], s.BinRecords(b), LabelPosition(s, s.BinLabels(b));
    BinGroup(s, key, b);
    BinLabelsMean(s, b);
    forall r | r in records ensures LabelIs(s.collator, key)(r) == InClass(cls, j)(r) {
      RecordHasLabel(s, b, r);
    }
    FilterSame(records, LabelIs(s.collator, key), InClass(cls, j));
  }

  lemma ClassesJoin(records: seq<RecordRow>, cls: RecordRow -> nat, pieces: seq<seq<RecordRow>>)
    requires forall i, j :: 0 <= i < j < |records| ==> cls(records[i]) <= cls(records[j])
    requires forall j :: 0 <= j < |pieces| ==> pieces[j] == Filter(records, InClass(cls, j))
    requires forall r :: r in records ==> cls(r) < |pieces|
    ensures Flatten(pieces) == records
  {
    PiecesBelow(records, cls, pieces, |pieces|);
    FilterAll(records, BelowClass(cls, |pieces|));
    assert pieces[..|pieces|] == pieces;
  }

  /** Rank ranges are exact: the slices named by a bin's segments, in segment order, are
      exactly the records derive assigned to the bin, in collection order. */
  lemma SlicesAreBinRecords(s: Shelf, b: int)
    requires s.Valid() && 0 <= b < |s.Rows()|
    ensures Flatten(Slices(s, s.BinAt(b).segments)) == s.BinRecords(b)
  {
    var records, cls := s.BinRecords(b), LabelPosition(s, s.BinLabels(b));
    var pieces := Slices(s, s.Segments(b));
    forall i, j | 0 <= i < j < |records| ensures cls(records[i]) <= cls(records[j]) {
      BinIsSortedByLabel(s, b, i, j);
    }
    forall j | 0 <= j < |pieces| ensures pieces[j] == Filter(records, InClass(cls, j)) {
      SliceIsRun(s, b, j);
      RunIsClass(s, b, j);
    }
    forall r | r in records ensures cls(r) < |pieces| {
      RecordHasLabel(s, b, r);
    }
    ClassesJoin(records, cls, pieces);
  }

  /** get_records_in_bin */
  method GetRecordsInBin(bin: SegmentBin, snapshot: CollectionSnapshot, ghost s: Shelf) returns (result: seq<RecordRow>)
    requires s.Valid() && s.collator == snapshot.collator && s.byLabel == snapshot.byLabel
    ensures result == Flatten(Slices(s, bin.segments))
  {
    result := [];
    ghost var pieces := Slices(s, bin.segments);
    for i := 0 to |bin.segments|
      invariant result == Flatten(pieces[..i])
    {
      var seg := bin.segments[i];
      var labelRecords := Sort(snapshot.LabelRecords(seg.labelKey), ByCatalog());
      result := result + Slice(labelRecords, seg);
      FlattenSnoc(pieces, i);
    }
    assert pieces[..|pieces|] == pieces;
  }

  // ── Counts ─────────────────────────────────────────────────────────────────

  function SegmentCounts(segments: seq<LabelSegment>): (r: seq<nat>)
    ensures |r| == |segments|
    ensures forall i :: 0 <= i < |r| ==> r[i] == segments[i].count
  {
    seq(|segments|, i requires 0 <= i < |segments| => segments[i].count)
  }

  /** count_records_in_bin */
  function CountRecordsInBin(bin: SegmentBin): (n: nat) { Total(SegmentCounts(bin.segments)) }

  /** The count read from the segments is the number of records the bin owns. */
  lemma CountIsExact(s: Shelf, b: int)
    requires s.Valid() && 0 <= b < |s.Rows()|
    ensures CountRecordsInBin(s.BinAt(b)) == |s.BinRecords(b)|
    ensures Total(s.Counts(b)) == |s.BinRecords(b)|
  {
    PieceLengths(s, b);
    FlattenCounts(Slices(s, s.Segments(b)), s.Counts(b));
    SlicesAreBinRecords(s, b);
  }

  lemma PieceLengths(s: Shelf, b: int)
    requires s.Valid() && 0 <= b < |s.Rows()|
    ensures var pieces, counts := Slices(s, s.Segments(b)), s.Counts(b);
            && |pieces| == |counts|
            && (forall j :: 0 <= j < |pieces| ==> counts[j] == |pieces[j]|)
            && SegmentCounts(s.Segments(b)) == counts
  {
    var pieces, counts := Slices(s, s.Segments(b)), s.Counts(b);
    forall j | 0 <= j < |pieces| ensures counts[j] == |pieces[j]| && s.SegmentAt(b, j).count == counts[j] {
      SliceIsRun(s, b, j);
    }
  }

  ghost predicate Covered(s: Shelf, r: RecordRow) {
    exists b :: 0 <= b < |s.CutPoints()| && Reaches(s.CutPoints()[b], RecordKey(s.collator, r))
  }

  function CoveredBelow(s: Shelf, n: nat): RecordRow -> bool {
    (r: RecordRow) => 0 <= s.OwnerOf(r) < n
  }

  function BinCounts(s: Shelf, n: nat): (r: seq<nat>)
    requires forall k :: k in s.order ==> k in s.byLabel
    ensures |r| == n
    ensures forall b :: 0 <= b < n ==> r[b] == |s.BinRecords(b)|
  {
    seq(n, b requires 0 <= b < n => |s.BinRecords(b)|)
  }

  lemma {:induction false} CountsAddUp(s: Shelf, n: nat)
    requires s.Valid()
    ensures Total(BinCounts(s, n)) == |Filter(s.Shelved(), CoveredBelow(s, n))|
  {
    var all := s.Shelved();
    if n == 0 {
      FilterNone(all, CoveredBelow(s, 0));
    } else {
      CountsAddUp(s, n - 1);
      assert BinCounts(s, n)[..n - 1] == BinCounts(s, n - 1);
      CountEither(all, CoveredBelow(s, n - 1), s.OwnedBy(n - 1), CoveredBelow(s, n));
    }
  }

  /** No record is lost or counted twice: the bin counts sum to the number of records that do
      not precede every cut, and bins without a cut hold none. */
  lemma BinsPartitionCovered(s: Shelf, covered: RecordRow -> bool)
    requires s.Valid()
    requires forall r :: covered(r) <==> Covered(s, r)
    ensures Total(BinCounts(s, |s.Rows()|)) == |Filter(s.Shelved(), covered)|
    ensures forall b :: 0 <= b < |s.Rows()| && s.CutPoints()[b].None? ==> s.BinRecords(b) == []
  {
    var all, n := s.Shelved(), |s.Rows()|;
    CountsAddUp(s, n);
    forall r ensures CoveredBelow(s, n)(r) == covered(r) {
    }
    FilterSame(all, CoveredBelow(s, n), covered);
    forall b | 0 <= b < n && s.CutPoints()[b].None? ensures s.BinRecords(b) == [] {
      FilterNone(all, s.OwnedBy(b));
    }
  }
}
