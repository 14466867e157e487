/** What `locate` answers on a derived cache: its outcomes, that it preserves shelf order, what
    a boundary crossing points to, and its agreement with the frozen index baseline. */
module LocateTheorems {
  import opened Sequences
  import opened Normalize
  import opened Records
  import opened Assignment
  import opened ShelfModel
  import opened LabelRuns
  import opened Partition
  import opened Locating
  import opened Lookup
  import opened Tiling

  // ── Where a release is, by the reference model ─────────────────────────────

  function ListFor(s: Shelf, name: string): (r: seq<RecordRow>) { s.LabelRun(s.collator.casefold(name)) }

  /** The rank of the first copy of a release under a label; the list length when absent. */
  function RankOf(s: Shelf, releaseId: int, name: string): (i: nat)
    ensures i <= |ListFor(s, name)|
  {
    FirstIndex(ListFor(s, name), IsRelease(releaseId))
  }

  /** The bin owning that copy, or -1 when the release is absent or precedes every cut. */
  function BinOf(s: Shelf, releaseId: int, name: string): (b: int)
    ensures -1 <= b < |s.Rows()|
    ensures b >= 0 ==> RankOf(s, releaseId, name) < |ListFor(s, name)|
  {
    var i := RankOf(s, releaseId, name);
    if i == |ListFor(s, name)| then -1 else s.OwnerOf(ListFor(s, name)[i])
  }

  ghost function Answer(s: Shelf, releaseId: int, name: string): (r: LocateResult)
    requires s.Valid()
  {
    Locate(s.collator, s.Bins(), s.byLabel, releaseId, name)
  }

  ghost function SegmentOf(s: Shelf, releaseId: int, name: string): (seg: LabelSegment)
    requires s.Valid() && BinOf(s, releaseId, name) >= 0
  {
    var key := s.collator.casefold(name);
    var b := BinOf(s, releaseId, name);
    OwnerHasSegment(s, key, RankOf(s, releaseId, name));
    s.SegmentAt(b, SegmentIndex(s, b, key))
  }

  /** locate, unfolded: no boundary exactly when the reference model has no bin, the segment
      estimate of the owning bin otherwise; the cube-only answer is never returned. */
  lemma AnswerMeans(s: Shelf, releaseId: int, name: string)
    requires s.Valid()
    ensures var b := BinOf(s, releaseId, name);
            Answer(s, releaseId, name) ==
              if b < 0 then NoBoundary(releaseId)
              else SegmentResult(s.collator, s.Bins(), releaseId, name, s.BinAt(b), SegmentOf(s, releaseId, name),
                                 RankOf(s, releaseId, name), |ListFor(s, name)|)
  {
    var key := s.collator.casefold(name);
    var i := RankOf(s, releaseId, name);
    SortPermutes(s.Group(key), ByCatalog());
    assert SortedLabel(s.collator, s.byLabel, name) == ListFor(s, name);
    if i < |ListFor(s, name)| {
      LookupIsExact(s, key, i);
    }
  }

  // ── Bands ──────────────────────────────────────────────────────────────────

  lemma RatioOrder(x: real, y: real, n: real)
    requires n > 0.0 && 0.0 <= x <= y <= n
    ensures 0.0 <= x / n <= y / n <= 1.0
  {
  }

  lemma FractionsAreOrdered(bin: SegmentBin, seg: LabelSegment, r1: int, r2: int)
    requires seg.lastRank == seg.firstRank + seg.count - 1
    requires seg.firstRank <= r1 <= r2 <= seg.lastRank
    ensures 0.0 <= FractionInSegment(bin, seg, r1) <= FractionInSegment(bin, seg, r2) <= 1.0
  {
    var i, j, n := r1 - seg.firstRank, r2 - seg.firstRank, seg.count;
    if |bin.segments| > 1 {
      RatioOrder(i as real + 0.5, j as real + 0.5, n as real);
    } else if n > 1 {
      RatioOrder(i as real, j as real, (n - 1) as real);
    }
  }

  lemma PointsAreOrdered(o: real, w: real, x: real, y: real)
    requires 0.0 <= x <= y <= 1.0 && w >= 0.0
    ensures o <= PointAt(o, w, x) <= PointAt(o, w, y) <= o + w
  {
    assert 0.0 <= x * w <= y * w <= w;
  }

  /** Positions inside a segment stay inside it and follow rank. */
  lemma PositionsAreOrdered(bin: SegmentBin, seg: LabelSegment, r1: int, r2: int)
    requires seg.lastRank == seg.firstRank + seg.count - 1 && seg.appliedFraction >= 0.0
    requires seg.firstRank <= r1 <= r2 <= seg.lastRank
    ensures seg.offset <= PositionInCube(bin, seg, r1) <= PositionInCube(bin, seg, r2) <= seg.offset + seg.appliedFraction
  {
    FractionsAreOrdered(bin, seg, r1, r2);
    PointsAreOrdered(seg.offset, seg.appliedFraction, FractionInSegment(bin, seg, r1), FractionInSegment(bin, seg, r2));
  }

  lemma HalfWay(o: real, w: real, r: real, n: real)
    requires n > 0.0
    ensures PointAt(o, w, (r + 0.5) / n) == (PointAt(o, w, r / n) + PointAt(o, w, (r + 1.0) / n)) / 2.0
  {
    var x, h := r / n, 0.5 / n;
    assert (r + 0.5) / n == x + h && (r + 1.0) / n == x + 2.0 * h;
    assert (x + h) * w == x * w + h * w;
    assert (x + 2.0 * h) * w == x * w + 2.0 * (h * w);
  }

  lemma Edges(o: real, w: real, m: real)
    requires m > 0.0
    ensures PointAt(o, w, 0.0 / m) == o && PointAt(o, w, m / m) == o + w
  {
    var zero, one := 0.0 / m, m / m;
    assert zero == 0.0 && one == 1.0;
  }

  /** Spacing in a shared bin: the segment is divided evenly and every record sits in the middle
      of its slot. */
  lemma SharedSpacing(bin: SegmentBin, seg: LabelSegment, r: nat)
    requires |bin.segments| > 1 && r < seg.count
    ensures PositionInCube(bin, seg, seg.firstRank + r)
            == (PointAt(seg.offset, seg.appliedFraction, r as real / seg.count as real)
                + PointAt(seg.offset, seg.appliedFraction, (r as real + 1.0) / seg.count as real)) / 2.0
  {
    HalfWay(seg.offset, seg.appliedFraction, r as real, seg.count as real);
  }

  /** Spacing alone in a bin: the first record sits on the left edge of the segment, the last one
      on the right edge. */
  lemma EdgeSpacing(bin: SegmentBin, seg: LabelSegment)
    requires |bin.segments| <= 1 && seg.count > 1
    ensures PositionInCube(bin, seg, seg.firstRank) == seg.offset
    ensures PositionInCube(bin, seg, seg.firstRank + seg.count - 1) == seg.offset + seg.appliedFraction
  {
    Edges(seg.offset, seg.appliedFraction, (seg.count - 1) as real);
  }

  lemma Between(o: real, w: real, r: real, m: real)
    requires m > 0.0
    ensures PointAt(o, w, r / m) == (PointAt(o, w, (r - 1.0) / m) + PointAt(o, w, (r + 1.0) / m)) / 2.0
  {
    var x, h := r / m, 1.0 / m;
    assert (r - 1.0) / m == x - h && (r + 1.0) / m == x + h;
    assert (x - h) * w == x * w - h * w;
    assert (x + h) * w == x * w + h * w;
  }

  /** ... and in between every record sits half way between its two neighbours, wherever in its
      label the cube starts. */
  lemma EvenSpacing(bin: SegmentBin, seg: LabelSegment, r: nat)
    requires |bin.segments| <= 1 && 0 < r < seg.count - 1
    ensures PositionInCube(bin, seg, seg.firstRank + r)
            == (PositionInCube(bin, seg, seg.firstRank + r - 1) + PositionInCube(bin, seg, seg.firstRank + r + 1)) / 2.0
  {
    Between(seg.offset, seg.appliedFraction, r as real, (seg.count - 1) as real);
  }

  /** A single record alone in a bin sits in the middle of its segment. */
  lemma SingleSpacing(bin: SegmentBin, seg: LabelSegment)
    requires |bin.segments| <= 1 && seg.count == 1
    ensures PositionInCube(bin, seg, seg.firstRank) == (seg.offset + (seg.offset + seg.appliedFraction)) / 2.0
  {
  }

  /** The owning segment contains the release's rank, and its edges lie in [0, 1]. */
  lemma OwningSegment(s: Shelf, releaseId: int, name: string)
    requires s.Valid() && s.PositiveOverrides() && BinOf(s, releaseId, name) >= 0
    ensures var seg, i, b := SegmentOf(s, releaseId, name), RankOf(s, releaseId, name), BinOf(s, releaseId, name);
            var j := SegmentIndex(s, b, s.collator.casefold(name));
            && j < |s.BinLabels(b)| && seg == s.SegmentAt(b, j)
            && seg.labelKey == s.collator.casefold(name)
            && seg.lastRank == seg.firstRank + seg.count - 1
            && seg.firstRank <= i <= seg.lastRank
            && seg.appliedFraction >= 0.0 && seg.offset >= 0.0 && seg.offset + seg.appliedFraction <= 1.0
  {
    var key, i, b := s.collator.casefold(name), RankOf(s, releaseId, name), BinOf(s, releaseId, name);
    OwnerHasSegment(s, key, i);
    RunIsContiguous(s, key, b);
    var j := SegmentIndex(s, b, key);
    SegmentEdges(s, b, j, j);
  }

  lemma ConfidenceBounds(k: int)
    ensures 0.30 <= ComputeConfidence(k) <= 0.85
    ensures k >= 2 ==> ComputeConfidence(k) > CUBE_ONLY_CONFIDENCE
  {
  }

  /** More records of a label never lower the confidence. */
  lemma ConfidenceMonotone(k1: int, k2: int)
    requires k1 <= k2
    ensures ComputeConfidence(k1) <= ComputeConfidence(k2)
  {
    ConfidenceBounds(k1);
    ConfidenceBounds(k2);
  }

  /** The calibration of the documentation: its fixed points, and even steps in between. */
  lemma ConfidenceTable(k: int)
    ensures k <= 1 ==> ComputeConfidence(k) == 0.30
    ensures ComputeConfidence(2) == 0.35 && ComputeConfidence(3) == 0.40
    ensures 7 <= k <= 10 ==> ComputeConfidence(k) == 0.70
    ensures 20 <= k <= 30 ==> ComputeConfidence(k) == 0.82
    ensures k > 30 ==> ComputeConfidence(k) == 0.85
    ensures ComputeConfidence(4) == 0.55 && (4 <= k < 7 ==> ComputeConfidence(k + 1) == ComputeConfidence(k) + 0.05)
    ensures 10 <= k < 20 ==> ComputeConfidence(k + 1) == ComputeConfidence(k) + 0.012
  {
    assert 4 <= k <= 10 ==> 0.50 + 0.05 * (k - 3) as real == 0.35 + 0.05 * k as real;
  }

  // ── Exactly two outcomes ───────────────────────────────────────────────────

  lemma SpanContains(s: Shelf, b: int, name: string)
    requires s.Valid() && 0 <= b < |s.Rows()|
    requires s.Run(s.collator.casefold(name), b) != []
    ensures CubeOf(s.BinAt(b)) in LabelSpan(s.collator, s.Bins(), name)
  {
    var c, bins, key := s.collator, s.Bins(), s.collator.casefold(name);
    HasLabelMeans(s, b, key);
    assert bins[b] in bins;
    FilterMember(bins, HasLabel(c, key), s.BinAt(b));
    var found := BinsForLabel(c, bins, name);
    var n :| 0 <= n < |found| && found[n] == s.BinAt(b);
    assert CubesOf(found)[n] in CubesOf(found);
    SortPermutes(CubesOf(found), ByCube());
  }

  /** A band around a position of the cube is a proper sub-interval at least 0.05 wide. */
  lemma BandIsProper(bin: SegmentBin, seg: LabelSegment, rank: int, k: int)
    requires 0.0 <= PositionInCube(bin, seg, rank) <= 1.0
    ensures var (start, end) := RecordBand(bin, seg, rank, k);
            0.0 <= start < end <= 1.0 && end - start >= 0.05
  {
  }

  lemma AbsentOrUncovered(s: Shelf, releaseId: int, name: string)
    requires s.Valid()
    ensures BinOf(s, releaseId, name) < 0 <==>
              (forall r :: r in s.Group(s.collator.casefold(name)) ==> r.releaseId != releaseId)
              || (RankOf(s, releaseId, name) < |ListFor(s, name)| && !Covered(s, ListFor(s, name)[RankOf(s, releaseId, name)]))
  {
    var i, list := RankOf(s, releaseId, name), ListFor(s, name);
    var key := s.collator.casefold(name);
    SortPermutes(s.Group(key), ByCatalog());
    if i < |list| {
      assert list[i] in s.Group(key) && list[i].releaseId == releaseId;
    } else {
      forall r | r in s.Group(key) ensures r.releaseId != releaseId {
        var n :| 0 <= n < |list| && list[n] == r;
        assert !IsRelease(releaseId)(list[n]);
      }
    }
  }

  /** A located release: the primary cube is the bin's, it is in the span, and the band and the
      confidence are in range. */
  ghost predicate Located(r: LocateResult, releaseId: int, cube: CubeRef) {
    && r.releaseId == releaseId
    && r.primaryCube == Some(cube)
    && cube in r.labelSpan
    && r.subCubeInterval.Some?
    && r.subCubeInterval.value.cube == cube
    && 0.0 <= r.subCubeInterval.value.start < r.subCubeInterval.value.end <= 1.0
    && r.subCubeInterval.value.end - r.subCubeInterval.value.start >= 0.05
    && 0.30 <= r.confidence <= 0.85
    && r.estimatorVersion == "segment-v1"
  }

  lemma SegmentResultLocated(c: Collator, bins: seq<SegmentBin>, releaseId: int, name: string,
                             bin: SegmentBin, seg: LabelSegment, rank: int, k: int)
    requires 0.0 <= PositionInCube(bin, seg, rank) <= 1.0 && CubeOf(bin) in LabelSpan(c, bins, name)
    ensures Located(SegmentResult(c, bins, releaseId, name, bin, seg, rank, k), releaseId, CubeOf(bin))
  {
    BandIsProper(bin, seg, rank, k);
    ConfidenceBounds(k);
  }

  lemma OwnerIsInSpan(s: Shelf, releaseId: int, name: string)
    requires s.Valid() && BinOf(s, releaseId, name) >= 0
    ensures CubeOf(s.BinAt(BinOf(s, releaseId, name))) in LabelSpan(s.collator, s.Bins(), name)
  {
    var b, list := BinOf(s, releaseId, name), ListFor(s, name);
    FilterMember(list, s.OwnedBy(b), list[RankOf(s, releaseId, name)]);
    SpanContains(s, b, name);
  }

  /** Nothing is located exactly when the release is absent under the label or precedes every
      cut; otherwise the primary cube is the bin owning the release's first copy, it is in the
      span, the band is a proper sub-interval at least 0.05 wide and the confidence is in range. */
  lemma LocateOutcomes(s: Shelf, releaseId: int, name: string)
    requires s.Valid() && s.PositiveOverrides()
    ensures var r, b := Answer(s, releaseId, name), BinOf(s, releaseId, name);
            if b < 0 then r == LocateResult(releaseId, None, [], None, 0.0, "cube-only-v1")
            else
              && Located(r, releaseId, CubeRef(s.Rows()[b].unitId, s.Rows()[b].row, s.Rows()[b].col))
              && r.confidence == ComputeConfidence(|ListFor(s, name)|)
    ensures BinOf(s, releaseId, name) < 0 <==>
              (forall r :: r in s.Group(s.collator.casefold(name)) ==> r.releaseId != releaseId)
              || (RankOf(s, releaseId, name) < |ListFor(s, name)| && !Covered(s, ListFor(s, name)[RankOf(s, releaseId, name)]))
  {
    var b, i := BinOf(s, releaseId, name), RankOf(s, releaseId, name);
    AbsentOrUncovered(s, releaseId, name);
    AnswerMeans(s, releaseId, name);
    if b >= 0 {
      var seg := SegmentOf(s, releaseId, name);
      OwningSegment(s, releaseId, name);
      PositionsAreOrdered(s.BinAt(b), seg, i, i);
      OwnerIsInSpan(s, releaseId, name);
      SegmentResultLocated(s.collator, s.Bins(), releaseId, name, s.BinAt(b), seg, i, |ListFor(s, name)|);
    }
  }

  // ── Where the band is ──────────────────────────────────────────────────────

  /** The band of a record that sits at `center` of its cube: 0.05 to either side, cut off at the
      edges of the cube. */
  ghost predicate CenteredAt(r: LocateResult, center: real) {
    && r.subCubeInterval.Some?
    && r.subCubeInterval.value.start == (if center < 0.05 then 0.0 else center - 0.05)
    && r.subCubeInterval.value.end == (if center > 0.95 then 1.0 else center + 0.05)
  }

  lemma InSlice(list: seq<RecordRow>, owned: RecordRow -> bool, lo: nat, part: seq<RecordRow>, i: nat)
    requires IsSlice(list, owned, lo, part) && i < |list| && owned(list[i])
    ensures i >= lo && i - lo < |part| && part[i - lo] == list[i]
  {
  }

  /** A release's label, bin and rank, and its place `r` among the `n` records its label has there. */
  ghost predicate SitsAt(s: Shelf, releaseId: int, name: string, b: int, r: nat, n: nat)
    requires s.Valid()
  {
    var key := s.collator.casefold(name);
    && b == BinOf(s, releaseId, name) && b >= 0
    && n == |s.Run(key, b)| && r < n
    && s.Run(key, b)[r] == ListFor(s, name)[RankOf(s, releaseId, name)]
    && s.FirstRank(key, b) + r == RankOf(s, releaseId, name)
  }

  lemma PlaceOf(s: Shelf, key: string, b: int, i: nat) returns (r: nat, n: nat)
    requires s.Valid() && i < |s.LabelRun(key)| && s.OwnerOf(s.LabelRun(key)[i]) == b >= 0
    ensures n == |s.Run(key, b)| && r < n && s.Run(key, b)[r] == s.LabelRun(key)[i] && s.FirstRank(key, b) + r == i
  {
    RunIsSlice(s, key, b);
    InSlice(s.LabelRun(key), s.OwnedBy(b), s.FirstRank(key, b), s.Run(key, b), i);
    r, n := i - s.FirstRank(key, b), |s.Run(key, b)|;
  }

  /** Every located release sits somewhere. */
  lemma FindPlace(s: Shelf, releaseId: int, name: string) returns (r: nat, n: nat)
    requires s.Valid() && BinOf(s, releaseId, name) >= 0
    ensures var sits := SitsAt(s, releaseId, name, BinOf(s, releaseId, name), r, n); sits
  {
    var key, b, i := s.collator.casefold(name), BinOf(s, releaseId, name), RankOf(s, releaseId, name);
    r, n := PlaceOf(s, key, b, i);
  }

  lemma SegmentCounts(s: Shelf, key: string, b: int, j: nat, seg: LabelSegment)
    requires s.Valid() && 0 <= b < |s.Rows()| && j < |s.BinLabels(b)| && s.BinLabels(b)[j] == key && seg == s.SegmentAt(b, j)
    ensures seg.firstRank == s.FirstRank(key, b) && seg.count == |s.Run(key, b)|
  {
  }

  lemma SegmentPlace(s: Shelf, releaseId: int, name: string, b: int, r: nat, n: nat) returns (j: nat, seg: LabelSegment)
    requires s.Valid() && SitsAt(s, releaseId, name, b, r, n)
    ensures seg == SegmentOf(s, releaseId, name) && seg.firstRank + r == RankOf(s, releaseId, name) && seg.count == n
    ensures j < |s.BinLabels(b)| && seg == s.SegmentAt(b, j)
  {
    var key := s.collator.casefold(name);
    OwnerHasSegment(s, key, RankOf(s, releaseId, name));
    j := SegmentIndex(s, b, key);
    seg := s.SegmentAt(b, j);
    SegmentCounts(s, key, b, j, seg);
  }

  /** The r-th of n points spread evenly over [0, 1], end points included; the middle for a single one. */
  function Spread(r: nat, n: nat): (x: real)
    requires n > 0
  {
    if n == 1 then 0.5 else r as real / (n - 1) as real
  }

  /** The middle of the r-th of n even slots of a segment. */
  function SlotMiddle(seg: LabelSegment, r: nat, n: nat): (x: real)
    requires n > 0
  {
    seg.offset + ((2 * r + 1) as real / (2 * n) as real) * seg.appliedFraction
  }

  lemma WholeCube(seg: LabelSegment, bin: SegmentBin, r: nat, n: nat, rank: int)
    requires |bin.segments| == 1 && seg.offset == 0.0 && seg.appliedFraction == 1.0
    requires r < n == seg.count && rank == seg.firstRank + r
    ensures PositionInCube(bin, seg, rank) == Spread(r, n)
  {
    var f := FractionInSegment(bin, seg, rank);
    assert 0.0 + f * 1.0 == f;
  }

  lemma HalfSlot(r: nat, n: nat)
    requires n > 0
    ensures (r as real + 0.5) / n as real == (2 * r + 1) as real / (2 * n) as real
  {
  }

  lemma InSlot(seg: LabelSegment, bin: SegmentBin, r: nat, n: nat, rank: int)
    requires |bin.segments| > 1 && r < n == seg.count && rank == seg.firstRank + r
    ensures PositionInCube(bin, seg, rank) == SlotMiddle(seg, r, n)
  {
    HalfSlot(r, n);
  }

  lemma SegmentNumber(s: Shelf, b: int, bin: SegmentBin)
    requires s.Valid() && 0 <= b < |s.Rows()| && bin == s.BinAt(b)
    ensures |bin.segments| == |s.BinLabels(b)|
  {
  }

  lemma BandIsCentered(s: Shelf, releaseId: int, name: string, bin: SegmentBin, seg: LabelSegment, center: real)
    requires s.Valid() && BinOf(s, releaseId, name) >= 0 && bin == s.BinAt(BinOf(s, releaseId, name))
    requires seg == SegmentOf(s, releaseId, name) && center == PositionInCube(bin, seg, RankOf(s, releaseId, name))
    requires |ListFor(s, name)| > 1
    ensures var centered := CenteredAt(Answer(s, releaseId, name), center); centered
  {
    AnswerMeans(s, releaseId, name);
  }

  /** The only record of its label may be anywhere in its cube: the band is all of it. */
  lemma OnlyRecordFillsCube(s: Shelf, releaseId: int, name: string)
    requires s.Valid() && BinOf(s, releaseId, name) >= 0 && |ListFor(s, name)| == 1
    ensures Answer(s, releaseId, name).subCubeInterval.Some?
    ensures Answer(s, releaseId, name).subCubeInterval.value.start == 0.0 && Answer(s, releaseId, name).subCubeInterval.value.end == 1.0
  {
    AnswerMeans(s, releaseId, name);
  }

  /** A label alone in a cube is spread evenly over all of it, whether it started in an earlier cube
      or goes on in a later one: the first of its n records is centered on the left edge, the last
      on the right edge, the r-th on r / (n - 1). */
  lemma SpreadEvenly(s: Shelf, releaseId: int, name: string, b: int, r: nat, n: nat)
    requires s.Valid() && s.PositiveOverrides() && SitsAt(s, releaseId, name, b, r, n)
    requires |s.BinLabels(b)| == 1 && |ListFor(s, name)| > 1
    ensures var centered := CenteredAt(Answer(s, releaseId, name), Spread(r, n)); centered
  {
    var j, seg := SegmentPlace(s, releaseId, name, b, r, n);
    var bin, rank := s.BinAt(b), RankOf(s, releaseId, name);
    SegmentNumber(s, b, bin);
    OnlySegmentFillsBin(s, b);
    WholeCube(seg, bin, r, n, rank);
    BandIsCentered(s, releaseId, name, bin, seg, Spread(r, n));
  }

  /** In a shared cube the label's part of it is divided into n even slots and the r-th record is
      centered in the r-th slot. */
  lemma SlotCentered(s: Shelf, releaseId: int, name: string, b: int, r: nat, n: nat)
    requires s.Valid() && SitsAt(s, releaseId, name, b, r, n)
    requires |s.BinLabels(b)| > 1 && |ListFor(s, name)| > 1
    ensures var centered := CenteredAt(Answer(s, releaseId, name), SlotMiddle(SegmentOf(s, releaseId, name), r, n)); centered
  {
    var j, seg := SegmentPlace(s, releaseId, name, b, r, n);
    var bin, rank := s.BinAt(b), RankOf(s, releaseId, name);
    SegmentNumber(s, b, bin);
    InSlot(seg, bin, r, n, rank);
    BandIsCentered(s, releaseId, name, bin, seg, SlotMiddle(seg, r, n));
  }

  // ── Order preservation ─────────────────────────────────────────────────────

  function FirstCopy(s: Shelf, releaseId: int, name: string): (r: RecordRow)
    requires BinOf(s, releaseId, name) >= 0
  {
    ListFor(s, name)[RankOf(s, releaseId, name)]
  }

  /** Shelf order on located releases: by (label key, catalog key), then by rank. */
  ghost predicate Precedes(s: Shelf, idA: int, nameA: string, idB: int, nameB: string)
    requires BinOf(s, idA, nameA) >= 0 && BinOf(s, idB, nameB) >= 0
  {
    var a, b := RecordKey(s.collator, FirstCopy(s, idA, nameA)), RecordKey(s.collator, FirstCopy(s, idB, nameB));
    CutLe(a, b) && (a == b ==> RankOf(s, idA, nameA) <= RankOf(s, idB, nameB))
  }

  lemma CopyLabel(s: Shelf, releaseId: int, name: string)
    requires s.Valid() && BinOf(s, releaseId, name) >= 0
    ensures s.collator.casefold(FirstCopy(s, releaseId, name).labelName) == s.collator.casefold(name)
  {
    RunMembers(s, s.collator.casefold(name), FirstCopy(s, releaseId, name));
  }

  lemma PrecedesByRank(s: Shelf, idA: int, nameA: string, idB: int, nameB: string)
    requires s.Valid() && BinOf(s, idA, nameA) >= 0 && BinOf(s, idB, nameB) >= 0
    requires Precedes(s, idA, nameA, idB, nameB)
    requires s.collator.casefold(nameA) == s.collator.casefold(nameB)
    ensures RankOf(s, idA, nameA) <= RankOf(s, idB, nameB)
  {
    var i, j := RankOf(s, idA, nameA), RankOf(s, idB, nameB);
    if j < i {
      RunIsOrdered(s, s.collator.casefold(nameA), j, i);
      CutOrder(RecordKey(s.collator, FirstCopy(s, idA, nameA)), RecordKey(s.collator, FirstCopy(s, idB, nameB)),
               RecordKey(s.collator, FirstCopy(s, idB, nameB)));
    }
  }

  lemma PrecedesBySegment(s: Shelf, idA: int, nameA: string, idB: int, nameB: string)
    requires s.Valid() && BinOf(s, idA, nameA) == BinOf(s, idB, nameB) >= 0
    requires Precedes(s, idA, nameA, idB, nameB)
    requires s.collator.casefold(nameA) != s.collator.casefold(nameB)
    ensures var b := BinOf(s, idA, nameA);
            SegmentIndex(s, b, s.collator.casefold(nameA)) < SegmentIndex(s, b, s.collator.casefold(nameB)) < |s.BinLabels(b)|
  {
    var c, b := s.collator, BinOf(s, idA, nameA);
    var ka, kb, labels := c.casefold(nameA), c.casefold(nameB), s.BinLabels(b);
    OwnerHasSegment(s, ka, RankOf(s, idA, nameA));
    OwnerHasSegment(s, kb, RankOf(s, idB, nameB));
    CopyLabel(s, idA, nameA);
    CopyLabel(s, idB, nameB);
    BinLabelsMean(s, b);
    var ia, ib := SegmentIndex(s, b, ka), SegmentIndex(s, b, kb);
    assert ia != ib;
    LabelOrder(c.KeyOf(ka), c.KeyOf(kb), c.KeyOf(kb));
    assert LabelLe(c.KeyOf(ka), c.KeyOf(kb)) && c.KeyOf(ka) != c.KeyOf(kb);
    assert Ordered(labels, ByLabel(c));
  }

  /** Bands follow shelf order inside one bin, within a segment and across segments. */
  lemma BandsFollowOrder(s: Shelf, idA: int, nameA: string, idB: int, nameB: string)
    requires s.Valid() && s.PositiveOverrides()
    requires BinOf(s, idA, nameA) == BinOf(s, idB, nameB) >= 0
    requires Precedes(s, idA, nameA, idB, nameB)
    ensures var bin := s.BinAt(BinOf(s, idA, nameA));
            PositionInCube(bin, SegmentOf(s, idA, nameA), RankOf(s, idA, nameA))
              <= PositionInCube(bin, SegmentOf(s, idB, nameB), RankOf(s, idB, nameB))
  {
    var b := BinOf(s, idA, nameA);
    var bin, i, j := s.BinAt(b), RankOf(s, idA, nameA), RankOf(s, idB, nameB);
    var ka, kb := s.collator.casefold(nameA), s.collator.casefold(nameB);
    OwningSegment(s, idA, nameA);
    OwningSegment(s, idB, nameB);
    if ka == kb {
      PrecedesByRank(s, idA, nameA, idB, nameB);
      PositionsAreOrdered(bin, SegmentOf(s, idA, nameA), i, j);
    } else {
      PrecedesBySegment(s, idA, nameA, idB, nameB);
      SegmentEdges(s, b, SegmentIndex(s, b, ka), SegmentIndex(s, b, kb));
      PositionsAreOrdered(bin, SegmentOf(s, idA, nameA), i, i);
      PositionsAreOrdered(bin, SegmentOf(s, idB, nameB), j, j);
    }
  }

  /** Cube coordinates are a primary key of the boundary rows. */
  ghost predicate DistinctPlaces(boundaries: seq<BoundaryRow>) {
    forall i, j :: 0 <= i < j < |boundaries| ==> !SamePlace(boundaries[i])(boundaries[j])
  }

  function SamePlace(a: BoundaryRow): BoundaryRow -> bool {
    (b: BoundaryRow) => a.unitId == b.unitId && a.row == b.row && a.col == b.col
  }

  lemma {:induction false} AtMostOne<T>(x: seq<T>, p: T -> bool)
    requires forall i, j :: 0 <= i < j < |x| ==> !(p(x[i]) && p(x[j]))
    ensures |Filter(x, p)| <= 1
  {
    if x != [] {
      AtMostOne(x[1..], p);
      if p(x[0]) {
        FilterNone(x[1..], p);
      }
    }
  }

  lemma {:induction false} AtLeastTwo<T>(x: seq<T>, p: T -> bool, i: nat, j: nat)
    requires i < j < |x| && p(x[i]) && p(x[j])
    ensures |Filter(x, p)| >= 2
  {
    if i == 0 {
      FilterMember(x[1..], p, x[j]);
      assert x[1..][j - 1] == x[j];
    } else {
      AtLeastTwo(x[1..], p, i - 1, j - 1);
    }
  }

  lemma RowsAreDistinct(s: Shelf, i: nat, j: nat)
    requires DistinctPlaces(s.boundaries) && i < j < |s.Rows()|
    ensures !SamePlace(s.Rows()[i])(s.Rows()[j])
  {
    var p := SamePlace(s.Rows()[i]);
    if p(s.Rows()[j]) {
      RecordOrders(s.collator);
      FilterSort(s.boundaries, ByPlace(), p);
      SortPermutes(Filter(s.boundaries, p), ByPlace());
      AtLeastTwo(s.Rows(), p, i, j);
      forall m, n | 0 <= m < n < |s.boundaries| ensures !(p(s.boundaries[m]) && p(s.boundaries[n])) {
        assert !SamePlace(s.boundaries[m])(s.boundaries[n]);
      }
      AtMostOne(s.boundaries, p);
    }
  }

  lemma CubesAreDistinct(s: Shelf, i: nat, j: nat)
    requires s.Valid() && DistinctPlaces(s.boundaries) && i < |s.Rows()| && j < |s.Rows()|
    requires CubeOf(s.BinAt(i)) == CubeOf(s.BinAt(j))
    ensures i == j
  {
    if i < j { RowsAreDistinct(s, i, j); }
    if j < i { RowsAreDistinct(s, j, i); }
  }

  /** A band no later than another, as far as start and end go. */
  ghost predicate NoLater(a: LocateResult, b: LocateResult) {
    && a.subCubeInterval.Some? && b.subCubeInterval.Some?
    && a.subCubeInterval.value.start <= b.subCubeInterval.value.start
    && a.subCubeInterval.value.end <= b.subCubeInterval.value.end
  }

  lemma PositionsOrderBands(c: Collator, bins: seq<SegmentBin>, idA: int, nameA: string, idB: int, nameB: string,
                            bin: SegmentBin, segA: LabelSegment, segB: LabelSegment, i: int, j: int, ka: int, kb: int)
    requires ka >= 2 && kb >= 2 && PositionInCube(bin, segA, i) <= PositionInCube(bin, segB, j)
    ensures NoLater(SegmentResult(c, bins, idA, nameA, bin, segA, i, ka), SegmentResult(c, bins, idB, nameB, bin, segB, j, kb))
  {
  }

  lemma AnswerCube(s: Shelf, releaseId: int, name: string)
    requires s.Valid() && BinOf(s, releaseId, name) >= 0
    ensures Answer(s, releaseId, name).primaryCube == Some(CubeOf(s.BinAt(BinOf(s, releaseId, name))))
  {
    AnswerMeans(s, releaseId, name);
  }

  lemma BandsInOneBin(s: Shelf, idA: int, nameA: string, idB: int, nameB: string)
    requires s.Valid() && s.PositiveOverrides()
    requires BinOf(s, idA, nameA) == BinOf(s, idB, nameB) >= 0
    requires |ListFor(s, nameA)| >= 2 && |ListFor(s, nameB)| >= 2
    requires Precedes(s, idA, nameA, idB, nameB)
    ensures NoLater(Answer(s, idA, nameA), Answer(s, idB, nameB))
  {
    var bin := s.BinAt(BinOf(s, idA, nameA));
    BandsFollowOrder(s, idA, nameA, idB, nameB);
    PositionsOrderBands(s.collator, s.Bins(), idA, nameA, idB, nameB, bin, SegmentOf(s, idA, nameA), SegmentOf(s, idB, nameB),
                        RankOf(s, idA, nameA), RankOf(s, idB, nameB), |ListFor(s, nameA)|, |ListFor(s, nameB)|);
    AnswerMeans(s, idA, nameA);
    AnswerMeans(s, idB, nameB);
  }

  /** Locating preserves shelf order end to end: a release that precedes another is located in
      a bin whose cut is no greater, and in one cube its band starts and ends no later. Labels
      with a single record, which get the full-cube band, are excluded. */
  lemma LocatePreservesOrder(s: Shelf, idA: int, nameA: string, idB: int, nameB: string)
    requires s.Valid() && s.PositiveOverrides() && DistinctPlaces(s.boundaries)
    requires BinOf(s, idA, nameA) >= 0 && BinOf(s, idB, nameB) >= 0
    requires |ListFor(s, nameA)| >= 2 && |ListFor(s, nameB)| >= 2
    requires Precedes(s, idA, nameA, idB, nameB)
    ensures CutLe(s.CutPoints()[BinOf(s, idA, nameA)].value, s.CutPoints()[BinOf(s, idB, nameB)].value)
    ensures Answer(s, idA, nameA).primaryCube == Some(CubeOf(s.BinAt(BinOf(s, idA, nameA))))
    ensures Answer(s, idA, nameA).primaryCube == Answer(s, idB, nameB).primaryCube ==>
              NoLater(Answer(s, idA, nameA), Answer(s, idB, nameB))
  {
    AnswerCube(s, idA, nameA);
    AnswerCube(s, idB, nameB);
    OwnerIsMonotone(s.CutPoints(), RecordKey(s.collator, FirstCopy(s, idA, nameA)), RecordKey(s.collator, FirstCopy(s, idB, nameB)));
    if Answer(s, idA, nameA).primaryCube == Answer(s, idB, nameB).primaryCube {
      CubesAreDistinct(s, BinOf(s, idA, nameA), BinOf(s, idB, nameB));
      BandsInOneBin(s, idA, nameA, idB, nameB);
    }
  }
}
