/** The estimators (src/gruvax/estimator/algorithm.py and constants.py): cube-only fallback,
    segment-aware two-level interpolation, the frozen index baseline and the dispatcher. */
module Locating {
  import opened Sequences
  import opened Normalize
  import opened Records
  import opened Assignment
  import opened ShelfModel

  datatype CubeRef = CubeRef(unitId: int, row: int, col: int)

  datatype SubInterval = SubInterval(
    cube: CubeRef, start: real, end: real, crossesBoundary: bool, nextCube: Option<CubeRef>)

  datatype LocateResult = LocateResult(
    releaseId: int,
    primaryCube: Option<CubeRef>,
    labelSpan: seq<CubeRef>,
    subCubeInterval: Option<SubInterval>,
    confidence: real,
    estimatorVersion: string)

  const CUBE_ONLY_CONFIDENCE := 0.30
  const NO_BOUNDARY_CONFIDENCE := 0.0
  const POSITION_HALF_WIDTH := 0.05
  const SEGMENT_ESTIMATOR_VERSION := "segment-v1"

  function Min(a: real, b: real): (r: real) { if a <= b then a else b }

  function Max(a: real, b: real): (r: real) { if a >= b then a else b }

  /** compute_confidence */
  function ComputeConfidence(k: int): (r: real) {
    if k <= 1 then CUBE_ONLY_CONFIDENCE
    else if k <= 3 then 0.35 + 0.05 * (k - 2) as real
    else if k <= 10 then Min(0.70, 0.50 + 0.05 * (k - 3) as real)
    else if k <= 30 then Min(0.82, 0.70 + 0.012 * (k - 10) as real)
    else 0.85
  }

  // ── Lookups of SegmentCache ────────────────────────────────────────────────

  predicate SegmentHits(c: Collator, seg: LabelSegment, key: string, rank: int) {
    c.casefold(seg.labelKey) == key && seg.firstRank <= rank <= seg.lastRank
  }

  function FindInBin(c: Collator, segments: seq<LabelSegment>, key: string, rank: int): (r: Option<LabelSegment>) {
    if segments == [] then None
    else if SegmentHits(c, segments[0], key, rank) then Some(segments[0])
    else FindInBin(c, segments[1..], key, rank)
  }

  /** get_segment_for_rank, for a casefolded label: the first hit in bin and segment order. */
  function FindSegment(c: Collator, bins: seq<SegmentBin>, key: string, rank: int): (r: Option<(SegmentBin, LabelSegment)>) {
    if bins == [] then None
    else
      match FindInBin(c, bins[0].segments, key, rank)
      case Some(seg) => Some((bins[0], seg))
      case None => FindSegment(c, bins[1..], key, rank)
  }

  function HasLabel(c: Collator, key: string): SegmentBin -> bool {
    (b: SegmentBin) => exists i :: 0 <= i < |b.segments| && c.casefold(b.segments[i].labelKey) == key
  }

  /** get_bins_for_label */
  function BinsForLabel(c: Collator, bins: seq<SegmentBin>, name: string): (r: seq<SegmentBin>) {
    Filter(bins, HasLabel(c, c.casefold(name)))
  }

  function CubeOf(b: SegmentBin): (r: CubeRef) { CubeRef(b.unitId, b.row, b.col) }

  function CubesOf(bins: seq<SegmentBin>): (r: seq<CubeRef>)
    ensures |r| == |bins|
    ensures forall i :: 0 <= i < |bins| ==> r[i] == CubeOf(bins[i])
  {
    seq(|bins|, i requires 0 <= i < |bins| => CubeOf(bins[i]))
  }

  function ByCube(): (CubeRef, CubeRef) -> bool {
    (a: CubeRef, b: CubeRef) => PlaceLe(a.unitId, a.row, a.col, b.unitId, b.row, b.col)
  }

  /** The cubes holding a label, sorted by coordinates. */
  function LabelSpan(c: Collator, bins: seq<SegmentBin>, name: string): (r: seq<CubeRef>) {
    Sort(CubesOf(BinsForLabel(c, bins, name)), ByCube())
  }

  // ── The snapshot side ──────────────────────────────────────────────────────

  function SortedLabel(c: Collator, byLabel: map<string, seq<RecordRow>>, name: string): (r: seq<RecordRow>) {
    var key := c.casefold(name);
    Sort(if key in byLabel then byLabel[key] else [], ByCatalog())
  }

  function IsRelease(releaseId: int): RecordRow -> bool {
    (r: RecordRow) => r.releaseId == releaseId
  }

  function NoBoundary(releaseId: int): (r: LocateResult) {
    LocateResult(releaseId, None, [], None, NO_BOUNDARY_CONFIDENCE, "cube-only-v1")
  }

  // ── locate_cube_only ───────────────────────────────────────────────────────

  function LocateCubeOnly(c: Collator, bins: seq<SegmentBin>, byLabel: map<string, seq<RecordRow>>,
                          releaseId: int, name: string): (r: LocateResult) {
    var sorted := SortedLabel(c, byLabel, name);
    var rank := FirstIndex(sorted, IsRelease(releaseId));
    if rank == |sorted| then NoBoundary(releaseId)
    else if FindSegment(c, bins, c.casefold(name), rank).None? then NoBoundary(releaseId)
    else
      var covering := LabelSpan(c, bins, name);
      if covering == [] then NoBoundary(releaseId)
      else LocateResult(releaseId, Some(covering[0]), covering, None, CUBE_ONLY_CONFIDENCE, "cube-only-v1")
  }

  // ── locate_by_segment ──────────────────────────────────────────────────────

  /** The fractional position of a record inside its segment. */
  function FractionInSegment(bin: SegmentBin, seg: LabelSegment, rank: int): (f: real) {
    if |bin.segments| > 1 then
      (if seg.count == 0 then 0.0 else ((rank - seg.firstRank) as real + 0.5) / seg.count as real)
    else if seg.count <= 1 then 0.5
    else (rank - seg.firstRank) as real / (seg.count - 1) as real
  }

  /** The point at a fraction of an interval. */
  function PointAt(offset: real, width: real, fraction: real): (p: real) { offset + fraction * width }

  function PositionInCube(bin: SegmentBin, seg: LabelSegment, rank: int): (p: real) {
    PointAt(seg.offset, seg.appliedFraction, FractionInSegment(bin, seg, rank))
  }

  /** _record_band */
  function RecordBand(bin: SegmentBin, seg: LabelSegment, rank: int, labelCount: int): (band: (real, real)) {
    if labelCount == 1 then (0.0, 1.0)
    else
      var position := PositionInCube(bin, seg, rank);
      (Max(0.0, position - POSITION_HALF_WIDTH), Min(1.0, position + POSITION_HALF_WIDTH))
  }

  /** The cube after `cube` in a span, when there is one. */
  function NextInSpan(span: seq<CubeRef>, cube: CubeRef): (r: Option<CubeRef>) {
    var i := FirstIndex(span, (x: CubeRef) => x == cube);
    if i + 1 < |span| then Some(span[i + 1]) else None
  }

  function LocateBySegment(c: Collator, bins: seq<SegmentBin>, byLabel: map<string, seq<RecordRow>>,
                           releaseId: int, name: string): (r: LocateResult) {
    var sorted := SortedLabel(c, byLabel, name);
    var k := |sorted|;
    var rank := FirstIndex(sorted, IsRelease(releaseId));
    if rank == k then LocateCubeOnly(c, bins, byLabel, releaseId, name)
    else
      match FindSegment(c, bins, c.casefold(name), rank)
      case None => LocateCubeOnly(c, bins, byLabel, releaseId, name)
      case Some((bin, seg)) => SegmentResult(c, bins, releaseId, name, bin, seg, rank, k)
  }

  function SegmentResult(c: Collator, bins: seq<SegmentBin>, releaseId: int, name: string,
                         bin: SegmentBin, seg: LabelSegment, rank: int, k: int): (r: LocateResult) {
    var primary := CubeOf(bin);
    var span := LabelSpan(c, bins, name);
    var (start, end) := RecordBand(bin, seg, rank, k);
    var next := if seg.continues && end >= 1.0 then NextInSpan(span, primary) else None;
    LocateResult(releaseId, Some(primary), span,
                 Some(SubInterval(primary, start, end, next.Some?, next)),
                 ComputeConfidence(k), SEGMENT_ESTIMATOR_VERSION)
  }

  // ── locate ─────────────────────────────────────────────────────────────────

  function Locate(c: Collator, bins: seq<SegmentBin>, byLabel: map<string, seq<RecordRow>>,
                  releaseId: int, name: string): (r: LocateResult) {
    var key := c.casefold(name);
    if key !in byLabel || byLabel[key] == [] then
      LocateCubeOnly(c, bins, byLabel, releaseId, name).(estimatorVersion := "cube-only-v1")
    else LocateBySegment(c, bins, byLabel, releaseId, name)
  }

  // ── The frozen baseline ────────────────────────────────────────────────────

  /** _locate_by_index_v1 */
  function LocateByIndexV1(c: Collator, bins: seq<SegmentBin>, byLabel: map<string, seq<RecordRow>>,
                           releaseId: int, name: string): (r: LocateResult) {
    var cubeOnly := LocateCubeOnly(c, bins, byLabel, releaseId, name);
    if cubeOnly.primaryCube.None? then cubeOnly
    else
      var primary, span := cubeOnly.primaryCube.value, cubeOnly.labelSpan;
      var sorted := SortedLabel(c, byLabel, name);
      var k := |sorted|;
      if k == 1 then
        LocateResult(releaseId, Some(primary), span,
                     Some(SubInterval(primary, 0.0, 1.0, false, None)), CUBE_ONLY_CONFIDENCE, "index-v1")
      else
        var idx := FirstIndex(sorted, IsRelease(releaseId));
        if idx == k then cubeOnly
        else
          var f := idx as real / (k - 1) as real;
          LocateResult(releaseId, Some(primary), span, Some(IndexInterval(span, primary, f)),
                       ComputeConfidence(k), "index-v1")
  }

  function IndexInterval(span: seq<CubeRef>, primary: CubeRef, f: real): (r: SubInterval)
    requires 0.0 <= f
  {
    if |span| > 1 then
      var raw := (f * |span| as real).Floor;
      var i := if raw < |span| - 1 then raw else |span| - 1;
      var width := 1.0 / |span| as real;
      var within := (f - i as real * width) / width;
      var start, end := Max(0.0, within - POSITION_HALF_WIDTH), Min(1.0, within + POSITION_HALF_WIDTH);
      var next := if end >= 1.0 && i + 1 < |span| then Some(span[i + 1]) else None;
      SubInterval(span[i], start, end, next.Some?, next)
    else
      SubInterval(primary, Max(0.0, f - POSITION_HALF_WIDTH), Min(1.0, f + POSITION_HALF_WIDTH), false, None)
  }
}
