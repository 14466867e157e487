/** The segments of every non-empty bin tile [0, 1] for every legal override map. */
module Tiling {
  import opened Sequences
  import opened Normalize
  import opened Records
  import opened ShelfModel
  import opened Widths
  import opened LabelRuns
  import opened Partition

  lemma {:induction false} OverrideIsListed(c: Collator, overrides: seq<WidthOverride>, row: BoundaryRow, key: string)
    ensures var f := OverrideFor(c, overrides, row, key);
            f.Some? ==> exists o :: o in overrides && Matches(c, o, row, key) && o.fraction == f.value
  {
    if overrides != [] {
      if Matches(c, overrides[0], row, key) {
        assert overrides[0] in overrides;
      } else {
        OverrideIsListed(c, overrides[1..], row, key);
      }
    }
  }

  lemma ActiveArePositive(s: Shelf, b: int)
    requires s.Valid() && s.PositiveOverrides() && 0 <= b < |s.Rows()|
    ensures forall n :: 0 <= n < |s.Active(b)| && s.Active(b)[n].Some? ==> s.Active(b)[n].value > 0.0
  {
    forall n | 0 <= n < |s.Active(b)| && s.Active(b)[n].Some? ensures s.Active(b)[n].value > 0.0 {
      OverrideIsListed(s.collator, s.overrides, s.Rows()[b], s.BinLabels(b)[n]);
    }
  }

  ghost predicate Tiles(widths: seq<real>, offsets: seq<real>) {
    && |offsets| == |widths|
    && (forall j :: 0 <= j < |widths| ==> widths[j] >= 0.0)
    && (forall j :: 0 <= j < |widths| ==> offsets[j] == Sum(widths[..j]))
    && Sum(widths) == 1.0
  }

  function Offsets(segments: seq<LabelSegment>): (r: seq<real>)
    ensures |r| == |segments|
    ensures forall j :: 0 <= j < |r| ==> r[j] == segments[j].offset
  {
    seq(|segments|, j requires 0 <= j < |segments| => segments[j].offset)
  }

  function AppliedOf(segments: seq<LabelSegment>): (r: seq<real>)
    ensures |r| == |segments|
    ensures forall j :: 0 <= j < |r| ==> r[j] == segments[j].appliedFraction
  {
    seq(|segments|, j requires 0 <= j < |segments| => segments[j].appliedFraction)
  }

  lemma FractionsTile(s: Shelf, b: int)
    requires s.Valid() && s.PositiveOverrides() && 0 <= b < |s.Rows()| && s.BinRecords(b) != []
    ensures !Degenerate(s.Counts(b), s.Active(b))
    ensures Sum(s.Fractions(b)) == 1.0
    ensures forall j :: 0 <= j < |s.Fractions(b)| ==> s.Fractions(b)[j] >= 0.0
  {
    ActiveArePositive(s, b);
    PositiveOverridesAreSafe(s.Counts(b), s.Active(b));
    CountIsExact(s, b);
    AppliedSumsToOne(s.Counts(b), s.Active(b));
  }

  /** Whatever positive overrides apply, including bins that are fully overridden and overrides
      that sum past 1, the segments of a non-empty bin tile [0, 1]. */
  lemma SegmentsTile(s: Shelf, b: int)
    requires s.Valid() && s.PositiveOverrides() && 0 <= b < |s.Rows()| && s.BinRecords(b) != []
    ensures Tiles(AppliedOf(s.BinAt(b).segments), Offsets(s.BinAt(b).segments))
  {
    FractionsTile(s, b);
    var segments := s.Segments(b);
    assert AppliedOf(segments) == s.Fractions(b);
  }

  /** A segment starts where the earlier ones end and stays inside the cube. */
  lemma SegmentEdges(s: Shelf, b: int, i: nat, j: nat)
    requires s.Valid() && s.PositiveOverrides() && 0 <= b < |s.Rows()| && i <= j < |s.BinLabels(b)|
    ensures s.SegmentAt(b, i).offset >= 0.0 && s.SegmentAt(b, i).appliedFraction >= 0.0
    ensures s.SegmentAt(b, j).offset + s.SegmentAt(b, j).appliedFraction <= 1.0
    ensures i < j ==> s.SegmentAt(b, i).offset + s.SegmentAt(b, i).appliedFraction <= s.SegmentAt(b, j).offset
  {
    LabelsNeedRecords(s, b);
    FractionsTile(s, b);
    PrefixEdges(s.Fractions(b), i, j);
  }

  lemma PrefixEdges(w: seq<real>, i: nat, j: nat)
    requires i <= j < |w| && forall n :: 0 <= n < |w| ==> w[n] >= 0.0
    ensures Sum(w[..i]) >= 0.0
    ensures Sum(w[..j]) + w[j] <= Sum(w)
    ensures i < j ==> Sum(w[..i]) + w[i] <= Sum(w[..j])
  {
    SumMonotone(w, 0, i);
    SumStep(w, i);
    SumStep(w, j);
    SumMonotone(w, j + 1, |w|);
    assert w[..|w|] == w;
    if i < j { SumMonotone(w, i + 1, j); }
  }

  lemma SumStep(w: seq<real>, i: nat)
    requires i < |w|
    ensures Sum(w[..i + 1]) == Sum(w[..i]) + w[i]
  {
    assert w[..i + 1][..i] == w[..i];
  }

  lemma LabelsNeedRecords(s: Shelf, b: int)
    requires s.Valid()
    ensures s.BinLabels(b) != [] <==> s.BinRecords(b) != []
  {
    SortPermutes(Seen(s.collator, s.BinRecords(b)), ByLabel(s.collator));
    SeenMeans(s.collator, s.BinRecords(b));
    var records := s.BinRecords(b);
    if records != [] {
      assert records[0] in records;
      assert s.collator.casefold(records[0].labelName) in Seen(s.collator, records);
    }
  }

  /** A label alone in its bin fills it, whatever width was asked for. */
  lemma OnlySegmentFillsBin(s: Shelf, b: int)
    requires s.Valid() && s.PositiveOverrides() && 0 <= b < |s.Rows()| && |s.BinLabels(b)| == 1
    ensures s.SegmentAt(b, 0).offset == 0.0 && s.SegmentAt(b, 0).appliedFraction == 1.0
  {
    LabelsNeedRecords(s, b);
    FractionsTile(s, b);
    var w := s.Fractions(b);
    assert |w| == 1;
    SumStep(w, 0);
    assert w[..1] == w;
  }
}
