/** The rank lookup agrees with the assignment: every rank of a covered record lies in exactly
    one segment of its label, so the first hit is the only hit. */
module Lookup {
  import opened Sequences
  import opened Normalize
  import opened Records
  import opened Assignment
  import opened ShelfModel
  import opened LabelRuns
  import opened Partition
  import opened Locating

  lemma {:induction false} FindInBinUnique(c: Collator, segments: seq<LabelSegment>, key: string, rank: int, j: int)
    requires forall i :: 0 <= i < |segments| ==> (SegmentHits(c, segments[i], key, rank) <==> i == j)
    ensures FindInBin(c, segments, key, rank) == if 0 <= j < |segments| then Some(segments[j]) else None
  {
    if segments != [] && !SegmentHits(c, segments[0], key, rank) {
      forall i | 0 <= i < |segments[1..]| ensures SegmentHits(c, segments[1..][i], key, rank) <==> i == j - 1 {
        assert segments[1..][i] == segments[i + 1];
      }
      FindInBinUnique(c, segments[1..], key, rank, j - 1);
    }
  }

  lemma {:induction false} FindSegmentUnique(c: Collator, bins: seq<SegmentBin>, key: string, rank: int, b: int, j: int)
    requires forall n :: 0 <= n < |bins| && n != b ==> FindInBin(c, bins[n].segments, key, rank).None?
    requires 0 <= b < |bins| ==> 0 <= j < |bins[b].segments| && FindInBin(c, bins[b].segments, key, rank) == Some(bins[b].segments[j])
    ensures FindSegment(c, bins, key, rank) == if 0 <= b < |bins| then Some((bins[b], bins[b].segments[j])) else None
  {
    if bins != [] && b != 0 {
      forall n | 0 <= n < |bins[1..]| ensures bins[1..][n] == bins[n + 1] { }
      FindSegmentUnique(c, bins[1..], key, rank, b - 1, j);
    }
  }

  /** A segment's rank range contains a rank exactly when the bin owns the record at it. */
  lemma HitMeans(s: Shelf, b: int, j: nat, key: string, i: nat)
    requires s.Valid() && 0 <= b < |s.Rows()| && j < |s.BinLabels(b)| && i < |s.LabelRun(key)|
    ensures SegmentHits(s.collator, s.SegmentAt(b, j), key, i) <==>
              s.BinLabels(b)[j] == key && s.OwnerOf(s.LabelRun(key)[i]) == b
  {
    BinLabelsMean(s, b);
    RunIsContiguous(s, s.BinLabels(b)[j], b);
  }

  /** The position of a label among a bin's segments. */
  function SegmentIndex(s: Shelf, b: int, key: string): (j: nat)
    requires forall k :: k in s.order ==> k in s.byLabel
  {
    Position(s.BinLabels(b), key)
  }

  lemma OwnerHasSegment(s: Shelf, key: string, i: nat)
    requires s.Valid() && i < |s.LabelRun(key)| && s.OwnerOf(s.LabelRun(key)[i]) >= 0
    ensures var b := s.OwnerOf(s.LabelRun(key)[i]);
            && SegmentIndex(s, b, key) < |s.BinLabels(b)|
            && s.BinLabels(b)[SegmentIndex(s, b, key)] == key
  {
    var b := s.OwnerOf(s.LabelRun(key)[i]);
    FilterMember(s.LabelRun(key), s.OwnedBy(b), s.LabelRun(key)[i]);
    BinLabelsMean(s, b);
    assert key in s.BinLabels(b);
  }

  lemma BinLookup(s: Shelf, b: int, key: string, i: nat)
    requires s.Valid() && 0 <= b < |s.Rows()| && i < |s.LabelRun(key)|
    ensures FindInBin(s.collator, s.Segments(b), key, i) ==
              if s.OwnerOf(s.LabelRun(key)[i]) == b && SegmentIndex(s, b, key) < |s.BinLabels(b)|
              then Some(s.SegmentAt(b, SegmentIndex(s, b, key))) else None
  {
    var owns := s.OwnerOf(s.LabelRun(key)[i]) == b;
    var j := if owns then SegmentIndex(s, b, key) else -1;
    BinLabelsMean(s, b);
    forall n | 0 <= n < |s.Segments(b)| ensures SegmentHits(s.collator, s.Segments(b)[n], key, i) <==> n == j {
      HitMeans(s, b, n, key, i);
      if owns { OwnerHasSegment(s, key, i); }
    }
    FindInBinUnique(s.collator, s.Segments(b), key, i, j);
  }

  /** get_segment_for_rank returns the segment of the bin that owns the record at that rank, and
      nothing exactly when the record precedes every cut. */
  lemma LookupIsExact(s: Shelf, key: string, i: nat)
    requires s.Valid() && i < |s.LabelRun(key)|
    ensures var b := s.OwnerOf(s.LabelRun(key)[i]);
            if b < 0 then FindSegment(s.collator, s.Bins(), key, i) == None
            else
              && SegmentIndex(s, b, key) < |s.BinLabels(b)|
              && s.BinLabels(b)[SegmentIndex(s, b, key)] == key
              && FindSegment(s.collator, s.Bins(), key, i) == Some((s.BinAt(b), s.SegmentAt(b, SegmentIndex(s, b, key))))
  {
    var b := s.OwnerOf(s.LabelRun(key)[i]);
    var bins := s.Bins();
    if b >= 0 { OwnerHasSegment(s, key, i); }
    forall n | 0 <= n < |bins| ensures FindInBin(s.collator, bins[n].segments, key, i) ==
        if n == b then Some(s.SegmentAt(b, SegmentIndex(s, b, key))) else None {
      BinLookup(s, n, key, i);
    }
    FindSegmentUnique(s.collator, bins, key, i, b, if b >= 0 then SegmentIndex(s, b, key) else 0);
  }

  lemma LabelsOfSegments(c: Collator, segments: seq<LabelSegment>, labels: seq<string>, key: string)
    requires |segments| == |labels|
    requires forall i :: 0 <= i < |segments| ==> c.casefold(segments[i].labelKey) == labels[i]
    ensures (exists i :: 0 <= i < |segments| && c.casefold(segments[i].labelKey) == key) <==> key in labels
  {
    if key in labels {
      var i :| 0 <= i < |labels| && labels[i] == key;
      assert c.casefold(segments[i].labelKey) == key;
    }
  }

  lemma SegmentLabels(s: Shelf, b: int)
    requires s.Valid() && 0 <= b < |s.Rows()|
    ensures var (segments, labels) := (s.Segments(b), s.BinLabels(b));
            |segments| == |labels| && forall i :: 0 <= i < |segments| ==> s.collator.casefold(segments[i].labelKey) == labels[i]
  {
    BinLabelsMean(s, b);
    forall i | 0 <= i < |s.BinLabels(b)| ensures s.collator.casefold(s.SegmentAt(b, i).labelKey) == s.BinLabels(b)[i] {
      assert s.BinLabels(b)[i] in s.BinLabels(b);
    }
  }

  /** A bin is listed for a label exactly when it owns one of the label's records. */
  lemma HasLabelMeans(s: Shelf, b: int, key: string)
    requires s.Valid() && 0 <= b < |s.Rows()|
    ensures HasLabel(s.collator, key)(s.BinAt(b)) <==> s.Run(key, b) != []
  {
    BinLabelsMean(s, b);
    SegmentLabels(s, b);
    LabelsOfSegments(s.collator, s.Segments(b), s.BinLabels(b), key);
  }
}
