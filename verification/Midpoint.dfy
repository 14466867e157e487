/** Midpoint suggestion in index space (src/gruvax/estimator/boundary_math.py:129-189). */
module Midpoint {
  import opened Sequences
  import opened Records
  import opened Assignment

  /** The last position of a release in a list, if any. */
  function LastPosition(records: seq<RecordRow>, releaseId: int): (i: Option<nat>)
    ensures i.Some? ==> i.value < |records| && records[i.value].releaseId == releaseId
    ensures i.Some? ==> forall j :: i.value < j < |records| ==> records[j].releaseId != releaseId
    ensures i.None? ==> forall j :: 0 <= j < |records| ==> records[j].releaseId != releaseId
  {
    if records == [] then None
    else if records[|records| - 1].releaseId == releaseId then Some(|records| - 1)
    else LastPosition(records[..|records| - 1], releaseId)
  }

  lemma LastPositionNext(records: seq<RecordRow>, n: nat, releaseId: int)
    requires n < |records|
    ensures LastPosition(records[..n + 1], releaseId)
            == if records[n].releaseId == releaseId then Some(n) else LastPosition(records[..n], releaseId)
  {
    assert records[..n + 1][..n] == records[..n];
  }

  /** Strictly between the anchors and half way, on the side of the first one when the gap is odd. */
  ghost predicate Halves(records: seq<RecordRow>, lo: nat, hi: nat, r: RecordRow) {
    exists mid :: lo < mid < hi < |records| && records[mid] == r && 0 <= (hi - mid) - (mid - lo) <= 1
  }

  /** The two assignments of one pass of the search loop. */
  lemma PositionsNext(records: seq<RecordRow>, n: nat, first: int, last: int)
    requires n < |records|
    ensures LastPosition(records[..n + 1], first) == if records[n].releaseId == first then Some(n) else LastPosition(records[..n], first)
    ensures LastPosition(records[..n + 1], last) == if records[n].releaseId == last then Some(n) else LastPosition(records[..n], last)
  {
    LastPositionNext(records, n, first);
    LastPositionNext(records, n, last);
  }

  /** The search for the two anchors. */
  method FindAnchors(records: seq<RecordRow>, first: int, last: int) returns (ia: Option<nat>, ib: Option<nat>)
    ensures ia == LastPosition(records, first) && ib == LastPosition(records, last)
  {
    ia, ib := None, None;
    for idx := 0 to |records|
      invariant ia == LastPosition(records[..idx], first)
      invariant ib == LastPosition(records[..idx], last)
    {
      PositionsNext(records, idx, first, last);
      if records[idx].releaseId == first {
        ia := Some(idx);
      }
      if records[idx].releaseId == last {
        ib := Some(idx);
      }
    }
    assert records[..|records|] == records;
  }

  method SuggestMidpoint(name: string, firstAnchor: int, lastAnchor: int, snapshot: CollectionSnapshot) returns (r: Option<RecordRow>)
    ensures var records := Sort(snapshot.LabelRecords(name), ByCatalog());
            var a, b := LastPosition(records, firstAnchor), LastPosition(records, lastAnchor);
            && (r.Some? <==> a.Some? && b.Some? && (a.value + 1 < b.value || b.value + 1 < a.value))
            && (r.Some? ==> Halves(records, if a.value <= b.value then a.value else b.value,
                                   if a.value <= b.value then b.value else a.value, r.value))
  {
    var records := Sort(snapshot.LabelRecords(name), ByCatalog());
    var ia, ib := FindAnchors(records, firstAnchor, lastAnchor);
    if ia.None? || ib.None? {
      return None;
    }
    var (lo, hi) := if ia.value > ib.value then (ib.value, ia.value) else (ia.value, ib.value);
    var mid := (lo + hi) / 2;
    if lo < mid < hi {
      return Some(records[mid]);
    }
    return None;
  }
}
