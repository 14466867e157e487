/** Boundary crossings on an ordered shelf, and the frozen index baseline. */
module Crossings {
  import opened Sequences
  import opened Normalize
  import opened Records
  import opened Assignment
  import opened ShelfModel
  import opened LabelRuns
  import opened Partition
  import opened Locating
  import opened Lookup
  import opened Tiling
  import opened LocateTheorems

  /** Cut keys do not decrease along the physical walk. */
  ghost predicate Ascending(cuts: seq<Option<CutKey>>) {
    forall i, j :: 0 <= i < j < |cuts| && cuts[i].Some? && cuts[j].Some? ==> CutLe(cuts[i].value, cuts[j].value)
  }

  /** On an ordered shelf greater keys belong to physically later bins. */
  lemma OwnersAscend(cuts: seq<Option<CutKey>>, k1: CutKey, k2: CutKey)
    requires Ascending(cuts) && CutLe(k1, k2) && Owner(cuts, k1) >= 0
    ensures Owner(cuts, k1) <= Owner(cuts, k2)
  {
    OwnerIsMonotone(cuts, k1, k2);
    var a, b := Owner(cuts, k1), Owner(cuts, k2);
    if b < a {
      CutOrder(cuts[b].value, cuts[a].value, cuts[a].value);
    }
  }

  /** The owners of a label's records, rank by rank. */
  ghost function Owners(s: Shelf, key: string): (o: seq<int>)
    ensures |o| == |s.LabelRun(key)| && forall i :: 0 <= i < |o| ==> o[i] == s.OwnerOf(s.LabelRun(key)[i])
  {
    seq(|s.LabelRun(key)|, i requires 0 <= i < |s.LabelRun(key)| => s.OwnerOf(s.LabelRun(key)[i]))
  }

  ghost predicate Rising(o: seq<int>) {
    forall i, j :: 0 <= i <= j < |o| && o[i] >= 0 ==> o[i] <= o[j]
  }

  ghost predicate OwnsRange(o: seq<int>, b: int, lo: nat, hi: nat) {
    lo <= hi <= |o| && forall i :: 0 <= i < |o| ==> (o[i] == b <==> lo <= i < hi)
  }

  lemma OwnersRise(s: Shelf, key: string)
    requires s.Valid() && Ascending(s.CutPoints())
    ensures Rising(Owners(s, key))
  {
    var o, list := Owners(s, key), s.LabelRun(key);
    forall i, j | 0 <= i <= j < |o| && o[i] >= 0 ensures o[i] <= o[j] {
      RunIsOrdered(s, key, i, j);
      OwnersAscend(s.CutPoints(), RecordKey(s.collator, list[i]), RecordKey(s.collator, list[j]));
    }
  }

  lemma OwnedRange(s: Shelf, key: string, b: int)
    requires s.Valid() && b >= 0
    ensures OwnsRange(Owners(s, key), b, s.FirstRank(key, b), s.FirstRank(key, b) + |s.Run(key, b)|)
  {
    RunIsContiguous(s, key, b);
  }

  /** After a bin's range comes a later bin, and no bin in between owns anything. */
  lemma NextOwner(o: seq<int>, b: int, lo: nat, hi: nat, n: int, i: nat)
    requires Rising(o) && b >= 0 && OwnsRange(o, b, lo, hi) && lo < hi < |o| && i < |o| && o[i] == n
    ensures b < o[hi] && (n <= b || n >= o[hi])
  {
    assert o[lo] == b && o[lo] <= o[hi];
    if i < lo {
      assert n < 0 || o[i] <= o[lo];
    } else if i >= hi {
      assert o[hi] <= o[i];
    }
  }

  /** Two bins with records of a label and none in between. */
  ghost predicate Consecutive(s: Shelf, key: string, b: int, n: int) {
    0 <= b < n < |s.Rows()| && s.Run(key, b) != [] && s.Run(key, n) != [] && forall i :: b < i < n ==> s.Run(key, i) == []
  }

  /** The bin of the label's first record after bin `b`, and why no bin in between has any. */
  lemma NextBin(s: Shelf, key: string, b: int, hi: nat)
    requires s.Valid() && Ascending(s.CutPoints()) && 0 <= b < |s.Rows()| && s.Run(key, b) != []
    requires hi == s.FirstRank(key, b) + |s.Run(key, b)| && hi < |s.LabelRun(key)|
    ensures Consecutive(s, key, b, s.OwnerOf(s.LabelRun(key)[hi]))
  {
    var o, lo := Owners(s, key), s.FirstRank(key, b);
    OwnedRange(s, key, b);
    OwnersRise(s, key);
    NextOwner(o, b, lo, hi, o[hi], hi);
    OwnedRange(s, key, o[hi]);
    forall n | b < n < o[hi] ensures s.Run(key, n) == [] {
      OwnedRange(s, key, n);
      if |s.Run(key, n)| > 0 {
        NextOwner(o, b, lo, hi, n, s.FirstRank(key, n));
      }
    }
  }

  /** After a range that ends the list no later bin owns anything. */
  lemma NothingAfter(o: seq<int>, b: int, n: int, lo: nat)
    requires Rising(o) && 0 <= b < n && lo < |o| && OwnsRange(o, b, lo, |o|)
    ensures forall i :: 0 <= i < |o| ==> o[i] != n
  {
    forall i | 0 <= i < |o| ensures o[i] != n {
      assert o[lo] == b;
      assert i < lo && o[i] >= 0 ==> o[i] <= o[lo];
    }
  }

  lemma NoneOwned(s: Shelf, key: string, n: int)
    requires forall i :: 0 <= i < |Owners(s, key)| ==> Owners(s, key)[i] != n
    ensures s.Run(key, n) == []
  {
    var list := s.LabelRun(key);
    forall r | r in list ensures !s.OwnedBy(n)(r) {
      var i :| 0 <= i < |list| && list[i] == r;
      assert Owners(s, key)[i] != n;
    }
    FilterNone(list, s.OwnedBy(n));
  }

  lemma NoRunAfterLast(s: Shelf, key: string, b: int, n: int)
    requires s.Valid() && Ascending(s.CutPoints()) && 0 <= b < n && s.Run(key, b) != []
    requires s.FirstRank(key, b) + |s.Run(key, b)| == |s.LabelRun(key)|
    ensures s.Run(key, n) == []
  {
    OwnedRange(s, key, b);
    OwnersRise(s, key);
    NothingAfter(Owners(s, key), b, n, s.FirstRank(key, b));
    NoneOwned(s, key, n);
  }

  /** `continues` says exactly that a physically later bin has a segment of the label. */
  lemma ContinuesMeans(s: Shelf, b: int, j: nat)
    requires s.Valid() && Ascending(s.CutPoints()) && 0 <= b < |s.Rows()| && j < |s.BinLabels(b)|
    ensures s.SegmentAt(b, j).continues <==>
              exists n :: b < n < |s.Rows()| && HasLabel(s.collator, s.BinLabels(b)[j])(s.BinAt(n))
  {
    var key := s.BinLabels(b)[j];
    BinLabelsMean(s, b);
    RunIsContiguous(s, key, b);
    LaterBins(s, key, b);
    if s.SegmentAt(b, j).continues {
      var n :| b < n < |s.Rows()| && s.Run(key, n) != [];
      HasLabelMeans(s, n, key);
    } else {
      forall n | b < n < |s.Rows()| ensures !HasLabel(s.collator, key)(s.BinAt(n)) {
        HasLabelMeans(s, n, key);
      }
    }
  }

  lemma LaterBins(s: Shelf, key: string, b: int)
    requires s.Valid() && Ascending(s.CutPoints()) && 0 <= b < |s.Rows()| && s.Run(key, b) != []
    requires s.FirstRank(key, b) + |s.Run(key, b)| <= |s.LabelRun(key)|
    ensures s.FirstRank(key, b) + |s.Run(key, b)| < |s.LabelRun(key)| <==>
              exists n :: b < n < |s.Rows()| && s.Run(key, n) != []
  {
    if s.FirstRank(key, b) + |s.Run(key, b)| < |s.LabelRun(key)| {
      NextBin(s, key, b, s.FirstRank(key, b) + |s.Run(key, b)|);
    } else {
      forall n | b < n < |s.Rows()| ensures s.Run(key, n) == [] {
        NoRunAfterLast(s, key, b, n);
      }
    }
  }

  // ── The span in physical order ─────────────────────────────────────────────

  lemma RowsAreOrdered(s: Shelf)
    ensures Ordered(s.Rows(), ByPlace())
  {
    RecordOrders(s.collator);
    SortOrders(s.boundaries, ByPlace());
  }

  function CubeLe(): (SegmentBin, SegmentBin) -> bool {
    (a: SegmentBin, b: SegmentBin) => PlaceLe(a.unitId, a.row, a.col, b.unitId, b.row, b.col)
  }

  /** Sorting by coordinates leaves the span in bin order. */
  lemma SpanIsInBinOrder(s: Shelf, name: string)
    requires s.Valid()
    ensures LabelSpan(s.collator, s.Bins(), name) == CubesOf(BinsForLabel(s.collator, s.Bins(), name))
  {
    var bins := s.Bins();
    RowsAreOrdered(s);
    forall i, j | 0 <= i < j < |bins| ensures CubeLe()(bins[i], bins[j]) {
      assert ByPlace()(s.Rows()[i], s.Rows()[j]);
    }
    FilterOrdered(bins, HasLabel(s.collator, s.collator.casefold(name)), CubeLe());
    var cubes := CubesOf(BinsForLabel(s.collator, bins, name));
    forall i, j | 0 <= i < j < |cubes| ensures ByCube()(cubes[i], cubes[j]) {
      assert CubeLe()(BinsForLabel(s.collator, bins, name)[i], BinsForLabel(s.collator, bins, name)[j]);
    }
    SortFixesOrdered(cubes, ByCube());
  }

  /** Coordinates in walking order. */
  ghost predicate Walks(a: CubeRef, b: CubeRef) {
    a.unitId < b.unitId || (a.unitId == b.unitId && (a.row < b.row || (a.row == b.row && a.col <= b.col)))
  }

  lemma InSpan(s: Shelf, name: string, cube: CubeRef)
    requires s.Valid()
    ensures cube in LabelSpan(s.collator, s.Bins(), name) <==>
              exists b :: 0 <= b < |s.Rows()| && s.Run(s.collator.casefold(name), b) != [] && cube == CubeOf(s.BinAt(b))
  {
    var c, bins, key := s.collator, s.Bins(), s.collator.casefold(name);
    var found := BinsForLabel(c, bins, name);
    SpanIsInBinOrder(s, name);
    FilterMembers(bins, HasLabel(c, key));
    if cube in LabelSpan(c, bins, name) {
      var n :| 0 <= n < |found| && CubesOf(found)[n] == cube;
      assert found[n] in bins && HasLabel(c, key)(found[n]);
      var b :| 0 <= b < |bins| && bins[b] == found[n];
      HasLabelMeans(s, b, key);
    }
    if b :| 0 <= b < |s.Rows()| && s.Run(key, b) != [] && cube == CubeOf(s.BinAt(b)) {
      SpanContains(s, b, name);
    }
  }

  /** The span of a located release: exactly the cubes that hold a record of its label, in walking
      order. */
  lemma AnswerSpanMeans(s: Shelf, releaseId: int, name: string, cube: CubeRef)
    requires s.Valid() && BinOf(s, releaseId, name) >= 0
    ensures var span := Answer(s, releaseId, name).labelSpan;
            && (cube in span <==>
                  exists b :: 0 <= b < |s.Rows()| && s.Run(s.collator.casefold(name), b) != []
                              && cube == CubeRef(s.Rows()[b].unitId, s.Rows()[b].row, s.Rows()[b].col))
            && forall i, j :: 0 <= i < j < |span| ==> Walks(span[i], span[j])
  {
    AnswerMeans(s, releaseId, name);
    InSpan(s, name, cube);
    SpanWalks(s, name);
  }

  lemma SpanWalks(s: Shelf, name: string)
    requires s.Valid()
    ensures var span := LabelSpan(s.collator, s.Bins(), name); forall i, j :: 0 <= i < j < |span| ==> Walks(span[i], span[j])
  {
    var cubes := CubesOf(BinsForLabel(s.collator, s.Bins(), name));
    CubesArePreordered();
    SortOrders(cubes, ByCube());
    var span := LabelSpan(s.collator, s.Bins(), name);
    forall i, j | 0 <= i < j < |span| ensures Walks(span[i], span[j]) {
      assert ByCube()(span[i], span[j]);
    }
  }

  lemma CubesArePreordered()
    ensures Preorder(ByCube())
  {
  }

  lemma FilterHead<T>(x: seq<T>, p: T -> bool)
    requires x != [] && p(x[0])
    ensures Filter(x, p) == [x[0]] + Filter(x[1..], p)
  {
  }

  /** Where a matching element ends up in the filtered list. */
  lemma FilterAt<T>(x: seq<T>, p: T -> bool, n: nat)
    requires n < |x| && p(x[n])
    ensures var before := Filter(x[..n], p);
            && |Filter(x, p)| > |before|
            && Filter(x, p)[..|before|] == before
            && Filter(x, p)[|before|] == x[n]
  {
    assert x == x[..n] + x[n..];
    FilterConcat(x[..n], x[n..], p);
    FilterHead(x[n..], p);
  }

  lemma FilterBetween<T>(x: seq<T>, p: T -> bool, b: nat, n: nat)
    requires b < n <= |x| && p(x[b]) && forall i :: b < i < n ==> !p(x[i])
    ensures |Filter(x[..n], p)| == |Filter(x[..b], p)| + 1
  {
    assert x[..n] == x[..b] + x[b..n];
    FilterConcat(x[..b], x[b..n], p);
    FilterHead(x[b..n], p);
    assert x[b..n][1..] == x[b + 1..n];
    FilterNone(x[b + 1..n], p);
  }

  /** In the span, the entry after a bin's cube is the cube of the next bin with the label. */
  lemma NextInSpanMeans(s: Shelf, name: string, b: int, n: int)
    requires s.Valid() && DistinctPlaces(s.boundaries) && Consecutive(s, s.collator.casefold(name), b, n)
    ensures NextInSpan(LabelSpan(s.collator, s.Bins(), name), CubeOf(s.BinAt(b))) == Some(CubeOf(s.BinAt(n)))
  {
    var bins, p := s.Bins(), HasLabel(s.collator, s.collator.casefold(name));
    forall i | 0 <= i < |bins| ensures p(bins[i]) <==> s.Run(s.collator.casefold(name), i) != [] {
      HasLabelMeans(s, i, s.collator.casefold(name));
    }
    forall i, j | 0 <= i < j < |bins| ensures CubeOf(bins[i]) != CubeOf(bins[j]) {
      if CubeOf(bins[i]) == CubeOf(bins[j]) { CubesAreDistinct(s, i, j); }
    }
    SpanIsInBinOrder(s, name);
    NextCubeInBinOrder(bins, p, b, n);
  }

  lemma NextCubeInBinOrder(bins: seq<SegmentBin>, p: SegmentBin -> bool, b: nat, n: nat)
    requires b < n < |bins| && p(bins[b]) && p(bins[n]) && forall i :: b < i < n ==> !p(bins[i])
    requires forall i, j :: 0 <= i < j < |bins| ==> CubeOf(bins[i]) != CubeOf(bins[j])
    ensures NextInSpan(CubesOf(Filter(bins, p)), CubeOf(bins[b])) == Some(CubeOf(bins[n]))
  {
    FilterAt(bins, p, b);
    FilterAt(bins, p, n);
    FilterBetween(bins, p, b, n);
    var before, found := Filter(bins[..b], p), Filter(bins, p);
    var at, span := |before|, CubesOf(found);
    assert span[at] == CubeOf(bins[b]) && span[at + 1] == CubeOf(bins[n]);
    forall i | 0 <= i < at ensures span[i] != CubeOf(bins[b]) {
      assert found[i] == found[..at][i] == before[i];
      assert before[i] in before;
      FilterMember(bins[..b], p, before[i]);
    }
    assert FirstIndex(span, (x: CubeRef) => x == CubeOf(bins[b])) == at;
  }

  /** How an answer says that its band crosses into another cube. */
  ghost predicate CrossesInto(i: SubInterval, continues: bool, next: Option<CubeRef>) {
    && (i.crossesBoundary <==> i.nextCube.Some?)
    && i.nextCube == if continues && i.end >= 1.0 then next else None
  }

  lemma AnswerInterval(s: Shelf, releaseId: int, name: string)
    requires s.Valid() && BinOf(s, releaseId, name) >= 0
    ensures Answer(s, releaseId, name).subCubeInterval.Some?
    ensures CrossesInto(Answer(s, releaseId, name).subCubeInterval.value, SegmentOf(s, releaseId, name).continues,
                        NextInSpan(LabelSpan(s.collator, s.Bins(), name), CubeOf(s.BinAt(BinOf(s, releaseId, name)))))
  {
    AnswerMeans(s, releaseId, name);
  }

  /** `cube` is the cube owning the label's record at rank `rank`. */
  ghost predicate HoldsRank(s: Shelf, name: string, rank: int, cube: Option<CubeRef>)
    requires s.Valid()
  {
    && 0 <= rank < |ListFor(s, name)|
    && 0 <= s.OwnerOf(ListFor(s, name)[rank]) < |s.Rows()|
    && cube == Some(CubeOf(s.BinAt(s.OwnerOf(ListFor(s, name)[rank]))))
  }

  lemma NextCubeOfBin(s: Shelf, name: string, key: string, b: int, hi: nat)
    requires s.Valid() && DistinctPlaces(s.boundaries) && Ascending(s.CutPoints()) && 0 <= b < |s.Rows()|
    requires key == s.collator.casefold(name) && s.Run(key, b) != []
    requires hi == s.FirstRank(key, b) + |s.Run(key, b)| && hi < |s.LabelRun(key)|
    ensures HoldsRank(s, name, hi, NextInSpan(LabelSpan(s.collator, s.Bins(), name), CubeOf(s.BinAt(b))))
  {
    NextBin(s, key, b, hi);
    NextInSpanMeans(s, name, b, s.OwnerOf(s.LabelRun(key)[hi]));
  }

  /** The segment is the label's run in bin `b`. */
  ghost predicate IsRunOf(s: Shelf, key: string, b: int, seg: LabelSegment) {
    && 0 <= b < |s.Rows()| && s.Run(key, b) != []
    && seg.lastRank + 1 == s.FirstRank(key, b) + |s.Run(key, b)| <= |s.LabelRun(key)|
    && (seg.continues <==> seg.lastRank + 1 < |s.LabelRun(key)|)
  }

  lemma SegmentRanks(s: Shelf, releaseId: int, name: string)
    requires s.Valid() && BinOf(s, releaseId, name) >= 0
    ensures IsRunOf(s, s.collator.casefold(name), BinOf(s, releaseId, name), SegmentOf(s, releaseId, name))
  {
    var key, b := s.collator.casefold(name), BinOf(s, releaseId, name);
    OwnerHasSegment(s, key, RankOf(s, releaseId, name));
    RunIsContiguous(s, key, b);
  }

  lemma NextCubeOfRun(s: Shelf, name: string, key: string, b: int, seg: LabelSegment, next: Option<CubeRef>)
    requires s.Valid() && DistinctPlaces(s.boundaries) && Ascending(s.CutPoints())
    requires key == s.collator.casefold(name) && IsRunOf(s, key, b, seg) && seg.continues
    requires next == NextInSpan(LabelSpan(s.collator, s.Bins(), name), CubeOf(s.BinAt(b)))
    ensures HoldsRank(s, name, seg.lastRank + 1, next)
  {
    NextCubeOfBin(s, name, key, b, seg.lastRank + 1);
  }

  lemma CrossingOf(s: Shelf, name: string, key: string, b: int, seg: LabelSegment, i: SubInterval, next: Option<CubeRef>)
    requires s.Valid() && DistinctPlaces(s.boundaries) && Ascending(s.CutPoints())
    requires key == s.collator.casefold(name) && IsRunOf(s, key, b, seg)
    requires next == NextInSpan(LabelSpan(s.collator, s.Bins(), name), CubeOf(s.BinAt(b)))
    requires CrossesInto(i, seg.continues, next)
    ensures var ok := Crosses(s, name, seg, i); ok
  {
    if seg.continues && i.end >= 1.0 {
      NextCubeOfRun(s, name, key, b, seg, next);
      assert i.nextCube == next;
    }
  }

  /** The band crosses exactly when it reaches the right edge of a continuing segment, and then
      `next_cube` is the cube owning the label's record right after the segment's last rank. */
  ghost predicate Crosses(s: Shelf, name: string, seg: LabelSegment, i: SubInterval)
    requires s.Valid()
  {
    && (i.crossesBoundary <==> seg.continues && i.end >= 1.0)
    && (i.crossesBoundary ==> HoldsRank(s, name, seg.lastRank + 1, i.nextCube))
    && (!i.crossesBoundary ==> i.nextCube == None)
  }

  /** So it is for every located release of an ordered shelf, however many empty or foreign bins
      lie between the two cubes. */
  lemma CrossingPointsToNextRecord(s: Shelf, releaseId: int, name: string)
    requires s.Valid() && DistinctPlaces(s.boundaries) && Ascending(s.CutPoints()) && BinOf(s, releaseId, name) >= 0
    ensures Answer(s, releaseId, name).subCubeInterval.Some?
    ensures Crosses(s, name, SegmentOf(s, releaseId, name), Answer(s, releaseId, name).subCubeInterval.value)
  {
    var b := BinOf(s, releaseId, name);
    AnswerInterval(s, releaseId, name);
    SegmentRanks(s, releaseId, name);
    CrossingOf(s, name, s.collator.casefold(name), b, SegmentOf(s, releaseId, name),
               Answer(s, releaseId, name).subCubeInterval.value,
               NextInSpan(LabelSpan(s.collator, s.Bins(), name), CubeOf(s.BinAt(b))));
  }

  // ── Agreement with the index baseline ──────────────────────────────────────

  /** All of a label's records sit in bin `b`, which holds no other label. */
  ghost predicate Alone(s: Shelf, key: string, b: int)
    requires s.Valid()
  {
    && 0 <= b < |s.Rows()|
    && s.LabelRun(key) != []
    && (forall i :: 0 <= i < |s.LabelRun(key)| ==> s.OwnerOf(s.LabelRun(key)[i]) == b)
    && |s.BinLabels(b)| == 1
  }

  lemma AloneSegment(s: Shelf, key: string, b: int)
    requires s.Valid() && s.PositiveOverrides() && Alone(s, key, b)
    ensures s.BinLabels(b) == [key]
    ensures var seg := s.SegmentAt(b, 0);
            && seg.firstRank == 0 && seg.count == |s.LabelRun(key)| && !seg.continues
            && seg.offset == 0.0 && seg.appliedFraction == 1.0
  {
    var list := s.LabelRun(key);
    assert s.OwnerOf(list[0]) == b;
    OwnerHasSegment(s, key, 0);
    RunIsContiguous(s, key, b);
    OnlySegmentFillsBin(s, b);
    assert s.OwnerOf(list[|list| - 1]) == b;
  }

  lemma AloneSpan(s: Shelf, name: string, b: int)
    requires s.Valid() && Alone(s, s.collator.casefold(name), b)
    ensures LabelSpan(s.collator, s.Bins(), name) == [CubeOf(s.BinAt(b))]
  {
    var c, bins, key := s.collator, s.Bins(), s.collator.casefold(name);
    var list := s.LabelRun(key);
    forall i | 0 <= i < |bins| ensures HasLabel(c, key)(bins[i]) <==> b <= i < b + 1 {
      HasLabelMeans(s, i, key);
      if i == b {
        FilterAll(list, s.OwnedBy(i));
      } else {
        FilterNone(list, s.OwnedBy(i));
      }
    }
    FilterSlice(bins, HasLabel(c, key), b, b + 1);
    SpanIsInBinOrder(s, name);
    assert CubesOf([s.BinAt(b)]) == [CubeOf(s.BinAt(b))];
  }

  lemma AloneFinds(s: Shelf, key: string, b: int, i: nat)
    requires s.Valid() && s.PositiveOverrides() && Alone(s, key, b) && i < |s.LabelRun(key)|
    ensures s.OwnerOf(s.LabelRun(key)[i]) == b && SegmentIndex(s, b, key) == 0
    ensures FindSegment(s.collator, s.Bins(), key, i) == Some((s.BinAt(b), s.SegmentAt(b, 0)))
  {
    AloneSegment(s, key, b);
    LookupIsExact(s, key, i);
  }

  lemma PositionInWhole(bin: SegmentBin, seg: LabelSegment, i: nat)
    requires |bin.segments| == 1 && seg.firstRank == 0 && seg.offset == 0.0 && seg.appliedFraction == 1.0 && seg.count > 1
    ensures PositionInCube(bin, seg, i) == i as real / (seg.count - 1) as real
  {
    var f := i as real / (seg.count - 1) as real;
    assert FractionInSegment(bin, seg, i) == f;
    assert 0.0 + f * 1.0 == f;
  }

  lemma AloneBand(s: Shelf, key: string, b: int, i: nat)
    requires s.Valid() && s.PositiveOverrides() && Alone(s, key, b) && |s.LabelRun(key)| > 1
    ensures PositionInCube(s.BinAt(b), s.SegmentAt(b, 0), i) == i as real / (|s.LabelRun(key)| - 1) as real
  {
    AloneSegment(s, key, b);
    PositionInWhole(s.BinAt(b), s.SegmentAt(b, 0), i);
  }

  /** What either estimator answers for a label alone in a cube. */
  function AloneResult(releaseId: int, cube: CubeRef, i: nat, k: nat, version: string): (r: LocateResult)
    requires i < k
  {
    var f := if k == 1 then 0.5 else i as real / (k - 1) as real;
    var start := if k == 1 then 0.0 else Max(0.0, f - POSITION_HALF_WIDTH);
    var end := if k == 1 then 1.0 else Min(1.0, f + POSITION_HALF_WIDTH);
    LocateResult(releaseId, Some(cube), [cube], Some(SubInterval(cube, start, end, false, None)), ComputeConfidence(k), version)
  }

  lemma BaselineAlone(c: Collator, bins: seq<SegmentBin>, byLabel: map<string, seq<RecordRow>>,
                      releaseId: int, name: string, cube: CubeRef, i: nat, k: nat)
    requires i < k && k == |SortedLabel(c, byLabel, name)| && i == FirstIndex(SortedLabel(c, byLabel, name), IsRelease(releaseId))
    requires FindSegment(c, bins, c.casefold(name), i).Some? && LabelSpan(c, bins, name) == [cube]
    ensures LocateByIndexV1(c, bins, byLabel, releaseId, name) == AloneResult(releaseId, cube, i, k, "index-v1")
  {
    assert LocateCubeOnly(c, bins, byLabel, releaseId, name)
        == LocateResult(releaseId, Some(cube), [cube], None, CUBE_ONLY_CONFIDENCE, "cube-only-v1");
  }

  lemma SegmentAlone(c: Collator, bins: seq<SegmentBin>, releaseId: int, name: string,
                     bin: SegmentBin, seg: LabelSegment, i: nat, k: nat)
    requires i < k && !seg.continues && LabelSpan(c, bins, name) == [CubeOf(bin)]
    requires k > 1 ==> PositionInCube(bin, seg, i) == i as real / (k - 1) as real
    ensures SegmentResult(c, bins, releaseId, name, bin, seg, i, k)
            == AloneResult(releaseId, CubeOf(bin), i, k, SEGMENT_ESTIMATOR_VERSION)
  {
  }

  lemma AloneSegmentOf(s: Shelf, releaseId: int, name: string, b: int)
    requires s.Valid() && s.PositiveOverrides() && Alone(s, s.collator.casefold(name), b)
    requires RankOf(s, releaseId, name) < |ListFor(s, name)|
    ensures BinOf(s, releaseId, name) == b && SegmentOf(s, releaseId, name) == s.SegmentAt(b, 0)
    ensures !s.SegmentAt(b, 0).continues
  {
    AloneFinds(s, s.collator.casefold(name), b, RankOf(s, releaseId, name));
    AloneSegment(s, s.collator.casefold(name), b);
  }

  lemma AloneAnswer(s: Shelf, releaseId: int, name: string, b: int)
    requires s.Valid() && s.PositiveOverrides() && Alone(s, s.collator.casefold(name), b)
    requires RankOf(s, releaseId, name) < |ListFor(s, name)|
    ensures Answer(s, releaseId, name)
            == AloneResult(releaseId, CubeOf(s.BinAt(b)), RankOf(s, releaseId, name), |ListFor(s, name)|, SEGMENT_ESTIMATOR_VERSION)
  {
    var i, k := RankOf(s, releaseId, name), |ListFor(s, name)|;
    AnswerMeans(s, releaseId, name);
    AloneSegmentOf(s, releaseId, name, b);
    AloneSpan(s, name, b);
    if k > 1 { AloneBand(s, s.collator.casefold(name), b, i); }
    SegmentAlone(s.collator, s.Bins(), releaseId, name, s.BinAt(b), s.SegmentAt(b, 0), i, k);
  }

  /** For a label that fills one bin alone the segment estimator gives the frozen index
      baseline's cube, span, interval, crossing flag and confidence for every release id,
      singletons included. */
  lemma AgreesWithIndexBaseline(s: Shelf, releaseId: int, name: string, b: int)
    requires s.Valid() && s.PositiveOverrides() && Alone(s, s.collator.casefold(name), b)
    ensures var v1 := LocateByIndexV1(s.collator, s.Bins(), s.byLabel, releaseId, name);
            Answer(s, releaseId, name) == v1.(estimatorVersion := Answer(s, releaseId, name).estimatorVersion)
  {
    var key, i, k := s.collator.casefold(name), RankOf(s, releaseId, name), |ListFor(s, name)|;
    assert SortedLabel(s.collator, s.byLabel, name) == ListFor(s, name);
    if i < k {
      AloneAnswer(s, releaseId, name, b);
      AloneFinds(s, key, b, i);
      AloneSpan(s, name, b);
      BaselineAlone(s.collator, s.Bins(), s.byLabel, releaseId, name, CubeOf(s.BinAt(b)), i, k);
    } else {
      AnswerMeans(s, releaseId, name);
    }
  }
}
