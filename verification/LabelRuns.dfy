/** Ranks: why a label's records in one bin are a contiguous slice of its sorted list, and why
    the bins partition the sorted collection. */
module LabelRuns {
  import opened Sequences
  import opened Orders
  import opened Normalize
  import opened Records
  import opened Assignment
  import opened ShelfModel

  // ── A label's part of the global order is its own sorted list ──────────────

  lemma {:induction false} FilterGather(c: Collator, order: seq<string>, byLabel: map<string, seq<RecordRow>>, key: string)
    requires Distinct(order)
    requires forall k :: k in order ==> k in byLabel
    requires forall k, r :: k in byLabel && r in byLabel[k] ==> c.casefold(r.labelName) == k
    ensures Filter(Gather(order, byLabel), LabelIs(c, key)) == if key in order then byLabel[key] else []
  {
    if order != [] {
      var n := |order| - 1;
      var last := byLabel[order[n]];
      FilterGather(c, order[..n], byLabel, key);
      FilterConcat(Gather(order[..n], byLabel), last, LabelIs(c, key));
      if order[n] == key {
        FilterAll(last, LabelIs(c, key));
        assert key !in order[..n];
      } else {
        FilterNone(last, LabelIs(c, key));
        assert key in order <==> key in order[..n];
      }
    }
  }

  /** Restricting the globally sorted collection to one label gives that label's sorted list,
      whatever order the label dictionary was filled in. */
  lemma LabelRunIsGlobal(s: Shelf, key: string)
    requires s.Valid()
    ensures Filter(s.Shelved(), LabelIs(s.collator, key)) == s.LabelRun(key)
  {
    var c := s.collator;
    RecordOrders(c);
    FilterSort(Gather(s.order, s.byLabel), ByRecordKey(c), LabelIs(c, key));
    FilterGather(c, s.order, s.byLabel, key);
    var group := s.Group(key);
    forall a, b | a in group && b in group ensures ByRecordKey(c)(a, b) == ByCatalog()(a, b) {
      assert c.KeyOf(a.labelName) == c.KeyOf(b.labelName);
    }
    SortAgrees(group, ByRecordKey(c), ByCatalog());
  }

  lemma RunMembers(s: Shelf, key: string, r: RecordRow)
    requires s.Valid() && r in s.LabelRun(key)
    ensures s.collator.casefold(r.labelName) == key
    ensures r in s.Shelved()
  {
    LabelRunIsGlobal(s, key);
    FilterMember(s.Shelved(), LabelIs(s.collator, key), r);
  }

  /** Along a label's list the record keys never decrease. */
  lemma RunIsOrdered(s: Shelf, key: string, i: int, j: int)
    requires s.Valid() && 0 <= i <= j < |s.LabelRun(key)|
    ensures CutLe(RecordKey(s.collator, s.LabelRun(key)[i]), RecordKey(s.collator, s.LabelRun(key)[j]))
  {
    RecordOrders(s.collator);
    SortOrders(s.Group(key), ByCatalog());
    var run := s.LabelRun(key);
    RunMembers(s, key, run[i]);
    RunMembers(s, key, run[j]);
    CatalogOrder(CatalogOf(run[i]), CatalogOf(run[i]), CatalogOf(run[i]));
    assert ByCatalog()(run[i], run[j]);
  }

  // ── Contiguity ─────────────────────────────────────────────────────────────

  /** `part` is the slice of `list` from `lo` on, and holds exactly the elements that satisfy `p`. */
  ghost predicate IsSlice(list: seq<RecordRow>, p: RecordRow -> bool, lo: nat, part: seq<RecordRow>) {
    && lo + |part| <= |list|
    && part == list[lo..lo + |part|]
    && forall i :: 0 <= i < |list| ==> (p(list[i]) <==> lo <= i < lo + |part|)
  }

  lemma ConvexSlice(list: seq<RecordRow>, p: RecordRow -> bool)
    requires forall i, j, k :: 0 <= i <= j <= k < |list| && p(list[i]) && p(list[k]) ==> p(list[j])
    ensures IsSlice(list, p, FirstIndex(list, p), Filter(list, p))
  {
    ConvexFilter(list, p);
  }

  lemma RunIsSlice(s: Shelf, key: string, b: int)
    requires s.Valid() && b >= 0
    ensures IsSlice(s.LabelRun(key), s.OwnedBy(b), s.FirstRank(key, b), s.Run(key, b))
  {
    var list := s.LabelRun(key);
    forall i, j, k | 0 <= i <= j <= k < |list| && s.OwnedBy(b)(list[i]) && s.OwnedBy(b)(list[k])
      ensures s.OwnedBy(b)(list[j])
    {
      OwnedBetween(s, key, i, j, k);
    }
    ConvexSlice(list, s.OwnedBy(b));
  }

  /** The records of a label that one bin owns are exactly the ranks
      [FirstRank, FirstRank + count) of its list. */
  lemma RunIsContiguous(s: Shelf, key: string, b: int)
    requires s.Valid() && b >= 0
    ensures var lo, n, list := s.FirstRank(key, b), |s.Run(key, b)|, s.LabelRun(key);
            && lo + n <= |list|
            && s.Run(key, b) == list[lo..lo + n]
            && forall i :: 0 <= i < |list| ==> (s.OwnerOf(list[i]) == b <==> lo <= i < lo + n)
  {
    RunIsSlice(s, key, b);
    var list := s.LabelRun(key);
    forall i | 0 <= i < |list| ensures s.OwnedBy(b)(list[i]) <==> s.OwnerOf(list[i]) == b {
    }
  }

  lemma OwnedBetween(s: Shelf, key: string, i: int, j: int, k: int)
    requires s.Valid() && 0 <= i <= j <= k < |s.LabelRun(key)|
    requires s.OwnerOf(s.LabelRun(key)[i]) == s.OwnerOf(s.LabelRun(key)[k]) >= 0
    ensures s.OwnerOf(s.LabelRun(key)[j]) == s.OwnerOf(s.LabelRun(key)[i])
  {
    var list := s.LabelRun(key);
    RunIsOrdered(s, key, i, j);
    RunIsOrdered(s, key, j, k);
    OwnerIsConvex(s.CutPoints(), RecordKey(s.collator, list[i]), RecordKey(s.collator, list[j]), RecordKey(s.collator, list[k]));
  }

  /** A bin's records of one label are that label's run in the bin. */
  lemma BinGroup(s: Shelf, key: string, b: int)
    requires s.Valid()
    ensures Filter(s.BinRecords(b), LabelIs(s.collator, key)) == s.Run(key, b)
  {
    FilterSwap(s.Shelved(), s.OwnedBy(b), LabelIs(s.collator, key));
    LabelRunIsGlobal(s, key);
  }

  // ── The labels of a bin ────────────────────────────────────────────────────

  lemma {:induction false} SeenMeans(c: Collator, records: seq<RecordRow>)
    ensures Distinct(Seen(c, records))
    ensures forall k :: k in Seen(c, records) <==> exists r :: r in records && c.casefold(r.labelName) == k
  {
    if records != [] {
      var n := |records| - 1;
      SeenMeans(c, records[..n]);
      assert forall r :: r in records <==> r in records[..n] || r == records[n];
    }
  }

  lemma LabelOrderIsPreorder(c: Collator)
    ensures Preorder(ByLabel(c))
  {
    forall a, b ensures ByLabel(c)(a, b) || ByLabel(c)(b, a) {
      LabelOrder(c.KeyOf(a), c.KeyOf(b), c.KeyOf(b));
    }
    forall a, b, d | ByLabel(c)(a, b) && ByLabel(c)(b, d) ensures ByLabel(c)(a, d) {
      LabelOrder(c.KeyOf(a), c.KeyOf(b), c.KeyOf(d));
    }
  }

  lemma DistinctByMultiset<T>(s: seq<T>, t: seq<T>)
    requires multiset(s) == multiset(t) && Distinct(s)
    ensures Distinct(t)
  {
    forall i, j | 0 <= i < j < |t| ensures t[i] != t[j] {
      if t[i] == t[j] {
        var x := t[i];
        assert t == t[..i] + [x] + t[i + 1..j] + [x] + t[j + 1..];
        assert multiset(t)[x] >= 2;
        DistinctOccursOnce(s, x);
      }
    }
  }

  lemma {:induction false} DistinctOccursOnce<T>(s: seq<T>, x: T)
    requires Distinct(s)
    ensures multiset(s)[x] <= 1
  {
    if s != [] {
      var n := |s| - 1;
      DistinctOccursOnce(s[..n], x);
      assert s == s[..n] + [s[n]];
      if s[n] == x {
        assert x !in s[..n];
      }
    }
  }

  /** A bin lists each label that has a record in it exactly once, in strictly increasing
      collation order; the keys are fixed points of casefolding. */
  lemma BinLabelsMean(s: Shelf, b: int)
    requires s.Valid()
    ensures var labels := s.BinLabels(b);
            && Distinct(labels)
            && (forall k :: k in labels <==> s.Run(k, b) != [])
            && (forall k :: k in labels ==> s.collator.casefold(k) == k)
            && Ordered(labels, ByLabel(s.collator))
  {
    var c := s.collator;
    var records := s.BinRecords(b);
    var seen := Seen(c, records);
    SeenMeans(c, records);
    SortPermutes(seen, ByLabel(c));
    DistinctByMultiset(seen, s.BinLabels(b));
    LabelOrderIsPreorder(c);
    SortOrders(seen, ByLabel(c));
    forall k ensures k in seen <==> s.Run(k, b) != [] {
      BinGroup(s, k, b);
      FilterMembers(records, LabelIs(c, k));
      if s.Run(k, b) != [] {
        var r := s.Run(k, b)[0];
        assert r in records && c.casefold(r.labelName) == k;
      }
    }
  }
}
