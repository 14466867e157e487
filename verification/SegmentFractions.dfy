/** Steps 4 and 5 of derive for one bin, over dictionaries keyed by casefolded label
    (src/gruvax/estimator/segment_cache.py:401-569). */
module SegmentFractions {
  import opened Sequences
  import opened Normalize
  import opened Records
  import opened Assignment
  import opened Widths
  import opened ShelfModel

  /** A dictionary filled for exactly the labels of a list. */
  ghost predicate Tabulates<V(!new)>(m: map<string, V>, labels: seq<string>, values: seq<V>) {
    && |labels| == |values|
    && (forall j :: 0 <= j < |labels| ==> labels[j] in m && m[labels[j]] == values[j])
  }

  /** A dictionary that holds a value for some of the labels only. */
  ghost predicate Holds<V(!new)>(m: map<string, V>, labels: seq<string>, values: seq<Option<V>>) {
    && |labels| == |values|
    && (forall j :: 0 <= j < |labels| ==>
          if labels[j] in m then values[j] == Some(m[labels[j]]) else values[j] == None)
  }

  /** `inBin` is the run of `list` that starts at rank `lo`, and no earlier record has its first key. */
  ghost predicate RunFits(list: seq<RecordRow>, inBin: seq<RecordRow>, lo: nat) {
    && inBin != [] && Ordered(list, ByCatalog())
    && lo + |inBin| <= |list| && inBin == list[lo..lo + |inBin|]
    && forall i :: 0 <= i < lo ==> CatalogOf(list[i]) != CatalogOf(list[lo])
  }

  lemma RunIsSorted(list: seq<RecordRow>, inBin: seq<RecordRow>, lo: nat)
    requires RunFits(list, inBin, lo)
    ensures Sort(inBin, ByCatalog()) == inBin && inBin[0] == list[lo]
  {
    SortFixesOrdered(inBin, ByCatalog());
  }

  /** The search for the first key not below the run's first key stops at the run. */
  lemma SearchStops(list: seq<RecordRow>, inBin: seq<RecordRow>, lo: nat, idx: nat)
    requires RunFits(list, inBin, lo) && idx <= lo
    ensures CatalogLe(CatalogOf(list[lo]), CatalogOf(list[idx])) <==> idx == lo
  {
    CatalogOrder(CatalogOf(list[idx]), CatalogOf(list[lo]), CatalogOf(list[lo]));
    if idx < lo {
      assert ByCatalog()(list[idx], list[lo]);
    }
  }

  /** first_rank, last_rank and `continues` of the records a label has in one bin, found by
      searching the label's list for the first key that is not below the run's first key. */
  method RankRun(sortedForLabel: seq<RecordRow>, inBin: seq<RecordRow>, ghost lo: nat)
    returns (first: int, last: int, continues: bool)
    requires inBin != [] && (sortedForLabel != [] ==> RunFits(sortedForLabel, inBin, lo))
    ensures sortedForLabel == [] ==> first == 0 && last == |inBin| - 1 && !continues
    ensures sortedForLabel != [] ==>
              first == lo && last == lo + |inBin| - 1 && (continues <==> last < |sortedForLabel| - 1)
  {
    var count := |inBin|;
    if sortedForLabel == [] {
      return 0, count - 1, false;
    }
    RunIsSorted(sortedForLabel, inBin, lo);
    var inBinSorted := Sort(inBin, ByCatalog());
    var firstKey := CatalogOf(inBinSorted[0]);
    first := 0;
    for idx := 0 to |sortedForLabel|
      invariant idx <= lo && first == 0
    {
      SearchStops(sortedForLabel, inBin, lo, idx);
      if CatalogLe(firstKey, CatalogOf(sortedForLabel[idx])) {
        first := idx;
        break;
      }
    }
    last := first + count - 1;
    continues := last < |sortedForLabel| - 1;
  }

  /** The overrides that apply to a bin: for each label the first dictionary item that matches. */
  method ActiveOverrides(c: Collator, overrides: seq<WidthOverride>, row: BoundaryRow, labels: seq<string>)
    returns (active: map<string, real>)
    requires Distinct(labels)
    ensures active.Keys <= set k | k in labels
    ensures forall j :: 0 <= j < |labels| ==>
              var f := OverrideFor(c, overrides, row, labels[j]);
              if labels[j] in active then f == Some(active[labels[j]]) else f == None
  {
    active := map[];
    for j := 0 to |labels|
      invariant active.Keys <= set k | k in labels[..j]
      invariant forall i :: 0 <= i < j ==>
                  var f := OverrideFor(c, overrides, row, labels[i]);
                  if labels[i] in active then f == Some(active[labels[i]]) else f == None
    {
      var lk := labels[j];
      assert lk !in labels[..j];
      for n := 0 to |overrides|
        invariant lk !in active && active.Keys <= set k | k in labels[..j]
        invariant OverrideFor(c, overrides, row, lk) == OverrideFor(c, overrides[n..], row, lk)
        invariant forall i :: 0 <= i < j ==>
                    var f := OverrideFor(c, overrides, row, labels[i]);
                    if labels[i] in active then f == Some(active[labels[i]]) else f == None
      {
        if Matches(c, overrides[n], row, lk) {
          active := active[lk := overrides[n].fraction];
          break;
        }
      }
      assert labels[..j + 1] == labels[..j] + [lk];
    }
    assert labels[..|labels|] == labels;
  }

  method SumActive(labels: seq<string>, active: map<string, real>, ghost values: seq<Option<real>>) returns (total: real)
    requires Holds(active, labels, values)
    ensures total == Sum(Values(values))
  {
    total := 0.0;
    for j := 0 to |labels|
      invariant total == Sum(Values(values)[..j])
    {
      assert Values(values)[..j + 1][..j] == Values(values)[..j];
      if labels[j] in active { total := total + active[labels[j]]; }
    }
    assert Values(values)[..|labels|] == Values(values);
  }

  method SumFree(labels: seq<string>, active: map<string, real>, counts: map<string, nat>,
                 ghost values: seq<Option<real>>, ghost perLabel: seq<nat>) returns (total: nat)
    requires Holds(active, labels, values) && Tabulates(counts, labels, perLabel)
    ensures total == Total(FreeCounts(perLabel, values))
  {
    total := 0;
    ghost var free := FreeCounts(perLabel, values);
    for j := 0 to |labels|
      invariant total == Total(free[..j])
    {
      assert free[..j + 1][..j] == free[..j];
      if labels[j] !in active { total := total + counts[labels[j]]; }
    }
    assert free[..|labels|] == free;
  }

  lemma AnyActive(labels: seq<string>, active: map<string, real>, values: seq<Option<real>>)
    requires Holds(active, labels, values) && active.Keys <= set k | k in labels
    ensures active == map[] <==> !AnyOverride(values)
  {
    if active != map[] {
      var k :| k in active;
      assert k in labels;
      var j :| 0 <= j < |labels| && labels[j] == k;
      assert values[j].Some?;
    }
  }

  lemma SameQuotient(k: real, x: real, y: real)
    requires y != 0.0
    ensures k * (x / y) == Times(k / y, x)
  {
  }

  lemma SameProduct(k: real, x: real)
    ensures x * k == Times(k, x)
    ensures Times(0.0, x) == 0.0
  {
  }

  /** The fraction of one label: the three legs of step 5. */
  method OneFraction(count: nat, total: nat, active: Option<real>, anyActive: bool, overriddenSum: real, freeTotal: nat,
                     ghost perLabel: seq<nat>, ghost values: seq<Option<real>>)
    returns (f: real)
    requires |perLabel| == |values| && total == Total(perLabel) > 0
    requires anyActive <==> AnyOverride(values)
    requires overriddenSum == Sum(Values(values)) && freeTotal == Total(FreeCounts(perLabel, values))
    ensures f == Width(ModeOf(perLabel, values), Rate(perLabel, values), count, active)
  {
    var remaining := 1.0 - overriddenSum;
    ghost var rate := Rate(perLabel, values);
    if !anyActive {
      f := count as real / total as real;
      SameQuotient(1.0, count as real, total as real);
    } else if (freeTotal == 0 || remaining < 0.0) && overriddenSum > 0.0 {
      var scale := 1.0 / overriddenSum;
      match active {
        case Some(v) =>
          f := v * scale;
          SameProduct(scale, v);
        case None =>
          f := 0.0;
      }
    } else {
      match active {
        case Some(v) =>
          f := v;
        case None =>
          if freeTotal > 0 {
            f := remaining * (count as real / freeTotal as real);
            SameQuotient(remaining, count as real, freeTotal as real);
          } else {
            f := 0.0;
            SameProduct(0.0, count as real);
          }
      }
    }
  }

  /** The first `n` labels have their fraction and their override flag. */
  ghost predicate Filled(labels: seq<string>, applied: map<string, real>, flags: map<string, bool>,
                         want: seq<real>, values: seq<Option<real>>, n: nat)
    requires n <= |labels| == |want| == |values|
  {
    forall i :: 0 <= i < n ==>
      && labels[i] in applied && applied[labels[i]] == want[i]
      && labels[i] in flags && flags[labels[i]] == values[i].Some?
  }

  lemma FillsNext(labels: seq<string>, applied: map<string, real>, flags: map<string, bool>,
                  want: seq<real>, values: seq<Option<real>>, n: nat)
    requires n < |labels| == |want| == |values| && Distinct(labels)
    requires Filled(labels, applied, flags, want, values, n)
    ensures Filled(labels, applied[labels[n] := want[n]], flags[labels[n] := values[n].Some?], want, values, n + 1)
  {
  }

  /** Step 5: the applied fraction and override flag of every label. */
  method ApplyFractions(labels: seq<string>, counts: map<string, nat>, total: nat, active: map<string, real>,
                        ghost perLabel: seq<nat>, ghost values: seq<Option<real>>)
    returns (applied: map<string, real>, flags: map<string, bool>)
    requires Distinct(labels) && Tabulates(counts, labels, perLabel) && Holds(active, labels, values)
    requires active.Keys <= set k | k in labels
    requires total == Total(perLabel) > 0
    ensures Tabulates(applied, labels, Applied(perLabel, values))
    ensures forall j :: 0 <= j < |labels| ==> labels[j] in flags && flags[labels[j]] == values[j].Some?
  {
    applied, flags := map[], map[];
    AnyActive(labels, active, values);
    var overriddenSum := SumActive(labels, active, values);
    var freeTotal := SumFree(labels, active, counts, values, perLabel);
    ghost var want := Applied(perLabel, values);
    for j := 0 to |labels|
      invariant Filled(labels, applied, flags, want, values, j)
    {
      var lk := labels[j];
      var f := OneFraction(counts[lk], total, if lk in active then Some(active[lk]) else None,
                           active != map[], overriddenSum, freeTotal, perLabel, values);
      FillsNext(labels, applied, flags, want, values, j);
      applied := applied[lk := f];
      flags := flags[lk := lk in active];
    }
  }
}
