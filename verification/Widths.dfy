/** The fraction arithmetic of one bin (src/gruvax/estimator/segment_cache.py:446-569):
    automatic fractions, admin overrides, renormalization and the rescaling of bins that
    have nothing left to absorb the difference. Fractions are reals. */
module Widths {
  import opened Sequences

  function ValueOf(override: Option<real>): (v: real) {
    match override case Some(f) => f case None => 0.0
  }

  /** The override values, 0 where a label has none. */
  function Values(active: seq<Option<real>>): (r: seq<real>)
    ensures |r| == |active|
    ensures forall j :: 0 <= j < |active| ==> r[j] == ValueOf(active[j])
  {
    seq(|active|, j requires 0 <= j < |active| => ValueOf(active[j]))
  }

  /** The counts of labels without an override, 0 for the others. */
  function FreeCounts(counts: seq<nat>, active: seq<Option<real>>): (r: seq<nat>)
    requires |counts| == |active|
    ensures |r| == |counts|
    ensures forall j :: 0 <= j < |counts| ==> r[j] == if active[j].Some? then 0 else counts[j]
  {
    seq(|counts|, j requires 0 <= j < |counts| => if active[j].Some? then 0 else counts[j])
  }

  ghost predicate AnyOverride(active: seq<Option<real>>) {
    exists j :: 0 <= j < |active| && active[j].Some?
  }

  function Times(k: real, x: real): (r: real) { k * x }

  /** The three branches of step 5: no override applies, nothing can absorb the difference,
      or the labels without an override share what is left. */
  datatype Mode = Auto | Rescaled | Shared

  ghost function ModeOf(counts: seq<nat>, active: seq<Option<real>>): (m: Mode)
    requires |counts| == |active|
  {
    if !AnyOverride(active) then Auto
    else if (Total(FreeCounts(counts, active)) == 0 || 1.0 - Sum(Values(active)) < 0.0) && Sum(Values(active)) > 0.0
    then Rescaled
    else Shared
  }

  /** What one record (or, when rescaling, one unit of override) is worth in the bin. */
  ghost function Rate(counts: seq<nat>, active: seq<Option<real>>): (k: real)
    requires |counts| == |active|
  {
    var total, free, overridden := Total(counts), Total(FreeCounts(counts, active)), Sum(Values(active));
    match ModeOf(counts, active)
    case Auto => if total > 0 then 1.0 / total as real else 0.0
    case Rescaled => 1.0 / overridden
    case Shared => if free > 0 then (1.0 - overridden) / free as real else 0.0
  }

  function Width(mode: Mode, rate: real, count: nat, override: Option<real>): (w: real) {
    match (mode, override)
    case (Auto, _) => Times(rate, count as real)
    case (Rescaled, Some(f)) => Times(rate, f)
    case (Rescaled, None) => 0.0
    case (Shared, Some(f)) => f
    case (Shared, None) => Times(rate, count as real)
  }

  /** The applied fractions of one bin, label by label; `counts` are the records per label and
      `active` the overrides that apply. */
  ghost function Applied(counts: seq<nat>, active: seq<Option<real>>): (w: seq<real>)
    requires |counts| == |active|
    ensures |w| == |counts|
    ensures forall j :: 0 <= j < |counts| ==>
              w[j] == Width(ModeOf(counts, active), Rate(counts, active), counts[j], active[j])
  {
    seq(|counts|, j requires 0 <= j < |counts| =>
      Width(ModeOf(counts, active), Rate(counts, active), counts[j], active[j]))
  }

  /** The only shape derive cannot renormalize: every record belongs to an overridden label and
      the overrides do not sum to something positive. */
  ghost predicate Degenerate(counts: seq<nat>, active: seq<Option<real>>)
    requires |counts| == |active|
  {
    AnyOverride(active) && Total(FreeCounts(counts, active)) == 0 && Sum(Values(active)) <= 0.0
  }

  lemma {:induction false} SumOfWidths(mode: Mode, k: real, counts: seq<nat>, active: seq<Option<real>>, w: seq<real>)
    requires |counts| == |active| == |w|
    requires forall j :: 0 <= j < |w| ==> w[j] == Width(mode, k, counts[j], active[j])
    ensures mode.Auto? ==> Sum(w) == Times(k, Total(counts) as real)
    ensures mode.Rescaled? ==> Sum(w) == Times(k, Sum(Values(active)))
    ensures mode.Shared? ==> Sum(w) == Sum(Values(active)) + Times(k, Total(FreeCounts(counts, active)) as real)
  {
    if w != [] {
      var n := |w| - 1;
      SumOfWidths(mode, k, counts[..n], active[..n], w[..n]);
      assert Values(active)[..n] == Values(active[..n]);
      assert FreeCounts(counts, active)[..n] == FreeCounts(counts[..n], active[..n]);
      TimesAdds(k, Total(counts[..n]) as real, counts[n] as real);
      TimesAdds(k, Sum(Values(active[..n])), Values(active)[n]);
      TimesAdds(k, Total(FreeCounts(counts[..n], active[..n])) as real, FreeCounts(counts, active)[n] as real);
    }
  }

  lemma TimesAdds(k: real, x: real, y: real)
    ensures Times(k, x + y) == Times(k, x) + Times(k, y)
    ensures Times(k, 0.0) == 0.0
  {
  }

  /** The fractions of a non-empty bin sum to exactly 1 unless the bin is degenerate, and a
      degenerate bin misses 1 by at least 1. */
  lemma AppliedSumsToOne(counts: seq<nat>, active: seq<Option<real>>)
    requires |counts| == |active| && Total(counts) > 0
    ensures Degenerate(counts, active) ==> Sum(Applied(counts, active)) <= 0.0
    ensures !Degenerate(counts, active) ==> Sum(Applied(counts, active)) == 1.0
  {
    match ModeOf(counts, active) {
      case Auto => AutoSum(counts, active);
      case Rescaled => RescaledSum(counts, active);
      case Shared => SharedSum(counts, active);
    }
  }

  lemma AutoSum(counts: seq<nat>, active: seq<Option<real>>)
    requires |counts| == |active| && Total(counts) > 0 && ModeOf(counts, active).Auto?
    ensures Sum(Applied(counts, active)) == 1.0
  {
    SumOfWidths(Auto, Rate(counts, active), counts, active, Applied(counts, active));
    Cancel(1.0, Total(counts) as real, Rate(counts, active));
  }

  lemma RescaledSum(counts: seq<nat>, active: seq<Option<real>>)
    requires |counts| == |active| && ModeOf(counts, active).Rescaled?
    ensures Sum(Applied(counts, active)) == 1.0
  {
    SumOfWidths(Rescaled, Rate(counts, active), counts, active, Applied(counts, active));
    Cancel(1.0, Sum(Values(active)), Rate(counts, active));
  }

  lemma SharedSum(counts: seq<nat>, active: seq<Option<real>>)
    requires |counts| == |active| && ModeOf(counts, active).Shared?
    ensures Sum(Applied(counts, active)) ==
              if Total(FreeCounts(counts, active)) > 0 then 1.0 else Sum(Values(active))
  {
    var free := Total(FreeCounts(counts, active));
    SumOfWidths(Shared, Rate(counts, active), counts, active, Applied(counts, active));
    if free > 0 {
      Cancel(1.0 - Sum(Values(active)), free as real, Rate(counts, active));
    }
  }

  lemma Cancel(x: real, y: real, k: real)
    requires y != 0.0 && k == x / y
    ensures Times(k, y) == x
  {
  }

  /** x and y are to each other as p and q. */
  predicate Proportional(x: real, y: real, p: real, q: real) { x * q == y * p }

  lemma SharedWidths(k: real, ci: nat, cj: nat, ai: Option<real>, aj: Option<real>)
    ensures ai.Some? ==> Width(Shared, k, ci, ai) == ai.value
    ensures ai.None? && aj.None? ==> Proportional(Width(Shared, k, ci, ai), Width(Shared, k, cj, aj), ci as real, cj as real)
  {
    Swap(k, ci as real, cj as real);
  }

  lemma RescaledWidths(k: real, ci: nat, cj: nat, ai: Option<real>, aj: Option<real>)
    ensures Proportional(Width(Rescaled, k, ci, ai), Width(Rescaled, k, cj, aj), ValueOf(ai), ValueOf(aj))
    ensures ai.None? ==> Width(Rescaled, k, ci, ai) == 0.0
  {
    if ai.Some? && aj.Some? { Swap(k, ai.value, aj.value); }
  }

  lemma ModeMeans(counts: seq<nat>, active: seq<Option<real>>)
    requires |counts| == |active| && AnyOverride(active) && Sum(Values(active)) > 0.0
    ensures ModeOf(counts, active) == if Total(FreeCounts(counts, active)) > 0 && Sum(Values(active)) <= 1.0 then Shared else Rescaled
  {
  }

  /** What overrides mean. When some label can absorb and the overrides stay within 1, every
      override is applied as set and the other labels share the rest in proportion to their
      counts; otherwise overridden labels keep their relative widths and the others get none. */
  lemma AppliedMeans(counts: seq<nat>, active: seq<Option<real>>, i: nat, j: nat)
    requires |counts| == |active| && i < |counts| && j < |counts|
    requires AnyOverride(active)
    requires forall n :: 0 <= n < |active| && active[n].Some? ==> active[n].value > 0.0
    ensures var w := Applied(counts, active);
            if Total(FreeCounts(counts, active)) > 0 && Sum(Values(active)) <= 1.0 then
              && (active[i].Some? ==> w[i] == active[i].value)
              && (active[i].None? && active[j].None? ==> Proportional(w[i], w[j], counts[i] as real, counts[j] as real))
            else
              && Proportional(w[i], w[j], ValueOf(active[i]), ValueOf(active[j]))
              && (active[i].None? ==> w[i] == 0.0)
  {
    OverridesArePositive(active);
    ModeMeans(counts, active);
    if ModeOf(counts, active).Shared? {
      SharedWidths(Rate(counts, active), counts[i], counts[j], active[i], active[j]);
    } else {
      RescaledWidths(Rate(counts, active), counts[i], counts[j], active[i], active[j]);
    }
  }

  lemma ShareOf(total: real, count: real)
    requires total > 0.0
    ensures Times(1.0 / total, count) == count / total
  {
  }

  /** Without an override every label gets its share of the records. */
  lemma SharesWithoutOverrides(counts: seq<nat>, active: seq<Option<real>>, j: nat)
    requires |counts| == |active| && j < |counts| && Total(counts) > 0 && !AnyOverride(active)
    ensures Applied(counts, active)[j] == counts[j] as real / Total(counts) as real
  {
    ShareOf(Total(counts) as real, counts[j] as real);
  }

  lemma Swap(k: real, x: real, y: real)
    ensures Times(k, x) * y == Times(k, y) * x
  {
    assert (k * x) * y == (k * y) * x;
  }

  lemma {:induction false} SumAtLeast(s: seq<real>, j: nat)
    requires j < |s| && forall n :: 0 <= n < |s| ==> s[n] >= 0.0
    ensures Sum(s) >= s[j]
  {
    var n := |s| - 1;
    if j == n {
      SumNonNegative(s[..n]);
    } else {
      SumAtLeast(s[..n], j);
    }
  }

  lemma OverridesArePositive(active: seq<Option<real>>)
    requires AnyOverride(active)
    requires forall n :: 0 <= n < |active| && active[n].Some? ==> active[n].value > 0.0
    ensures Sum(Values(active)) > 0.0
  {
    var j :| 0 <= j < |active| && active[j].Some?;
    SumAtLeast(Values(active), j);
  }

  /** With overrides that are positive, as the schema demands, no bin is degenerate and no
      width is negative, whatever the overrides sum to. */
  lemma PositiveOverridesAreSafe(counts: seq<nat>, active: seq<Option<real>>)
    requires |counts| == |active|
    requires forall n :: 0 <= n < |active| && active[n].Some? ==> active[n].value > 0.0
    ensures !Degenerate(counts, active)
    ensures forall j :: 0 <= j < |counts| ==> Applied(counts, active)[j] >= 0.0
  {
    if AnyOverride(active) {
      OverridesArePositive(active);
    }
    RateNonNegative(counts, active);
    forall j | 0 <= j < |counts| ensures Applied(counts, active)[j] >= 0.0 {
      ProductNonNegative(Rate(counts, active), counts[j] as real);
      if active[j].Some? { ProductNonNegative(Rate(counts, active), active[j].value); }
    }
  }

  lemma RateNonNegative(counts: seq<nat>, active: seq<Option<real>>)
    requires |counts| == |active|
    requires AnyOverride(active) ==> Sum(Values(active)) > 0.0
    ensures Rate(counts, active) >= 0.0
  {
  }

  lemma ProductNonNegative(x: real, y: real)
    requires x >= 0.0 && y >= 0.0
    ensures Times(x, y) >= 0.0
  {
  }
}
