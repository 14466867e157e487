/** Records and cut points, and the two caches the estimator reads
    (src/gruvax/estimator/collection_snapshot.py and boundary_cache.py). */
module Records {
  import opened Sequences
  import opened Normalize

  datatype RecordRow = RecordRow(releaseId: int, labelName: string, catalog: string)

  datatype BoundaryRow = BoundaryRow(
    unitId: int, row: int, col: int,
    firstLabel: Option<string>, firstCatalog: Option<string>, isEmpty: bool)

  /** One item of the overrides dictionary: (unit, row, col, label) -> fraction. */
  datatype WidthOverride = WidthOverride(unitId: int, row: int, col: int, labelName: string, fraction: real)

  /** The records whose casefolded label is `key`. */
  function LabelIs(c: Collator, key: string): RecordRow -> bool {
    (r: RecordRow) => c.casefold(r.labelName) == key
  }

  /** `byLabel` with its insertion order is a dictionary of records grouped by casefolded label. */
  ghost predicate Grouped(c: Collator, order: seq<string>, byLabel: map<string, seq<RecordRow>>) {
    && Distinct(order)
    && (forall k :: k in order <==> k in byLabel)
    && (forall k, r :: k in byLabel && r in byLabel[k] ==> c.casefold(r.labelName) == k)
  }

  /** The grouping of `records`: one group per casefolded label that occurs, in record order. */
  ghost predicate GroupsOf(c: Collator, records: seq<RecordRow>, order: seq<string>, byLabel: map<string, seq<RecordRow>>) {
    && Grouped(c, order, byLabel)
    && (forall k :: k in byLabel ==> byLabel[k] == Filter(records, LabelIs(c, k)) && byLabel[k] != [])
    && (forall r :: r in records ==> c.casefold(r.labelName) in byLabel)
  }

  lemma AddingKeepsGroups(c: Collator, records: seq<RecordRow>, record: RecordRow, order: seq<string>, byLabel: map<string, seq<RecordRow>>)
    requires GroupsOf(c, records, order, byLabel)
    ensures var key := c.casefold(record.labelName);
            var more := records + [record];
            var base := if key in byLabel then byLabel else byLabel[key := []];
            GroupsOf(c, more, if key in byLabel then order else order + [key], base[key := base[key] + [record]])
  {
    var key := c.casefold(record.labelName);
    var more := records + [record];
    forall k ensures Filter(more, LabelIs(c, k)) == Filter(records, LabelIs(c, k)) + if k == key then [record] else [] {
      FilterConcat(records, [record], LabelIs(c, k));
      assert Filter([record], LabelIs(c, k)) == if k == key then [record] else [];
    }
    if key !in byLabel {
      FilterNone(records, LabelIs(c, key));
      var order2 := order + [key];
      assert forall k :: k in order2 <==> k in order || k == key;
    }
  }

  function RowOf(raw: (int, Option<string>, Option<string>)): (r: RecordRow) {
    RecordRow(raw.0,
              match raw.1 case Some(s) => s case None => "",
              match raw.2 case Some(s) => s case None => "")
  }

  function RowsOf(raw: seq<(int, Option<string>, Option<string>)>): (r: seq<RecordRow>)
    ensures |r| == |raw|
    ensures forall i :: 0 <= i < |raw| ==> r[i] == RowOf(raw[i])
  {
    seq(|raw|, i requires 0 <= i < |raw| => RowOf(raw[i]))
  }

  lemma RowsOfNext(raw: seq<(int, Option<string>, Option<string>)>, i: nat)
    requires i < |raw|
    ensures RowsOf(raw[..i + 1]) == RowsOf(raw[..i]) + [RowOf(raw[i])]
  {
  }

  /** Every selected row is filed under its folded label, a missing label or catalog as a blank one. */
  lemma RowIsFiled(c: Collator, raw: seq<(int, Option<string>, Option<string>)>, order: seq<string>,
                   byLabel: map<string, seq<RecordRow>>, i: nat)
    requires GroupsOf(c, RowsOf(raw), order, byLabel) && i < |raw|
    ensures var (id, name, catalog) := raw[i];
            var record := RecordRow(id, if name.Some? then name.value else "", if catalog.Some? then catalog.value else "");
            c.casefold(record.labelName) in byLabel && record in byLabel[c.casefold(record.labelName)]
  {
    var record := RowsOf(raw)[i];
    assert record in RowsOf(raw);
    FilterMember(RowsOf(raw), LabelIs(c, c.casefold(record.labelName)), record);
  }

  class CollectionSnapshot {
    const collator: Collator
    var order: seq<string>
    var byLabel: map<string, seq<RecordRow>>

    ghost predicate Valid() reads this {
      collator.Valid() && Grouped(collator, order, byLabel)
    }

    constructor (collator: Collator)
      requires collator.Valid()
      ensures Valid() && this.collator == collator && order == [] && byLabel == map[]
    {
      this.collator := collator;
      order, byLabel := [], map[];
    }

    /** load: groups the selected rows by casefolded label, keeping their order inside a group. */
    method Load(rows: seq<(int, Option<string>, Option<string>)>)
      requires Valid()
      modifies this
      ensures Valid() && GroupsOf(collator, RowsOf(rows), order, byLabel)
    {
      var keys: seq<string>, groups: map<string, seq<RecordRow>> := [], map[];
      for i := 0 to |rows|
        invariant var grouped := GroupsOf(collator, RowsOf(rows[..i]), keys, groups); grouped
      {
        var record := RowOf(rows[i]);
        var key := collator.casefold(record.labelName);
        RowsOfNext(rows, i);
        AddingKeepsGroups(collator, RowsOf(rows[..i]), record, keys, groups);
        if key !in groups {
          keys := keys + [key];
          groups := groups[key := []];
        }
        groups := groups[key := groups[key] + [record]];
      }
      assert rows[..|rows|] == rows;
      order, byLabel := keys, groups;
    }

    /** publish_from */
    method PublishFrom(prepared: CollectionSnapshot)
      requires prepared.Valid() && prepared.collator == collator
      modifies this
      ensures Valid() && order == prepared.order && byLabel == prepared.byLabel
    {
      order, byLabel := prepared.order, prepared.byLabel;
    }

    /** get_label_records */
    function LabelRecords(name: string): (r: seq<RecordRow>)
      reads this
    {
      var key := collator.casefold(name);
      if key in byLabel then byLabel[key] else []
    }

    method Invalidate()
      requires collator.Valid()
      modifies this
      ensures Valid() && byLabel == map[]
    {
      order, byLabel := [], map[];
    }
  }

  class BoundaryCache {
    var rows: seq<BoundaryRow>
    var overrides: seq<WidthOverride>
    var generation: nat

    constructor ()
      ensures rows == [] && overrides == [] && generation == 0
    {
      rows, overrides, generation := [], [], 0;
    }

    /** load: both result sets arrive before either is published, so a failed second
        select leaves the previous contents and generation in place. */
    method Load(newRows: Option<seq<BoundaryRow>>, newOverrides: Option<seq<WidthOverride>>) returns (ok: bool)
      modifies this
      ensures ok <==> newRows.Some? && newOverrides.Some?
      ensures ok ==> rows == newRows.value && overrides == newOverrides.value && generation == old(generation) + 1
      ensures !ok ==> rows == old(rows) && overrides == old(overrides) && generation == old(generation)
    {
      if newRows.None? { return false; }
      var loadedRows := newRows.value;
      if newOverrides.None? { return false; }
      rows := loadedRows;
      overrides := newOverrides.value;
      generation := generation + 1;
      return true;
    }

    method PublishFrom(prepared: BoundaryCache)
      modifies this
      ensures rows == old(prepared.rows) && overrides == old(prepared.overrides)
      ensures generation == old(generation) + 1
    {
      rows, overrides := prepared.rows, prepared.overrides;
      generation := generation + 1;
    }

    method Invalidate()
      modifies this
      ensures rows == [] && overrides == [] && generation == old(generation) + 1
    {
      rows, overrides := [], [];
      generation := generation + 1;
    }
  }
}
