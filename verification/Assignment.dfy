/** Which bin a record belongs to, stated directly: the cut-bearing bin with the greatest cut
    key at or below the record's key, the physically last one on ties. */
module Assignment {
  import opened Sequences
  import opened Normalize
  import opened Records

  function CatalogOf(r: RecordRow): (key: CatalogKey) { ParseKey(Some(r.catalog)) }

  function RecordKey(c: Collator, r: RecordRow): (key: CutKey) {
    CutKey(c.KeyOf(r.labelName), CatalogOf(r))
  }

  function ByCatalog(): (RecordRow, RecordRow) -> bool {
    (a, b) => CatalogLe(CatalogOf(a), CatalogOf(b))
  }

  function ByRecordKey(c: Collator): (RecordRow, RecordRow) -> bool {
    (a, b) => CutLe(RecordKey(c, a), RecordKey(c, b))
  }

  /** Boundary rows in (unit_id, row, col) order. */
  function ByPlace(): (BoundaryRow, BoundaryRow) -> bool {
    (a: BoundaryRow, b: BoundaryRow) => PlaceLe(a.unitId, a.row, a.col, b.unitId, b.row, b.col)
  }

  predicate PlaceLe(u1: int, r1: int, c1: int, u2: int, r2: int, c2: int) {
    u1 < u2 || (u1 == u2 && (r1 < r2 || (r1 == r2 && c1 <= c2)))
  }

  lemma RecordOrders(c: Collator)
    ensures Preorder(ByRecordKey(c)) && Preorder(ByCatalog()) && Preorder(ByPlace())
  {
    CutOrderAll();
    var byKey, byCatalog := ByRecordKey(c), ByCatalog();
    forall a, b, d | byCatalog(a, b) && byCatalog(b, d) ensures byCatalog(a, d) {
      CatalogOrder(CatalogOf(a), CatalogOf(b), CatalogOf(d));
    }
    forall a, b ensures byCatalog(a, b) || byCatalog(b, a) {
      CatalogOrder(CatalogOf(a), CatalogOf(b), CatalogOf(b));
    }
    forall a, b ensures byKey(a, b) || byKey(b, a) {
      assert CutLe(RecordKey(c, a), RecordKey(c, b)) || CutLe(RecordKey(c, b), RecordKey(c, a));
    }
  }

  /** The cut point of a bin; empty bins and bins with a null cut have none. */
  function CutOf(c: Collator, row: BoundaryRow): (cut: Option<CutKey>) {
    if row.isEmpty || row.firstLabel.None? || row.firstCatalog.None? then None
    else Some(CutKey(c.KeyOf(row.firstLabel.value), ParseKey(row.firstCatalog)))
  }

  predicate Reaches(cut: Option<CutKey>, key: CutKey) {
    cut.Some? && CutLe(cut.value, key)
  }

  function Cuts(c: Collator, rows: seq<BoundaryRow>): (r: seq<Option<CutKey>>)
    ensures |r| == |rows|
    ensures forall i :: 0 <= i < |rows| ==> r[i] == CutOf(c, rows[i])
  {
    seq(|rows|, i requires 0 <= i < |rows| => CutOf(c, rows[i]))
  }

  ghost predicate IsOwner(cuts: seq<Option<CutKey>>, key: CutKey, b: int) {
    && 0 <= b < |cuts|
    && Reaches(cuts[b], key)
    && forall j :: 0 <= j < |cuts| && Reaches(cuts[j], key) ==>
         CutLe(cuts[j].value, cuts[b].value) && (cuts[j] == cuts[b] ==> j <= b)
  }

  /** The owning bin of a key, or -1 when every cut is above it. */
  function Owner(cuts: seq<Option<CutKey>>, key: CutKey): (b: int)
    ensures -1 <= b < |cuts|
    ensures b >= 0 ==> IsOwner(cuts, key, b)
    ensures b == -1 ==> forall j :: 0 <= j < |cuts| ==> !Reaches(cuts[j], key)
  {
    if cuts == [] then -1 else
      var last := |cuts| - 1;
      var b := Owner(cuts[..last], key);
      assert forall j :: 0 <= j < last ==> cuts[..last][j] == cuts[j];
      CutOrderAll();
      if Reaches(cuts[last], key) && (b == -1 || CutLe(cuts[b].value, cuts[last].value)) then last
      else b
  }

  lemma OwnerIsUnique(cuts: seq<Option<CutKey>>, key: CutKey, b: int)
    requires IsOwner(cuts, key, b)
    ensures Owner(cuts, key) == b
  {
    CutOrderAll();
  }

  /** A greater key is owned by a bin whose cut is no smaller. */
  lemma OwnerIsMonotone(cuts: seq<Option<CutKey>>, k1: CutKey, k2: CutKey)
    requires CutLe(k1, k2)
    ensures Owner(cuts, k1) >= 0 ==> Owner(cuts, k2) >= 0
    ensures Owner(cuts, k1) >= 0 ==>
              CutLe(cuts[Owner(cuts, k1)].value, cuts[Owner(cuts, k2)].value)
    ensures Owner(cuts, k1) >= 0 && cuts[Owner(cuts, k1)] == cuts[Owner(cuts, k2)] ==>
              Owner(cuts, k1) == Owner(cuts, k2)
  {
    CutOrderAll();
  }

  /** Keys between two keys of one bin belong to that bin. */
  lemma OwnerIsConvex(cuts: seq<Option<CutKey>>, k1: CutKey, k2: CutKey, k3: CutKey)
    requires CutLe(k1, k2) && CutLe(k2, k3)
    requires Owner(cuts, k1) == Owner(cuts, k3) >= 0
    ensures Owner(cuts, k2) == Owner(cuts, k1)
  {
    CutOrderAll();
    OwnerIsMonotone(cuts, k1, k2);
    OwnerIsMonotone(cuts, k2, k3);
  }
}
