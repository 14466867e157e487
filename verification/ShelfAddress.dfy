/** Display addresses of shelf bins (frontend/src/lib/shelf.ts:3-30): bijective base-26 row letters
    over cumulative row offsets. */
module ShelfAddress {
  import opened Sequences
  import opened Orders
  import opened Decimals

  datatype Unit = Unit(id: int, ordering: int, rows: nat, cols: nat)

  datatype Cube = Cube(unitId: int, row: nat, col: nat)

  // ── Row letters ────────────────────────────────────────────────────────────

  function Letter(d: nat): (c: char)
    requires d < 26
    ensures 'A' <= c <= 'Z'
  {
    (65 + d) as char
  }

  /** The letters of a positive value; nothing for zero. */
  function Letters(value: nat): (r: string) {
    if value == 0 then "" else Letters((value - 1) / 26) + [Letter((value - 1) % 26)]
  }

  lemma LetterTable(d: nat)
    requires d < 26
    ensures Letter(d) == "ABCDEFGHIJKLMNOPQRSTUVWXYZ"[d]
  {
  }

  /** The first 26 rows carry the letters of the alphabet, and the one after Z carries AA. */
  lemma SingleLetters(index: nat)
    requires index < 26
    ensures Letters(index + 1) == ["ABCDEFGHIJKLMNOPQRSTUVWXYZ"[index]] && Letters(27) == "AA"
  {
    LetterTable(index);
    LetterTable(0);
    assert Letters(index + 1) == Letters(0) + [Letter(index)];
    assert Letters(27) == Letters(1) + [Letter(0)] && Letters(1) == Letters(0) + [Letter(0)];
  }

  /** rowLetter: the loop ends for every index. */
  method RowLetter(index: nat) returns (letters: string)
    ensures letters == Letters(index + 1)
    ensures index < 26 ==> letters == ["ABCDEFGHIJKLMNOPQRSTUVWXYZ"[index]]
  {
    letters := "";
    var value: nat := index + 1;
    assert Letters(value) + letters == Letters(index + 1);
    while value > 0
      invariant Letters(value) + letters == Letters(index + 1)
    {
      assert Letters(value) + letters == Letters((value - 1) / 26) + ([Letter((value - 1) % 26)] + letters);
      letters := [Letter((value - 1) % 26)] + letters;
      value := (value - 1) / 26;
    }
    assert Letters(0) + letters == letters;
    if index < 26 { SingleLetters(index); }
  }

  predicate IsLetters(s: string) { forall i :: 0 <= i < |s| ==> 'A' <= s[i] <= 'Z' }

  /** The value that letters stand for. */
  function Value(s: string): (n: nat)
    requires IsLetters(s)
  {
    if s == "" then 0 else 26 * Value(s[..|s| - 1]) + (s[|s| - 1] as int - 64)
  }

  /** Letters are a bijection between the naturals and the words over A to Z: no two rows share
      letters, and every word is the letters of some row. */
  lemma {:induction false} LettersRoundTrip(value: nat)
    ensures IsLetters(Letters(value)) && Value(Letters(value)) == value
  {
    if value > 0 {
      LettersRoundTrip((value - 1) / 26);
    }
  }

  lemma SplitBase26(n: nat, d: nat)
    requires d < 26
    ensures (26 * n + d) / 26 == n && (26 * n + d) % 26 == d
  {
  }

  lemma {:induction false} ValueRoundTrip(s: string)
    requires IsLetters(s)
    ensures Letters(Value(s)) == s
  {
    if s != "" {
      var n, d := Value(s[..|s| - 1]), s[|s| - 1] as int - 65;
      ValueRoundTrip(s[..|s| - 1]);
      SplitBase26(n, d);
      assert Value(s) - 1 == 26 * n + d;
    }
  }

  /** Shorter words first, alphabetically within a length. */
  predicate ShortLess(a: string, b: string) {
    |a| < |b| || (|a| == |b| && a != b && LexLe(a, b, CharLe()))
  }

  lemma {:induction false} LexSnoc(a: string, b: string, c: char, d: char)
    requires |a| == |b| && LexLe(a, b, CharLe()) && (a == b ==> c < d)
    ensures LexLe(a + [c], b + [d], CharLe())
  {
    if a != [] {
      if a[0] == b[0] {
        assert a == [a[0]] + a[1..] && b == [b[0]] + b[1..];
        LexSnoc(a[1..], b[1..], c, d);
      }
      assert (a + [c])[1..] == a[1..] + [c] && (b + [d])[1..] == b[1..] + [d];
    }
  }

  lemma {:induction false} LettersIncrease(i: nat, j: nat)
    requires i < j
    ensures ShortLess(Letters(i), Letters(j))
  {
    if i > 0 {
      var pi, pj := (i - 1) / 26, (j - 1) / 26;
      var a, b, c, d := Letters(pi), Letters(pj), Letter((i - 1) % 26), Letter((j - 1) % 26);
      if pi < pj {
        LettersIncrease(pi, pj);
        if |a| == |b| { LexSnoc(a, b, c, d); }
        assert (a + [c])[..|a|] == a && (b + [d])[..|b|] == b;
      } else {
        assert a == b && c < d;
        LexReflexive(a);
        LexSnoc(a, b, c, d);
        assert (a + [c])[|a|] != (b + [d])[|a|];
      }
    }
  }

  lemma {:induction false} LexReflexive(a: string)
    ensures LexLe(a, a, CharLe())
  {
    if a != [] { LexReflexive(a[1..]); }
  }

  // ── Units ──────────────────────────────────────────────────────────────────

  function ByOrdering(): (Unit, Unit) -> bool {
    (a: Unit, b: Unit) => a.ordering < b.ordering || (a.ordering == b.ordering && a.id <= b.id)
  }

  function OrderedUnits(units: seq<Unit>): (r: seq<Unit>) { Sort(units, ByOrdering()) }

  function RowsBefore(units: seq<Unit>, i: nat): (n: nat)
    requires i <= |units|
  {
    if i == 0 then 0 else RowsBefore(units, i - 1) + units[i - 1].rows
  }

  function HasId(id: int): Unit -> bool { (u: Unit) => u.id == id }

  /** The rows in front of the first unit with the id; 0 when there is none. */
  function RowOffset(unitId: int, ordered: seq<Unit>): (n: nat) {
    var i := FirstIndex(ordered, HasId(unitId));
    if i < |ordered| then RowsBefore(ordered, i) else 0
  }

  method UnitRowOffset(unitId: int, units: seq<Unit>) returns (offset: nat)
    ensures offset == RowOffset(unitId, OrderedUnits(units))
  {
    offset := 0;
    var ordered := OrderedUnits(units);
    for i := 0 to |ordered|
      invariant offset == RowsBefore(ordered, i)
      invariant FirstIndex(ordered, HasId(unitId)) >= i
    {
      if ordered[i].id == unitId {
        return;
      }
      offset := offset + ordered[i].rows;
    }
    return 0;
  }

  function AddressRow(cube: Cube, units: seq<Unit>): (n: nat) { RowOffset(cube.unitId, OrderedUnits(units)) + cube.row }

  function Address(cube: Cube, units: seq<Unit>): (s: string) {
    Letters(AddressRow(cube, units) + 1) + Decimal(cube.col + 1)
  }

  method CubeAddress(cube: Cube, units: seq<Unit>) returns (address: string)
    ensures address == Address(cube, units)
  {
    var offset := UnitRowOffset(cube.unitId, units);
    var letters := RowLetter(offset + cube.row);
    address := letters + Decimal(cube.col + 1);
  }

  // ── Uniqueness ─────────────────────────────────────────────────────────────

  /** Unit ids are a primary key. */
  ghost predicate DistinctIds(units: seq<Unit>) {
    forall i, j :: 0 <= i < j < |units| ==> units[i].id != units[j].id
  }

  lemma {:induction false} InsertKeepsIds(x: Unit, units: seq<Unit>)
    requires DistinctIds(units) && forall u :: u in units ==> u.id != x.id
    ensures DistinctIds(Insert(x, units, ByOrdering()))
  {
    if units != [] && !ByOrdering()(x, units[0]) {
      var rest := Insert(x, units[1..], ByOrdering());
      InsertKeepsIds(x, units[1..]);
      InsertPermutes(x, units[1..], ByOrdering());
      forall j | 0 <= j < |rest| ensures rest[j].id != units[0].id {
        assert rest[j] in multiset(rest);
        if rest[j] != x {
          assert rest[j] in units[1..];
        }
      }
    }
  }

  lemma {:induction false} OrderingKeepsIds(units: seq<Unit>)
    requires DistinctIds(units)
    ensures DistinctIds(OrderedUnits(units))
  {
    if units != [] {
      OrderingKeepsIds(units[1..]);
      SortPermutes(units[1..], ByOrdering());
      InsertKeepsIds(units[0], OrderedUnits(units[1..]));
    }
  }

  /** The cube names an existing unit and a row inside it. */
  ghost predicate Inside(cube: Cube, units: seq<Unit>) {
    exists u :: u in units && u.id == cube.unitId && cube.row < u.rows
  }

  lemma FirstWithId(units: seq<Unit>, k: nat)
    requires DistinctIds(units) && k < |units|
    ensures FirstIndex(units, HasId(units[k].id)) == k
  {
    var i := FirstIndex(units, HasId(units[k].id));
    assert HasId(units[k].id)(units[k]);
  }

  lemma InsideAt(cube: Cube, units: seq<Unit>) returns (i: nat)
    requires DistinctIds(units) && Inside(cube, units)
    ensures var ordered := OrderedUnits(units);
            && i == FirstIndex(ordered, HasId(cube.unitId)) && i < |ordered| && ordered[i].id == cube.unitId
            && cube.row < ordered[i].rows
            && AddressRow(cube, units) == RowsBefore(ordered, i) + cube.row
  {
    var ordered := OrderedUnits(units);
    var u :| u in units && u.id == cube.unitId && cube.row < u.rows;
    SortPermutes(units, ByOrdering());
    assert u in ordered;
    i :| 0 <= i < |ordered| && ordered[i] == u;
    OrderingKeepsIds(units);
    FirstWithId(ordered, i);
  }

  /** Units occupy disjoint row ranges, in order. */
  lemma {:induction false} RowRangesAreDisjoint(units: seq<Unit>, i: nat, j: nat)
    requires i < j <= |units|
    ensures RowsBefore(units, i) + units[i].rows <= RowsBefore(units, j)
  {
    if i + 1 < j {
      RowRangesAreDisjoint(units, i, j - 1);
    }
  }

  /** Rows are numbered without gaps: every number below the total is a row of some unit. */
  lemma {:induction false} RowsAreCovered(units: seq<Unit>, k: nat, n: nat) returns (i: nat, row: nat)
    requires k <= |units| && n < RowsBefore(units, k)
    ensures i < k && row < units[i].rows && RowsBefore(units, i) + row == n
  {
    if RowsBefore(units, k - 1) <= n {
      i, row := k - 1, n - RowsBefore(units, k - 1);
    } else {
      i, row := RowsAreCovered(units, k - 1, n);
    }
  }

  lemma {:induction false} SplitAddress(a: string, b: string, x: string, y: string)
    requires IsLetters(a) && IsLetters(b) && IsDigits(x) && IsDigits(y) && x != "" && y != "" && a + x == b + y
    ensures a == b && x == y
  {
    assert (a + x)[0] == if a == "" then x[0] else a[0];
    assert (b + y)[0] == if b == "" then y[0] else b[0];
    if a == "" {
      assert a + x == x && b + y == y;
    } else {
      assert a[1..] + x == (a + x)[1..] && b[1..] + y == (b + y)[1..];
      SplitAddress(a[1..], b[1..], x, y);
      assert a == [a[0]] + a[1..] && b == [b[0]] + b[1..];
    }
  }

  lemma RowAndColumn(r1: nat, c1: nat, r2: nat, c2: nat)
    requires Letters(r1) + Decimal(c1) == Letters(r2) + Decimal(c2)
    ensures r1 == r2 && c1 == c2
  {
    var (a, x) := (Letters(r1), Decimal(c1));
    var (b, y) := (Letters(r2), Decimal(c2));
    assert IsLetters(a) && Value(a) == r1 && IsLetters(b) && Value(b) == r2 by {
      LettersRoundTrip(r1);
      LettersRoundTrip(r2);
    }
    assert IsDigits(x) && x != "" && DigitsValue(x) == c1 && IsDigits(y) && y != "" && DigitsValue(y) == c2 by {
      DecimalRoundTrip(c1);
      DecimalRoundTrip(c2);
    }
    SplitAddress(a, b, x, y);
  }

  /** An address reads back as its row and its column. */
  lemma AddressTells(a: Cube, b: Cube, units: seq<Unit>)
    requires Address(a, units) == Address(b, units)
    ensures AddressRow(a, units) == AddressRow(b, units) && a.col == b.col
  {
    RowAndColumn(AddressRow(a, units) + 1, a.col + 1, AddressRow(b, units) + 1, b.col + 1);
  }

  /** Two cubes inside their units share an address only if they are the same cube. */
  lemma AddressesAreUnique(a: Cube, b: Cube, units: seq<Unit>)
    requires DistinctIds(units) && Inside(a, units) && Inside(b, units)
    ensures Address(a, units) == Address(b, units) <==> a == b
  {
    if Address(a, units) == Address(b, units) {
      AddressTells(a, b, units);
      var i := InsideAt(a, units);
      var j := InsideAt(b, units);
      if i < j { RowRangesAreDisjoint(OrderedUnits(units), i, j); }
      if j < i { RowRangesAreDisjoint(OrderedUnits(units), j, i); }
    }
  }

  lemma UnitAt(unit: Unit, units: seq<Unit>) returns (i: nat)
    requires DistinctIds(units) && unit in units
    ensures i < |OrderedUnits(units)| && OrderedUnits(units)[i] == unit && FirstIndex(OrderedUnits(units), HasId(unit.id)) == i
  {
    var ordered := OrderedUnits(units);
    SortPermutes(units, ByOrdering());
    assert unit in ordered;
    i :| 0 <= i < |ordered| && ordered[i] == unit;
    OrderingKeepsIds(units);
    FirstWithId(ordered, i);
  }

  /** Units stand by their ordering, units with the same ordering by their id. */
  lemma UnitsStandInOrder(units: seq<Unit>, u: Unit, v: Unit)
    requires DistinctIds(units) && u in units && v in units
    requires u.ordering < v.ordering || (u.ordering == v.ordering && u.id < v.id)
    ensures FirstIndex(OrderedUnits(units), HasId(u.id)) < FirstIndex(OrderedUnits(units), HasId(v.id))
  {
    var i := UnitAt(u, units);
    var j := UnitAt(v, units);
    SortOrders(units, ByOrdering());
  }

  /** The top left cube of the first unit is A1. */
  lemma FirstCube(cube: Cube, units: seq<Unit>)
    requires OrderedUnits(units) != [] && cube == Cube(OrderedUnits(units)[0].id, 0, 0)
    ensures Address(cube, units) == "A1"
  {
    assert FirstIndex(OrderedUnits(units), HasId(cube.unitId)) == 0;
    SingleLetters(0);
    assert Decimal(1) == ["0123456789"[1]];
  }

  /** Row letters follow the shelf: a later unit, or a lower row of the same unit, has later letters. */
  lemma LettersFollowShelf(a: Cube, u: Unit, b: Cube, v: Unit, units: seq<Unit>)
    requires DistinctIds(units) && u in units && v in units
    requires a.unitId == u.id && a.row < u.rows && b.unitId == v.id && b.row < v.rows
    requires u.ordering < v.ordering || (u.ordering == v.ordering && u.id < v.id) || (u == v && a.row < b.row)
    ensures ShortLess(Letters(AddressRow(a, units) + 1), Letters(AddressRow(b, units) + 1))
  {
    var i := UnitAt(u, units);
    var j := UnitAt(v, units);
    if u != v {
      UnitsStandInOrder(units, u, v);
      RowRangesAreDisjoint(OrderedUnits(units), i, j);
    }
    LettersIncrease(AddressRow(a, units) + 1, AddressRow(b, units) + 1);
  }
}
