/** What the boundary document keeps (src/gruvax/io/boundary_yaml.py:55-181). */
module BoundaryRoundTrip {
  import opened Sequences
  import opened Orders
  import opened BoundaryDocument
  import N = Normalize

  // ── Entries ────────────────────────────────────────────────────────────────

  predicate ValidOverride(o: (string, real)) { N.Strip(o.0) != "" && 0.0 < o.1 <= 1.0 }

  /** The items of a dictionary whose values are fractions. */
  ghost predicate ValidOverrides(overrides: seq<(string, real)>) {
    && (forall i :: 0 <= i < |overrides| ==> ValidOverride(overrides[i]))
    && DistinctNames(overrides)
  }

  ghost predicate DistinctNames(overrides: seq<(string, real)>) {
    forall i, j :: 0 <= i < j < |overrides| ==> overrides[i].0 != overrides[j].0
  }

  ghost predicate Valid(e: CutPointEntry) {
    e.unitId >= 1 && e.row >= 0 && e.col >= 0 && ValidOverrides(e.overrides)
  }

  ghost predicate AllValid(entries: seq<CutPointEntry>) { forall e :: e in entries ==> Valid(e) }

  /** What serialization keeps of an entry: an empty cube has no cut and no overrides. */
  function Canonical(e: CutPointEntry): (r: CutPointEntry) {
    if e.isEmpty then e.(firstLabel := None, firstCatalog := None, overrides := [])
    else e.(overrides := Sort(e.overrides, ByLabel()))
  }

  function Canonicals(entries: seq<CutPointEntry>): (r: seq<CutPointEntry>)
    ensures |r| == |entries| && forall i :: 0 <= i < |r| ==> r[i] == Canonical(entries[i])
  {
    seq(|entries|, i requires 0 <= i < |entries| => Canonical(entries[i]))
  }

  lemma CanonicalsCons(e: CutPointEntry, entries: seq<CutPointEntry>)
    ensures Canonicals([e] + entries) == [Canonical(e)] + Canonicals(entries)
  {
  }

  // ── Parsing lets only valid entries through ────────────────────────────────

  lemma ValidCons(o: (string, real), rest: seq<(string, real)>)
    requires ValidOverride(o) && ValidOverrides(rest) && forall p :: p in rest ==> p.0 != o.0
    ensures ValidOverrides([o] + rest)
  {
  }

  lemma {:induction false} PutKeepsValid(overrides: seq<(string, real)>, name: string, fraction: real)
    requires ValidOverrides(overrides) && ValidOverride((name, fraction))
    ensures ValidOverrides(Put(overrides, name, fraction))
    ensures forall o :: o in Put(overrides, name, fraction) ==> o.0 == name || o in overrides
  {
    if overrides != [] {
      if overrides[0].0 == name {
        ValidCons((name, fraction), overrides[1..]);
      } else {
        PutKeepsValid(overrides[1..], name, fraction);
        ValidCons(overrides[0], Put(overrides[1..], name, fraction));
      }
    }
  }

  lemma {:induction false} OverridesFromIsValid(reader: Reader, pairs: seq<(Yaml, Yaml)>, index: nat, done: seq<(string, real)>)
    requires ValidOverrides(done)
    ensures var r := OverridesFrom(reader, pairs, index, done); r.Ok? ==> ValidOverrides(r.value)
    decreases |pairs|
  {
    if pairs != [] {
      var o := OneOverride(reader, pairs[0], index);
      if o.Ok? {
        PutKeepsValid(done, o.value.0, o.value.1);
        OverridesFromIsValid(reader, pairs[1..], index, Put(done, o.value.0, o.value.1));
      }
    }
  }

  lemma CubeIsValid(reader: Reader, cube: Yaml, index: nat)
    ensures var r := ParseCube(reader, cube, index); r.Ok? ==> Valid(r.value)
  {
    if cube.Mapping? {
      var value := Get(cube.pairs, "overrides", Mapping([]));
      if value.Mapping? {
        OverridesFromIsValid(reader, value.pairs, index, []);
      }
    }
  }

  lemma {:induction false} CubesAreValid(reader: Reader, cubes: seq<Yaml>, index: nat)
    ensures var r := ParseEach(CubeParser(reader), cubes, index); r.Ok? ==> AllValid(r.value) && |r.value| == |cubes|
    decreases |cubes|
  {
    if cubes != [] {
      CubeIsValid(reader, cubes[0], index);
      CubesAreValid(reader, cubes[1..], index + 1);
    }
  }

  /** Whatever the document, parsing yields only entries with addresses in range and with
      overrides in (0, 1] under distinct non-blank labels, one entry for every cube. */
  lemma ParsedIsValid(reader: Reader, data: Yaml)
    ensures var r := ParseBoundaries(reader, data);
            r.Ok? ==>
              && AllValid(r.value) && data.Mapping? && Get(data.pairs, "version", Null) == Str("1")
              && Get(data.pairs, "cubes", List([])).List? && |r.value| == |Get(data.pairs, "cubes", List([])).items|
  {
    if data.Mapping? && Get(data.pairs, "cubes", List([])).List? {
      CubesAreValid(reader, Get(data.pairs, "cubes", List([])).items, 1);
    }
  }

  // ── What the parser accepts ────────────────────────────────────────────────

  /** A number of an address: present, no boolean, no fraction, at least `least`. */
  ghost predicate AddressNumber(reader: Reader, v: Option<Yaml>, least: int) {
    && v.Some? && !v.value.Null? && !v.value.Bool? && !v.value.NonFinite?
    && (v.value.Float? ==> v.value.x == v.value.x.Floor as real)
    && reader.toInt(v.value).Some? && reader.toInt(v.value).value >= least
  }

  /** One override: a non-blank text and a number, no boolean, above 0 and at most 1. */
  ghost predicate OverridePair(reader: Reader, pair: (Yaml, Yaml)) {
    && pair.0.Str? && N.Strip(pair.0.s) != "" && !pair.1.Bool?
    && reader.toFloat(pair.1).Some? && reader.toFloat(pair.1).value.Finite?
    && 0.0 < reader.toFloat(pair.1).value.x <= 1.0
  }

  lemma {:induction false} OverridesAccepted(reader: Reader, pairs: seq<(Yaml, Yaml)>, index: nat, done: seq<(string, real)>)
    ensures OverridesFrom(reader, pairs, index, done).Ok? <==> forall i :: 0 <= i < |pairs| ==> OverridePair(reader, pairs[i])
    decreases |pairs|
  {
    if pairs != [] {
      var o := OneOverride(reader, pairs[0], index);
      assert o.Ok? <==> OverridePair(reader, pairs[0]);
      assert forall i :: 0 < i < |pairs| ==> pairs[i] == pairs[1..][i - 1];
      if o.Ok? {
        OverridesAccepted(reader, pairs[1..], index, Put(done, o.value.0, o.value.1));
        forall i | 0 <= i < |pairs[1..]| && !OverridePair(reader, pairs[1..][i]) ensures !OverridePair(reader, pairs[i + 1]) { }
      }
    }
  }

  /** The overrides of a cube: a mapping of acceptable pairs, or nothing at all. */
  ghost predicate OverridesValue(reader: Reader, v: Option<Yaml>) {
    v.None? || (v.value.Mapping? && forall i :: 0 <= i < |v.value.pairs| ==> OverridePair(reader, v.value.pairs[i]))
  }

  lemma OverridesValueMeans(reader: Reader, pairs: seq<(Yaml, Yaml)>, index: nat)
    ensures OverridesOf(reader, Get(pairs, "overrides", Mapping([])), index).Ok? <==> OverridesValue(reader, Lookup(pairs, "overrides"))
  {
    var v := Get(pairs, "overrides", Mapping([]));
    if v.Mapping? { OverridesAccepted(reader, v.pairs, index, []); }
  }

  ghost predicate OptionalTextValue(v: Option<Yaml>) { v.None? || v.value.Null? || v.value.Str? }

  /** A cube is accepted exactly when it is a mapping with whole numbers in range for its address, a
      boolean for `is_empty` if given, texts or nulls for the cut if given, and acceptable overrides
      if given. */
  ghost predicate Acceptable(reader: Reader, cube: Yaml) {
    && cube.Mapping?
    && var isEmpty := Lookup(cube.pairs, "is_empty");
       && (isEmpty.None? || isEmpty.value.Bool?)
       && AddressNumber(reader, Lookup(cube.pairs, "unit_id"), 1)
       && AddressNumber(reader, Lookup(cube.pairs, "row"), 0)
       && AddressNumber(reader, Lookup(cube.pairs, "col"), 0)
       && OptionalTextValue(Lookup(cube.pairs, "first_label")) && OptionalTextValue(Lookup(cube.pairs, "first_catalog"))
       && OverridesValue(reader, Lookup(cube.pairs, "overrides"))
  }

  lemma AddressAccepted(reader: Reader, pairs: seq<(Yaml, Yaml)>, key: string, index: nat)
    ensures AddressValue(reader, pairs, key, index).Ok?
            <==> AddressNumber(reader, Lookup(pairs, key), if key == "unit_id" then 1 else 0)
  {
  }

  lemma AcceptedExactly(reader: Reader, cube: Yaml, index: nat)
    ensures ParseCube(reader, cube, index).Ok? <==> Acceptable(reader, cube)
  {
    if cube.Mapping? {
      AddressAccepted(reader, cube.pairs, "unit_id", index);
      AddressAccepted(reader, cube.pairs, "row", index);
      AddressAccepted(reader, cube.pairs, "col", index);
      OverridesValueMeans(reader, cube.pairs, index);
    }
  }

  ghost predicate FirstBad(parse: (Yaml, nat) -> Result<CutPointEntry>, cubes: seq<Yaml>, index: nat, k: nat) {
    && k < |cubes| && parse(cubes[k], index + k).Err?
    && forall i :: 0 <= i < k ==> parse(cubes[i], index + i).Ok?
  }

  /** A list of cubes is refused for its first bad cube, and only then. */
  lemma {:induction false} RefusedForFirstBad(parse: (Yaml, nat) -> Result<CutPointEntry>, cubes: seq<Yaml>, index: nat, k: nat)
    requires FirstBad(parse, cubes, index, k)
    ensures ParseEach(parse, cubes, index) == Err(parse(cubes[k], index + k).error)
    decreases |cubes|
  {
    if k > 0 {
      assert parse(cubes[0], index + 0).Ok?;
      forall i | 0 <= i < k - 1 ensures parse(cubes[1..][i], index + 1 + i).Ok? {
        assert index + 1 + i == index + (i + 1) && cubes[1..][i] == cubes[i + 1];
        assert parse(cubes[i + 1], index + (i + 1)).Ok?;
      }
      assert index + 1 + (k - 1) == index + k;
      RefusedForFirstBad(parse, cubes[1..], index + 1, k - 1);
    }
  }

  // ── One cube there and back ────────────────────────────────────────────────

  lemma {:induction false} PutAbsent(overrides: seq<(string, real)>, name: string, fraction: real)
    requires forall i :: 0 <= i < |overrides| ==> overrides[i].0 != name
    ensures Put(overrides, name, fraction) == overrides + [(name, fraction)]
  {
    if overrides != [] {
      PutAbsent(overrides[1..], name, fraction);
    }
  }

  lemma {:induction false} OverridesRoundTrip(reader: Reader, overrides: seq<(string, real)>, index: nat, done: seq<(string, real)>)
    requires reader.Faithful() && ValidOverrides(done + overrides)
    ensures OverridesFrom(reader, OverridePairs(overrides), index, done) == Ok(done + overrides)
    decreases |overrides|
  {
    if overrides == [] {
      assert done + overrides == done;
    } else {
      var (name, x) := overrides[0];
      var all := done + overrides;
      assert all[|done|] == overrides[0];
      forall i | 0 <= i < |done| ensures done[i].0 != name {
        assert all[i] == done[i];
      }
      assert OneOverride(reader, OverridePairs(overrides)[0], index) == Ok((name, x));
      PutAbsent(done, name, x);
      assert done + overrides == (done + [(name, x)]) + overrides[1..];
      assert OverridePairs(overrides)[1..] == OverridePairs(overrides[1..]);
      OverridesRoundTrip(reader, overrides[1..], index, done + [(name, x)]);
    }
  }

  lemma {:induction false} LookupFinds(pairs: seq<(Yaml, Yaml)>, key: string, i: nat)
    requires i <= |pairs| && forall j :: 0 <= j < i ==> pairs[j].0 != Str(key)
    ensures i < |pairs| && pairs[i].0 == Str(key) ==> Lookup(pairs, key) == Some(pairs[i].1)
    ensures i == |pairs| ==> Lookup(pairs, key) == None
  {
    if i > 0 {
      LookupFinds(pairs[1..], key, i - 1);
    }
  }

  lemma SortKeepsValid(overrides: seq<(string, real)>)
    requires ValidOverrides(overrides)
    ensures ValidOverrides(Sort(overrides, ByLabel()))
  {
    var r := Sort(overrides, ByLabel());
    SortPermutes(overrides, ByLabel());
    forall i | 0 <= i < |r| ensures ValidOverride(r[i]) {
      assert r[i] in overrides;
    }
    SortKeepsNames(overrides);
  }

  lemma {:induction false} SortKeepsNames(overrides: seq<(string, real)>)
    requires DistinctNames(overrides)
    ensures DistinctNames(Sort(overrides, ByLabel()))
  {
    if overrides != [] {
      SortKeepsNames(overrides[1..]);
      SortPermutes(overrides[1..], ByLabel());
      InsertKeepsNames(overrides[0], Sort(overrides[1..], ByLabel()));
    }
  }

  lemma {:induction false} InsertKeepsNames(o: (string, real), overrides: seq<(string, real)>)
    requires DistinctNames(overrides)
    requires forall p :: p in overrides ==> p.0 != o.0
    ensures DistinctNames(Insert(o, overrides, ByLabel()))
  {
    if overrides != [] && !ByLabel()(o, overrides[0]) {
      var rest := Insert(o, overrides[1..], ByLabel());
      InsertKeepsNames(o, overrides[1..]);
      InsertPermutes(o, overrides[1..], ByLabel());
      forall j | 0 <= j < |rest| ensures rest[j].0 != overrides[0].0 {
        assert rest[j] in multiset(rest);
        if rest[j] != o { assert rest[j] in overrides[1..]; }
      }
    }
  }

  /** The fields of a serialized cube, found by key. */
  lemma AddressKeys(e: CutPointEntry)
    ensures var pairs := CubeDocument(e).pairs;
            && Lookup(pairs, "unit_id") == Some(Int(e.unitId))
            && Lookup(pairs, "row") == Some(Int(e.row))
            && Lookup(pairs, "col") == Some(Int(e.col))
            && Lookup(pairs, "is_empty") == Some(Bool(e.isEmpty))
  {
    var pairs := CubeDocument(e).pairs;
    LookupFinds(pairs, "unit_id", 0);
    LookupFinds(pairs, "row", 1);
    LookupFinds(pairs, "col", 2);
    LookupFinds(pairs, "is_empty", 3);
  }

  lemma CutKeys(e: CutPointEntry)
    ensures var pairs := CubeDocument(e).pairs;
            && Lookup(pairs, "first_label") == (if e.isEmpty then None else Some(Text(e.firstLabel)))
            && Lookup(pairs, "first_catalog") == (if e.isEmpty then None else Some(Text(e.firstCatalog)))
  {
    var pairs := CubeDocument(e).pairs;
    LookupFinds(pairs, "first_label", 4);
    LookupFinds(pairs, "first_catalog", if e.isEmpty then 4 else 5);
  }

  lemma OverridesKey(e: CutPointEntry)
    ensures Lookup(CubeDocument(e).pairs, "overrides") ==
              if e.isEmpty || e.overrides == [] then None
              else Some(Mapping(OverridePairs(Sort(e.overrides, ByLabel()))))
  {
    LookupFinds(CubeDocument(e).pairs, "overrides", if e.isEmpty then 4 else 6);
  }

  lemma AddressFields(reader: Reader, e: CutPointEntry, index: nat)
    requires reader.Faithful() && e.unitId >= 1 && e.row >= 0 && e.col >= 0
    ensures var pairs := CubeDocument(e).pairs;
            && AddressValue(reader, pairs, "unit_id", index) == Ok(e.unitId)
            && AddressValue(reader, pairs, "row", index) == Ok(e.row)
            && AddressValue(reader, pairs, "col", index) == Ok(e.col)
  {
    AddressKeys(e);
  }

  lemma CutFields(e: CutPointEntry, index: nat)
    ensures var pairs := CubeDocument(e).pairs;
            && Get(pairs, "is_empty", Bool(false)) == Bool(e.isEmpty)
            && OptionalText(pairs, "first_label", index) == Ok(if e.isEmpty then None else e.firstLabel)
            && OptionalText(pairs, "first_catalog", index) == Ok(if e.isEmpty then None else e.firstCatalog)
  {
    AddressKeys(e);
    CutKeys(e);
  }

  lemma OverridesField(reader: Reader, e: CutPointEntry, index: nat)
    requires reader.Faithful() && (e.isEmpty || ValidOverrides(e.overrides))
    ensures OverridesOf(reader, Get(CubeDocument(e).pairs, "overrides", Mapping([])), index)
            == Ok(if e.isEmpty then [] else Sort(e.overrides, ByLabel()))
  {
    OverridesKey(e);
    if !e.isEmpty {
      var sorted := Sort(e.overrides, ByLabel());
      SortKeepsValid(e.overrides);
      assert [] + sorted == sorted;
      OverridesRoundTrip(reader, sorted, index, []);
    }
  }

  lemma CubeRoundTrip(reader: Reader, e: CutPointEntry, index: nat)
    requires reader.Faithful() && Valid(e)
    ensures ParseCube(reader, CubeDocument(e), index) == Ok(Canonical(e))
  {
    AddressFields(reader, e, index);
    CutFields(e, index);
    OverridesField(reader, e, index);
  }

  lemma EachCons(parse: (Yaml, nat) -> Result<CutPointEntry>, cubes: seq<Yaml>, index: nat, entry: CutPointEntry, rest: seq<CutPointEntry>)
    requires cubes != [] && parse(cubes[0], index) == Ok(entry) && ParseEach(parse, cubes[1..], index + 1) == Ok(rest)
    ensures ParseEach(parse, cubes, index) == Ok([entry] + rest)
  {
  }

  lemma {:induction false} CubesRoundTrip(reader: Reader, entries: seq<CutPointEntry>, index: nat)
    requires reader.Faithful() && AllValid(entries)
    ensures ParseEach(CubeParser(reader), CubeDocuments(entries), index) == Ok(Canonicals(entries))
    decreases |entries|
  {
    if entries != [] {
      CubeRoundTrip(reader, entries[0], index);
      assert CubeDocuments(entries)[1..] == CubeDocuments(entries[1..]);
      CubesRoundTrip(reader, entries[1..], index + 1);
      EachCons(CubeParser(reader), CubeDocuments(entries), index, Canonical(entries[0]), Canonicals(entries[1..]));
      CanonicalsCons(entries[0], entries[1..]);
      assert [entries[0]] + entries[1..] == entries;
    }
  }

  // ── The round trip ─────────────────────────────────────────────────────────

  /** Parsing a serialized list of valid entries gives back their canonical forms sorted by address. */
  lemma SerializeThenParse(reader: Reader, entries: seq<CutPointEntry>)
    requires reader.Faithful() && AllValid(entries)
    ensures ParseBoundaries(reader, Document(entries)) == Ok(Canonicals(Sort(entries, ByAddress())))
  {
    var pairs := Document(entries).pairs;
    LookupFinds(pairs, "version", 0);
    LookupFinds(pairs, "cubes", 1);
    SortPermutes(entries, ByAddress());
    CubesRoundTrip(reader, Sort(entries, ByAddress()), 1);
  }

  /** Equal but for the order of the dictionary of overrides, which equality ignores. */
  ghost predicate SameEntry(a: CutPointEntry, b: CutPointEntry) {
    a == b.(overrides := a.overrides) && multiset(a.overrides) == multiset(b.overrides)
  }

  /** An empty cube carries no cut and no overrides. */
  predicate EmptyIsBare(e: CutPointEntry) {
    e.isEmpty ==> e.firstLabel == None && e.firstCatalog == None && e.overrides == []
  }

  lemma CanonicalIsSame(e: CutPointEntry)
    ensures SameEntry(Canonical(e), e) <==> EmptyIsBare(e)
  {
    SortPermutes(e.overrides, ByLabel());
  }

  // ── What survives ──────────────────────────────────────────────────────────

  lemma SameIsValid(x: CutPointEntry, e: CutPointEntry)
    requires Valid(x) && SameEntry(x, e) && DistinctNames(e.overrides)
    ensures Valid(e)
  {
    forall i | 0 <= i < |e.overrides| ensures ValidOverride(e.overrides[i]) {
      assert e.overrides[i] in multiset(x.overrides);
      assert e.overrides[i] in x.overrides;
    }
  }

  lemma SameIsBare(x: CutPointEntry, e: CutPointEntry)
    requires EmptyIsBare(x) && SameEntry(x, e)
    ensures EmptyIsBare(e)
  {
    assert x.overrides == [] ==> |multiset(e.overrides)| == 0;
  }

  /** Whatever the entry, the parser reads a serialized empty cube as a bare one. */
  lemma ParsedIsBare(reader: Reader, e: CutPointEntry, index: nat)
    ensures var r := ParseCube(reader, CubeDocument(e), index); r.Ok? ==> EmptyIsBare(r.value)
  {
    CutFields(e, index);
    OverridesKey(e);
  }

  /** An entry survives serialization and parsing exactly when its address and overrides are in
      range and, if its cube is empty, it carries no cut and no overrides. */
  lemma CubeSurvivesExactly(reader: Reader, e: CutPointEntry, index: nat)
    requires reader.Faithful() && DistinctNames(e.overrides)
    ensures var r := ParseCube(reader, CubeDocument(e), index);
            r.Ok? && SameEntry(r.value, e) <==> Valid(e) && EmptyIsBare(e)
  {
    var r := ParseCube(reader, CubeDocument(e), index);
    if Valid(e) {
      CubeRoundTrip(reader, e, index);
      CanonicalIsSame(e);
    } else if r.Ok? && SameEntry(r.value, e) {
      CubeIsValid(reader, CubeDocument(e), index);
      SameIsValid(r.value, e);
    }
  }

  /** The parser sees the cubes of a serialized list, sorted by address and numbered from one. */
  lemma DocumentCubes(reader: Reader, entries: seq<CutPointEntry>)
    ensures ParseBoundaries(reader, Document(entries))
            == ParseEach(CubeParser(reader), CubeDocuments(Sort(entries, ByAddress())), 1)
  {
    var pairs := Document(entries).pairs;
    LookupFinds(pairs, "version", 0);
    LookupFinds(pairs, "cubes", 1);
  }

  /** The same entries in the same order. */
  ghost predicate SameList(parsed: seq<CutPointEntry>, entries: seq<CutPointEntry>) {
    |parsed| == |entries| && forall i :: 0 <= i < |parsed| ==> SameEntry(parsed[i], entries[i])
  }

  ghost predicate Has(entries: seq<CutPointEntry>, e: CutPointEntry) {
    exists i :: 0 <= i < |entries| && SameEntry(entries[i], e)
  }

  /** The same entry set, whatever the order. */
  ghost predicate SameSet(parsed: seq<CutPointEntry>, entries: seq<CutPointEntry>) {
    && |parsed| == |entries|
    && (forall e :: e in entries ==> Has(parsed, e))
    && (forall x :: x in parsed ==> Has(entries, x))
  }

  /** What the documentation promises of every list is so for exactly these. */
  ghost predicate Survivable(entries: seq<CutPointEntry>) {
    forall e :: e in entries ==> Valid(e) && EmptyIsBare(e)
  }

  lemma SameListIsSameSet(parsed: seq<CutPointEntry>, entries: seq<CutPointEntry>)
    requires SameList(parsed, Sort(entries, ByAddress()))
    ensures SameSet(parsed, entries)
  {
    var order := Sort(entries, ByAddress());
    SortPermutes(entries, ByAddress());
    forall e | e in entries ensures Has(parsed, e) {
      assert e in order;
      var i :| 0 <= i < |order| && order[i] == e;
      assert SameEntry(parsed[i], e);
    }
    forall x | x in parsed ensures Has(entries, x) {
      var i :| 0 <= i < |parsed| && parsed[i] == x;
      assert order[i] in entries;
      var k :| 0 <= k < |entries| && entries[k] == order[i];
      assert SameEntry(parsed[i], order[i]) && SameEntry(entries[k], x);
    }
  }

  lemma SurvivableSurvive(reader: Reader, entries: seq<CutPointEntry>)
    requires reader.Faithful() && Survivable(entries)
    ensures var r := ParseBoundaries(reader, Document(entries));
            r.Ok? && SameList(r.value, Sort(entries, ByAddress())) && SameSet(r.value, entries)
  {
    var order := Sort(entries, ByAddress());
    SerializeThenParse(reader, entries);
    SortPermutes(entries, ByAddress());
    var parsed := Canonicals(order);
    forall i | 0 <= i < |parsed| ensures SameEntry(parsed[i], order[i]) {
      assert order[i] in entries;
      CanonicalIsSame(order[i]);
    }
    SameListIsSameSet(parsed, entries);
  }

  lemma ParsedCubeIsSurvivable(reader: Reader, e: CutPointEntry, index: nat)
    ensures var r := ParseCube(reader, CubeDocument(e), index); r.Ok? ==> Valid(r.value) && EmptyIsBare(r.value)
  {
    CubeIsValid(reader, CubeDocument(e), index);
    ParsedIsBare(reader, e, index);
  }

  lemma {:induction false} EachIsSurvivable(reader: Reader, entries: seq<CutPointEntry>, index: nat)
    ensures var r := ParseEach(CubeParser(reader), CubeDocuments(entries), index);
            r.Ok? ==> |r.value| == |entries| && Survivable(r.value)
    decreases |entries|
  {
    if entries != [] {
      ParsedCubeIsSurvivable(reader, entries[0], index);
      assert CubeDocuments(entries)[1..] == CubeDocuments(entries[1..]);
      EachIsSurvivable(reader, entries[1..], index + 1);
    }
  }

  lemma ParsedIsSurvivable(reader: Reader, entries: seq<CutPointEntry>)
    ensures var r := ParseBoundaries(reader, Document(entries));
            r.Ok? ==> |r.value| == |entries| && Survivable(r.value)
  {
    DocumentCubes(reader, entries);
    SortPermutes(entries, ByAddress());
    EachIsSurvivable(reader, Sort(entries, ByAddress()), 1);
  }

  lemma SameSetIsSurvivable(parsed: seq<CutPointEntry>, entries: seq<CutPointEntry>)
    requires Survivable(parsed) && SameSet(parsed, entries) && forall e :: e in entries ==> DistinctNames(e.overrides)
    ensures Survivable(entries)
  {
    forall e | e in entries ensures Valid(e) && EmptyIsBare(e) {
      assert Has(parsed, e);
      var i :| 0 <= i < |parsed| && SameEntry(parsed[i], e);
      assert parsed[i] in parsed;
      SameIsValid(parsed[i], e);
      SameIsBare(parsed[i], e);
    }
  }

  /** Serializing and parsing a list gives back the same entry set exactly when every entry has
      its address and overrides in range and no empty cube carries anything; they then come back
      sorted by address. The only thing asked of the entries is that overrides are dictionaries. */
  lemma ListSurvivesExactly(reader: Reader, entries: seq<CutPointEntry>)
    requires reader.Faithful() && forall e :: e in entries ==> DistinctNames(e.overrides)
    ensures var r := ParseBoundaries(reader, Document(entries));
            && (r.Ok? && SameSet(r.value, entries) <==> Survivable(entries))
            && (r.Ok? && SameList(r.value, Sort(entries, ByAddress())) <==> Survivable(entries))
  {
    var r := ParseBoundaries(reader, Document(entries));
    if Survivable(entries) {
      SurvivableSurvive(reader, entries);
    } else if r.Ok? {
      ParsedIsSurvivable(reader, entries);
      if SameList(r.value, Sort(entries, ByAddress())) { SameListIsSameSet(r.value, entries); }
      if SameSet(r.value, entries) { SameSetIsSurvivable(r.value, entries); }
    }
  }

  /** Lists that do not survive: a unit numbered zero is refused by the parser ... */
  lemma UnitZeroIsRefused(reader: Reader)
    requires reader.Faithful()
    ensures var e := CutPointEntry(0, 0, 0, None, None, false, []);
            ParseBoundaries(reader, Document([e])) == Err(TooSmall(1, "unit_id"))
  {
    var e := CutPointEntry(0, 0, 0, None, None, false, []);
    OneCube(reader, e);
    CutFields(e, 1);
    AddressKeys(e);
  }

  /** ... and so is a blank override label ... */
  lemma BlankLabelIsRefused(reader: Reader)
    requires reader.Faithful()
    ensures var e := CutPointEntry(1, 0, 0, None, None, false, [("", 0.5)]);
            ParseBoundaries(reader, Document([e])) == Err(BadLabel(1))
  {
    var e := CutPointEntry(1, 0, 0, None, None, false, [("", 0.5)]);
    OneCube(reader, e);
    AddressFields(reader, e, 1);
    CutFields(e, 1);
    OverridesKey(e);
    BlankLabel(reader);
  }

  /** ... and the cut of an empty cube is lost. */
  lemma EmptyCutIsLost(reader: Reader)
    requires reader.Faithful()
    ensures var e := CutPointEntry(1, 0, 0, Some("ECM"), Some("1"), true, []);
            ParseBoundaries(reader, Document([e])) == Ok([CutPointEntry(1, 0, 0, None, None, true, [])])
  {
    var e := CutPointEntry(1, 0, 0, Some("ECM"), Some("1"), true, []);
    OneCube(reader, e);
    CubeRoundTrip(reader, e, 1);
  }

  lemma BlankLabel(reader: Reader)
    ensures Sort([("", 0.5)], ByLabel()) == [("", 0.5)]
    ensures OverridesOf(reader, Mapping(OverridePairs([("", 0.5)])), 1) == Err(BadLabel(1))
  {
    SortFixesOrdered([("", 0.5)], ByLabel());
    assert N.Strip("") == "";
  }

  lemma OneCube(reader: Reader, e: CutPointEntry)
    ensures var r := ParseCube(reader, CubeDocument(e), 1);
            ParseBoundaries(reader, Document([e])) == if r.Ok? then Ok([r.value]) else Err(r.error)
  {
    DocumentCubes(reader, [e]);
    SortFixesOrdered([e], ByAddress());
    var cubes := CubeDocuments([e]);
    assert cubes == [CubeDocument(e)] && cubes[1..] == [];
    var r := ParseCube(reader, CubeDocument(e), 1);
    if r.Ok? {
      EachCons(CubeParser(reader), cubes, 1, r.value, []);
      assert [r.value] + [] == [r.value];
    }
  }

  lemma LabelsArePreordered()
    ensures Preorder(ByLabel())
  {
    forall a, b ensures ByLabel()(a, b) || ByLabel()(b, a) {
      LexTotal(a.0, b.0, CharLe());
    }
    forall a, b, c | ByLabel()(a, b) && ByLabel()(b, c) ensures ByLabel()(a, c) {
      LexTransitive(a.0, b.0, c.0, CharLe());
    }
  }

  lemma CanonicalTwice(e: CutPointEntry)
    ensures CubeDocument(Canonical(e)) == CubeDocument(e)
  {
    LabelsArePreordered();
    SortOrders(e.overrides, ByLabel());
    SortFixesOrdered(Sort(e.overrides, ByLabel()), ByLabel());
    SortPermutes(e.overrides, ByLabel());
  }

  lemma CanonicalDocuments(entries: seq<CutPointEntry>)
    ensures CubeDocuments(Canonicals(entries)) == CubeDocuments(entries)
  {
    forall i | 0 <= i < |entries| ensures CubeDocuments(Canonicals(entries))[i] == CubeDocuments(entries)[i] {
      CanonicalTwice(entries[i]);
    }
  }

  lemma CanonicalsStayOrdered(entries: seq<CutPointEntry>)
    requires Ordered(entries, ByAddress())
    ensures Sort(Canonicals(entries), ByAddress()) == Canonicals(entries)
  {
    SortFixesOrdered(Canonicals(entries), ByAddress());
  }

  lemma AddressesArePreordered()
    ensures Preorder(ByAddress())
  {
  }

  /** The document lists each entry once, by unit, then row, then column, under version 1. */
  lemma CubesAreSorted(entries: seq<CutPointEntry>) returns (order: seq<CutPointEntry>)
    ensures multiset(order) == multiset(entries)
    ensures Document(entries) == Mapping([(Str("version"), Str("1")), (Str("cubes"), List(CubeDocuments(order)))])
    ensures forall i, j :: 0 <= i < j < |order| ==>
              || order[i].unitId < order[j].unitId
              || (order[i].unitId == order[j].unitId
                  && (order[i].row < order[j].row || (order[i].row == order[j].row && order[i].col <= order[j].col)))
  {
    order := Sort(entries, ByAddress());
    AddressesArePreordered();
    SortOrders(entries, ByAddress());
    SortPermutes(entries, ByAddress());
    forall i, j | 0 <= i < j < |order| ensures ByAddress()(order[i], order[j]) { }
  }

  /** Overrides are written alphabetically by label. */
  lemma OverridesAreSorted(e: CutPointEntry, i: nat, j: nat)
    requires !e.isEmpty && i < j < |e.overrides|
    ensures var value := Lookup(CubeDocument(e).pairs, "overrides");
            && value.Some? && value.value.Mapping? && |value.value.pairs| == |e.overrides|
            && value.value.pairs[i].0.Str? && value.value.pairs[j].0.Str?
            && var (a, b) := (value.value.pairs[i].0.s, value.value.pairs[j].0.s);
               a <= b || exists k: nat :: FirstDifference(a, b, k) && a[k] < b[k]
  {
    var sorted := Sort(e.overrides, ByLabel());
    OverridesKey(e);
    LabelsArePreordered();
    SortOrders(e.overrides, ByLabel());
    SortPermutes(e.overrides, ByLabel());
    assert ByLabel()(sorted[i], sorted[j]);
    var (a, b) := (sorted[i].0, sorted[j].0);
    LexMeans(a, b, CharLe());
    if Decides(a, b, CharLe()) {
      var k: nat :| FirstDifference(a, b, k) && CharLe()(a[k], b[k]);
      assert a[k] < b[k];
    }
  }

  /** Serializing what a serialized document parses to gives the same document. */
  lemma SerializeIsStable(reader: Reader, entries: seq<CutPointEntry>)
    requires reader.Faithful() && AllValid(entries)
    ensures var r := ParseBoundaries(reader, Document(entries)); r.Ok? && Document(r.value) == Document(entries)
  {
    var order := Sort(entries, ByAddress());
    SerializeThenParse(reader, entries);
    SortOrders(entries, ByAddress());
    CanonicalsStayOrdered(order);
    CanonicalDocuments(order);
  }

  // ── The order of the input does not matter ─────────────────────────────────

  /** Coordinates are a primary key. */
  ghost predicate DistinctAddresses(entries: seq<CutPointEntry>) {
    forall i, j :: 0 <= i < j < |entries| ==>
      entries[i].unitId != entries[j].unitId || entries[i].row != entries[j].row || entries[i].col != entries[j].col
  }

  lemma {:induction false} InsertCanonical(e: CutPointEntry, entries: seq<CutPointEntry>)
    ensures Canonicals(Insert(e, entries, ByAddress())) == Insert(Canonical(e), Canonicals(entries), ByAddress())
  {
    if entries != [] {
      assert Canonicals(entries)[1..] == Canonicals(entries[1..]);
      if ByAddress()(e, entries[0]) {
        CanonicalsCons(e, entries);
      } else {
        InsertCanonical(e, entries[1..]);
        CanonicalsCons(entries[0], Insert(e, entries[1..], ByAddress()));
      }
    } else {
      CanonicalsCons(e, entries);
      assert [e] + entries == [e] && Canonicals(entries) == [];
    }
  }

  lemma {:induction false} SortCanonicals(entries: seq<CutPointEntry>)
    ensures Canonicals(Sort(entries, ByAddress())) == Sort(Canonicals(entries), ByAddress())
  {
    if entries != [] {
      SortCanonicals(entries[1..]);
      assert Canonicals(entries)[1..] == Canonicals(entries[1..]);
      InsertCanonical(entries[0], Sort(entries[1..], ByAddress()));
    }
  }

  /** The document is written from the sorted canonical entries alone. */
  lemma DocumentOfCanonicals(entries: seq<CutPointEntry>)
    ensures CubeDocuments(Sort(entries, ByAddress())) == CubeDocuments(Sort(Canonicals(entries), ByAddress()))
  {
    var order := Sort(entries, ByAddress());
    SortCanonicals(entries);
    CanonicalDocuments(order);
  }

  /** Distinct entries never tie. */
  lemma AddressesDecide(a: seq<CutPointEntry>, x: CutPointEntry, y: CutPointEntry)
    requires DistinctAddresses(a) && x in a && y in a && ByAddress()(x, y) && ByAddress()(y, x)
    ensures x == y
  {
    var i :| 0 <= i < |a| && a[i] == x;
    var j :| 0 <= j < |a| && a[j] == y;
  }

  lemma SortIgnoresOrder(a: seq<CutPointEntry>, b: seq<CutPointEntry>)
    requires DistinctAddresses(a) && multiset(a) == multiset(b)
    ensures Sort(a, ByAddress()) == Sort(b, ByAddress())
  {
    SortOrders(a, ByAddress());
    SortOrders(b, ByAddress());
    SortPermutes(a, ByAddress());
    SortPermutes(b, ByAddress());
    forall x, y | x in Sort(a, ByAddress()) && y in Sort(a, ByAddress()) && ByAddress()(x, y) && ByAddress()(y, x) ensures x == y {
      AddressesDecide(a, x, y);
    }
    OrderedPermutationIsUnique(Sort(a, ByAddress()), Sort(b, ByAddress()), ByAddress());
  }

  /** With distinct addresses the document depends only on which cubes there are: not on the order
      of the list and not on what an empty cube carries. */
  lemma DocumentIgnoresOrder(a: seq<CutPointEntry>, b: seq<CutPointEntry>)
    requires DistinctAddresses(a) && multiset(Canonicals(a)) == multiset(Canonicals(b))
    ensures Document(a) == Document(b)
  {
    DocumentOfCanonicals(a);
    DocumentOfCanonicals(b);
    SortIgnoresOrder(Canonicals(a), Canonicals(b));
  }

  /** Nor on the order in which overrides were entered. */
  lemma CanonicalIgnoresOrder(a: CutPointEntry, b: CutPointEntry)
    requires SameEntry(a, b) && DistinctNames(a.overrides)
    ensures Canonical(a) == Canonical(b)
  {
    LabelsArePreordered();
    SortOrders(a.overrides, ByLabel());
    SortOrders(b.overrides, ByLabel());
    SortPermutes(a.overrides, ByLabel());
    SortPermutes(b.overrides, ByLabel());
    forall x, y | x in a.overrides && y in a.overrides && ByLabel()(x, y) && ByLabel()(y, x) ensures x == y {
      LexAntisymmetric(x.0, y.0, CharLe());
      var i :| 0 <= i < |a.overrides| && a.overrides[i] == x;
      var j :| 0 <= j < |a.overrides| && a.overrides[j] == y;
    }
    OrderedPermutationIsUnique(Sort(a.overrides, ByLabel()), Sort(b.overrides, ByLabel()), ByLabel());
  }
}
