/** Boundary documents (src/gruvax/io/boundary_yaml.py) as trees: what the serializer hands to
    the YAML writer and what the parser gets from the YAML reader. */
module BoundaryDocument {
  import opened Sequences
  import opened Orders
  import N = Normalize

  /** A loaded document; mappings keep the order of their keys. */
  datatype Yaml =
    | Null
    | Bool(b: bool)
    | Int(n: int)
    | Float(x: real)
    | NonFinite
    | Str(s: string)
    | Other(tag: string, text: string)
    | List(items: seq<Yaml>)
    | Mapping(pairs: seq<(Yaml, Yaml)>)

  datatype Error =
    | BadVersion
    | CubesNotList
    | NotMapping(index: nat)
    | BadIsEmpty(index: nat)
    | Required(index: nat, key: string)
    | NotInteger(index: nat, key: string)
    | TooSmall(index: nat, key: string)
    | NotText(index: nat, key: string)
    | OverridesNotMapping(index: nat)
    | BadLabel(index: nat)
    | NotFraction(index: nat, name: string)
    | OutOfRange(index: nat, name: string)

  datatype Result<+T> = Ok(value: T) | Err(error: Error)

  datatype Number = Finite(x: real) | Infinite

  /** The built-in conversions int(...) and float(...); None is an exception. */
  datatype Reader = Reader(toInt: Yaml -> Option<int>, toFloat: Yaml -> Option<Number>) {
    ghost predicate Faithful() {
      && (forall n :: toInt(Int(n)) == Some(n))
      && forall x :: toFloat(Float(x)) == Some(Finite(x))
    }
  }

  /** `overrides` is a dictionary: its items in insertion order. */
  datatype CutPointEntry = CutPointEntry(unitId: int, row: int, col: int, firstLabel: Option<string>,
                                         firstCatalog: Option<string>, isEmpty: bool, overrides: seq<(string, real)>)

  // ── Parsing ────────────────────────────────────────────────────────────────

  function Lookup(pairs: seq<(Yaml, Yaml)>, key: string): (v: Option<Yaml>) {
    if pairs == [] then None
    else if pairs[0].0 == Str(key) then Some(pairs[0].1)
    else Lookup(pairs[1..], key)
  }

  /** mapping.get(key, default) */
  function Get(pairs: seq<(Yaml, Yaml)>, key: string, default: Yaml): (v: Yaml) {
    match Lookup(pairs, key)
    case None => default
    case Some(v) => v
  }

  function AddressValue(reader: Reader, cube: seq<(Yaml, Yaml)>, key: string, index: nat): (r: Result<int>) {
    var v := Get(cube, key, Null);
    if v.Null? then Err(Required(index, key))
    else if v.Bool? || v.NonFinite? || (v.Float? && v.x != v.x.Floor as real) then Err(NotInteger(index, key))
    else
      match reader.toInt(v)
      case None => Err(NotInteger(index, key))
      case Some(n) => if n < (if key == "unit_id" then 1 else 0) then Err(TooSmall(index, key)) else Ok(n)
  }

  function OptionalText(cube: seq<(Yaml, Yaml)>, key: string, index: nat): (r: Result<Option<string>>) {
    match Get(cube, key, Null)
    case Null => Ok(None)
    case Str(s) => Ok(Some(s))
    case _ => Err(NotText(index, key))
  }

  /** overrides[name] = fraction */
  function Put(overrides: seq<(string, real)>, name: string, fraction: real): (r: seq<(string, real)>) {
    if overrides == [] then [(name, fraction)]
    else if overrides[0].0 == name then [(name, fraction)] + overrides[1..]
    else [overrides[0]] + Put(overrides[1..], name, fraction)
  }

  function Fraction(reader: Reader, raw: Yaml, name: string, index: nat): (r: Result<real>) {
    if raw.Bool? then Err(NotFraction(index, name))
    else
      match reader.toFloat(raw)
      case None => Err(NotFraction(index, name))
      case Some(Infinite) => Err(OutOfRange(index, name))
      case Some(Finite(x)) => if 0.0 < x <= 1.0 then Ok(x) else Err(OutOfRange(index, name))
  }

  function OneOverride(reader: Reader, pair: (Yaml, Yaml), index: nat): (r: Result<(string, real)>) {
    if !pair.0.Str? || N.Strip(pair.0.s) == "" then Err(BadLabel(index))
    else
      match Fraction(reader, pair.1, pair.0.s, index)
      case Err(e) => Err(e)
      case Ok(x) => Ok((pair.0.s, x))
  }

  function OverridesFrom(reader: Reader, pairs: seq<(Yaml, Yaml)>, index: nat, done: seq<(string, real)>): (r: Result<seq<(string, real)>>)
    decreases |pairs|
  {
    if pairs == [] then Ok(done)
    else
      match OneOverride(reader, pairs[0], index)
      case Err(e) => Err(e)
      case Ok(o) => OverridesFrom(reader, pairs[1..], index, Put(done, o.0, o.1))
  }

  function OverridesOf(reader: Reader, value: Yaml, index: nat): (r: Result<seq<(string, real)>>) {
    if !value.Mapping? then Err(OverridesNotMapping(index)) else OverridesFrom(reader, value.pairs, index, [])
  }

  /** _parse_overrides */
  method ParseOverrides(reader: Reader, value: Yaml, index: nat) returns (r: Result<seq<(string, real)>>)
    ensures r == OverridesOf(reader, value, index)
  {
    if !value.Mapping? {
      return Err(OverridesNotMapping(index));
    }
    var overrides: seq<(string, real)> := [];
    assert value.pairs[0..] == value.pairs;
    for i := 0 to |value.pairs|
      invariant OverridesFrom(reader, value.pairs[i..], index, overrides) == OverridesFrom(reader, value.pairs, index, [])
    {
      assert value.pairs[i..][0] == value.pairs[i] && value.pairs[i..][1..] == value.pairs[i + 1..];
      var o := OneOverride(reader, value.pairs[i], index);
      if o.Err? {
        return Err(o.error);
      }
      overrides := Put(overrides, o.value.0, o.value.1);
    }
    return Ok(overrides);
  }

  function ParseCube(reader: Reader, cube: Yaml, index: nat): (r: Result<CutPointEntry>) {
    if !cube.Mapping? then Err(NotMapping(index))
    else
      var isEmpty := Get(cube.pairs, "is_empty", Bool(false));
      if !isEmpty.Bool? then Err(BadIsEmpty(index))
      else
        match AddressValue(reader, cube.pairs, "unit_id", index)
        case Err(e) => Err(e)
        case Ok(unitId) =>
          match AddressValue(reader, cube.pairs, "row", index)
          case Err(e) => Err(e)
          case Ok(row) =>
            match AddressValue(reader, cube.pairs, "col", index)
            case Err(e) => Err(e)
            case Ok(col) =>
              match OptionalText(cube.pairs, "first_label", index)
              case Err(e) => Err(e)
              case Ok(firstLabel) =>
                match OptionalText(cube.pairs, "first_catalog", index)
                case Err(e) => Err(e)
                case Ok(firstCatalog) =>
                  match OverridesOf(reader, Get(cube.pairs, "overrides", Mapping([])), index)
                  case Err(e) => Err(e)
                  case Ok(overrides) => Ok(CutPointEntry(unitId, row, col, firstLabel, firstCatalog, isEmpty.b, overrides))
  }

  function CubeParser(reader: Reader): (Yaml, nat) -> Result<CutPointEntry> {
    (cube: Yaml, index: nat) => ParseCube(reader, cube, index)
  }

  /** [parse(cube, index) for index, cube in enumerate(cubes, start=index)] */
  function ParseEach(parse: (Yaml, nat) -> Result<CutPointEntry>, cubes: seq<Yaml>, index: nat): (r: Result<seq<CutPointEntry>>)
    decreases |cubes|
  {
    if cubes == [] then Ok([])
    else
      match parse(cubes[0], index)
      case Err(e) => Err(e)
      case Ok(entry) =>
        match ParseEach(parse, cubes[1..], index + 1)
        case Err(e) => Err(e)
        case Ok(rest) => Ok([entry] + rest)
  }

  /** parse_yaml_boundaries */
  function ParseBoundaries(reader: Reader, data: Yaml): (r: Result<seq<CutPointEntry>>) {
    if !data.Mapping? || Get(data.pairs, "version", Null) != Str("1") then Err(BadVersion)
    else
      var cubes := Get(data.pairs, "cubes", List([]));
      if !cubes.List? then Err(CubesNotList) else ParseEach(CubeParser(reader), cubes.items, 1)
  }

  // ── Serializing ────────────────────────────────────────────────────────────

  function ByAddress(): (CutPointEntry, CutPointEntry) -> bool {
    (a: CutPointEntry, b: CutPointEntry) =>
      a.unitId < b.unitId || (a.unitId == b.unitId && (a.row < b.row || (a.row == b.row && a.col <= b.col)))
  }

  function ByLabel(): ((string, real), (string, real)) -> bool {
    (a: (string, real), b: (string, real)) => LexLe(a.0, b.0, CharLe())
  }

  function Text(t: Option<string>): (v: Yaml) {
    match t
    case None => Null
    case Some(s) => Str(s)
  }

  function OverridePairs(overrides: seq<(string, real)>): (r: seq<(Yaml, Yaml)>)
    ensures |r| == |overrides|
    ensures forall i :: 0 <= i < |r| ==> r[i] == (Str(overrides[i].0), Float(overrides[i].1))
  {
    seq(|overrides|, i requires 0 <= i < |overrides| => (Str(overrides[i].0), Float(overrides[i].1)))
  }

  function CubeDocument(e: CutPointEntry): (cube: Yaml) {
    var address := [(Str("unit_id"), Int(e.unitId)), (Str("row"), Int(e.row)), (Str("col"), Int(e.col)),
                    (Str("is_empty"), Bool(e.isEmpty))];
    var cut := if e.isEmpty then [] else [(Str("first_label"), Text(e.firstLabel)), (Str("first_catalog"), Text(e.firstCatalog))];
    var overrides := if e.isEmpty || e.overrides == [] then []
                     else [(Str("overrides"), Mapping(OverridePairs(Sort(e.overrides, ByLabel()))))];
    Mapping(address + cut + overrides)
  }

  function CubeDocuments(entries: seq<CutPointEntry>): (r: seq<Yaml>)
    ensures |r| == |entries| && forall i :: 0 <= i < |r| ==> r[i] == CubeDocument(entries[i])
  {
    seq(|entries|, i requires 0 <= i < |entries| => CubeDocument(entries[i]))
  }

  function Document(entries: seq<CutPointEntry>): (data: Yaml) {
    Mapping([(Str("version"), Str("1")), (Str("cubes"), List(CubeDocuments(Sort(entries, ByAddress()))))])
  }

  /** serialize_boundaries_yaml, up to the writing of the text. */
  method SerializeBoundaries(entries: seq<CutPointEntry>) returns (data: Yaml)
    ensures data == Document(entries)
  {
    var cubes: seq<Yaml> := [];
    var order := Sort(entries, ByAddress());
    for i := 0 to |order|
      invariant cubes == CubeDocuments(order[..i])
    {
      var e := order[i];
      var cube: seq<(Yaml, Yaml)> := [(Str("unit_id"), Int(e.unitId)), (Str("row"), Int(e.row)), (Str("col"), Int(e.col)),
                                      (Str("is_empty"), Bool(e.isEmpty))];
      if !e.isEmpty {
        cube := cube + [(Str("first_label"), Text(e.firstLabel)), (Str("first_catalog"), Text(e.firstCatalog))];
        if e.overrides != [] {
          cube := cube + [(Str("overrides"), Mapping(OverridePairs(Sort(e.overrides, ByLabel()))))];
        }
      }
      assert Mapping(cube) == CubeDocument(e);
      cubes := cubes + [Mapping(cube)];
    }
    assert order[..|order|] == order;
    return Mapping([(Str("version"), Str("1")), (Str("cubes"), List(cubes))]);
  }
}
