/** Strict snapshot pages (src/gruvax/discogsography/snapshot_pages.py): a page is an arbitrary
    JSON value until it is validated. */
module SnapshotPages {
  import opened Sequences

  datatype Json =
    | Null
    | Bool(b: bool)
    | Int(n: int)
    | Float(x: real)
    | Str(s: string)
    | List(items: seq<Json>)
    | Object(fields: map<string, Json>)

  /** page.get(key) */
  function Get(page: Json, key: string): (v: Json) {
    if page.Object? && key in page.fields then page.fields[key] else Null
  }

  datatype SnapshotPin = SnapshotPin(userId: string, token: string, generation: string, expiresAt: string, total: nat)

  const SOURCE := "completed_collection_sync"

  predicate IsHex(ch: char) { '0' <= ch <= '9' || 'a' <= ch <= 'f' }

  /** The texts that `str(UUID(value)) == value` accepts: lower-case hex in 8-4-4-4-12 form. */
  predicate CanonicalUuid(v: Json) {
    v.Str? && |v.s| == 36
    && forall i :: 0 <= i < 36 ==> if i == 8 || i == 13 || i == 18 || i == 23 then v.s[i] == '-' else IsHex(v.s[i])
  }

  predicate TokenChar(ch: char) {
    '0' <= ch <= '9' || 'a' <= ch <= 'z' || 'A' <= ch <= 'Z' || ch == '_' || ch == '-'
  }

  predicate TokenChars(s: string) { s != "" && forall i :: 0 <= i < |s| ==> TokenChar(s[i]) }

  /** [A-Za-z0-9_-]+={0,2} */
  predicate TokenText(v: Json) {
    v.Str? &&
    var n := |v.s|;
    || TokenChars(v.s)
    || (n > 1 && v.s[n - 1] == '=' && TokenChars(v.s[..n - 1]))
    || (n > 2 && v.s[n - 1] == '=' && v.s[n - 2] == '=' && TokenChars(v.s[..n - 2]))
  }

  predicate IsDecimal(ch: char) { '0' <= ch <= '9' }

  /** \d{4}-\d{2}-\d{2}T\d{2}:\d{2}:\d{2}\.\d{6}Z */
  predicate ExpiryText(s: string) {
    |s| == 27
    && forall i :: 0 <= i < 27 ==>
         match i
         case 4 => s[i] == '-'
         case 7 => s[i] == '-'
         case 10 => s[i] == 'T'
         case 13 => s[i] == ':'
         case 16 => s[i] == ':'
         case 19 => s[i] == '.'
         case 26 => s[i] == 'Z'
         case _ => IsDecimal(s[i])
  }

  /** datetime.fromisoformat, from the library: the instant a text denotes, in microseconds. */
  type Calendar = string -> Option<int>

  predicate FreshExpiry(v: Json, calendar: Calendar, now: int) {
    v.Str? && ExpiryText(v.s) && calendar(v.s).Some? && calendar(v.s).value > now
  }

  function Min(a: int, b: int): (r: int) { if a <= b then a else b }

  predicate AllObjects(items: seq<Json>) { forall i :: 0 <= i < |items| ==> items[i].Object? }

  /** The one big condition of validate_page. */
  predicate WellFormed(page: Json, offset: nat, limit: nat, calendar: Calendar, now: int) {
    && page.Object?
    && Get(page, "releases").List? && AllObjects(Get(page, "releases").items)
    && Get(page, "total").Int? && Get(page, "total").n >= 0
    && Get(page, "offset") == Int(offset)
    && Get(page, "limit") == Int(limit)
    && offset <= Get(page, "total").n
    && |Get(page, "releases").items| == Min(limit, Get(page, "total").n - offset)
    && Get(page, "has_more") == Bool(offset + |Get(page, "releases").items| < Get(page, "total").n)
    && CanonicalUuid(Get(page, "user_id"))
    && CanonicalUuid(Get(page, "snapshot_generation"))
    && TokenText(Get(page, "snapshot_token"))
    && FreshExpiry(Get(page, "snapshot_expires_at"), calendar, now)
    && Get(page, "snapshot_source") == Str(SOURCE)
  }

  function PinOf(page: Json): (pin: SnapshotPin)
    requires Get(page, "total").Int? && Get(page, "total").n >= 0
    requires Get(page, "user_id").Str? && Get(page, "snapshot_token").Str?
    requires Get(page, "snapshot_generation").Str? && Get(page, "snapshot_expires_at").Str?
  {
    SnapshotPin(Get(page, "user_id").s, Get(page, "snapshot_token").s, Get(page, "snapshot_generation").s,
                Get(page, "snapshot_expires_at").s, Get(page, "total").n)
  }

  /** A page that passed validation: its pin, its rows and whether it promises more. */
  datatype CheckedPage = CheckedPage(page: Json, pin: SnapshotPin, rows: seq<Json>, hasMore: bool)

  /** What validation guarantees about a page fetched at `offset`. */
  ghost predicate Fits(p: CheckedPage, offset: nat, limit: nat) {
    && offset <= p.pin.total
    && |p.rows| == Min(limit, p.pin.total - offset)
    && (p.hasMore <==> offset + |p.rows| < p.pin.total)
  }

  /** validate_page without the comparison to an earlier pin: None is SnapshotMismatch. */
  function CheckPage(page: Json, offset: nat, limit: nat, calendar: Calendar, now: int): (r: Option<CheckedPage>)
    ensures r.Some? ==> r.value.page == page && Fits(r.value, offset, limit)
  {
    if !WellFormed(page, offset, limit, calendar, now) then None
    else Some(CheckedPage(page, PinOf(page), Get(page, "releases").items, Get(page, "has_more") == Bool(true)))
  }

  /** What a page that passes guarantees of the pin and the rows it hands on. */
  lemma CheckedMeans(page: Json, offset: nat, limit: nat, calendar: Calendar, now: int)
    ensures var r := CheckPage(page, offset, limit, calendar, now);
            r.Some? ==>
              && Fits(r.value, offset, limit) && AllObjects(r.value.rows)
              && CanonicalUuid(Str(r.value.pin.userId)) && CanonicalUuid(Str(r.value.pin.generation))
              && TokenText(Str(r.value.pin.token)) && FreshExpiry(Str(r.value.pin.expiresAt), calendar, now)
              && Get(page, "snapshot_source") == Str("completed_collection_sync")
  {
    if WellFormed(page, offset, limit, calendar, now) {
      assert Get(page, "user_id").Str? && Get(page, "snapshot_token").Str?;
      assert Get(page, "snapshot_generation").Str? && Get(page, "snapshot_expires_at").Str?;
    }
  }

  // ── The texts that pass ────────────────────────────────────────────────────

  /** A text of a shape: `x` stands for a lower-case hexadecimal digit, `d` for a decimal digit, any
      other character for itself. */
  ghost predicate Shaped(s: string, shape: string) {
    |s| == |shape| && forall i :: 0 <= i < |s| ==>
      if shape[i] == 'x' then s[i] in "0123456789abcdef" else if shape[i] == 'd' then s[i] in "0123456789" else s[i] == shape[i]
  }

  lemma DigitTable(ch: char)
    ensures '0' <= ch <= '9' <==> ch in "0123456789"
  {
    if '0' <= ch <= '9' { assert "0123456789"[ch as int - 48] == ch; }
  }

  lemma HexTable(ch: char)
    ensures IsHex(ch) <==> ch in "0123456789abcdef"
  {
    if '0' <= ch <= '9' {
      assert "0123456789abcdef"[ch as int - 48] == ch;
    } else if 'a' <= ch <= 'f' {
      assert "0123456789abcdef"[ch as int - 87] == ch;
    }
  }

  lemma LowerTable(ch: char)
    ensures 'a' <= ch <= 'z' <==> ch in "abcdefghijklmnopqrstuvwxyz"
  {
    if 'a' <= ch <= 'z' { assert "abcdefghijklmnopqrstuvwxyz"[ch as int - 97] == ch; }
  }

  lemma UpperTable(ch: char)
    ensures 'A' <= ch <= 'Z' <==> ch in "ABCDEFGHIJKLMNOPQRSTUVWXYZ"
  {
    if 'A' <= ch <= 'Z' { assert "ABCDEFGHIJKLMNOPQRSTUVWXYZ"[ch as int - 65] == ch; }
  }

  lemma HyphenAt(i: nat)
    requires i < 36
    ensures "xxxxxxxx-xxxx-xxxx-xxxx-xxxxxxxxxxxx"[i] == if i == 8 || i == 13 || i == 18 || i == 23 then '-' else 'x'
  {
  }

  lemma UuidOf(v: Json, shape: string)
    requires |shape| == 36
    requires forall i :: 0 <= i < 36 ==> shape[i] == if i == 8 || i == 13 || i == 18 || i == 23 then '-' else 'x'
    ensures CanonicalUuid(v) <==> v.Str? && Shaped(v.s, shape)
  {
    forall ch ensures IsHex(ch) <==> ch in "0123456789abcdef" { HexTable(ch); }
  }

  /** Identifiers pass in lower-case 8-4-4-4-12 form only. */
  lemma UuidShape(v: Json)
    ensures CanonicalUuid(v) <==> v.Str? && Shaped(v.s, "xxxxxxxx-xxxx-xxxx-xxxx-xxxxxxxxxxxx")
  {
    var shape := "xxxxxxxx-xxxx-xxxx-xxxx-xxxxxxxxxxxx";
    forall i | 0 <= i < 36 ensures shape[i] == if i == 8 || i == 13 || i == 18 || i == 23 then '-' else 'x' {
      HyphenAt(i);
    }
    UuidOf(v, shape);
  }

  /** Expiries pass in UTC with exactly six decimals only. */
  lemma ExpiryShape(s: string)
    ensures ExpiryText(s) <==> Shaped(s, "dddd-dd-ddTdd:dd:dd.ddddddZ")
  {
    forall ch ensures IsDecimal(ch) <==> ch in "0123456789" { DigitTable(ch); }
  }

  /** The URL-safe alphabet. */
  ghost predicate UrlSafe(ch: char) {
    ch in "0123456789" || ch in "abcdefghijklmnopqrstuvwxyz" || ch in "ABCDEFGHIJKLMNOPQRSTUVWXYZ" || ch in "-_"
  }

  lemma UrlSafeMeans(ch: char)
    ensures TokenChar(ch) <==> UrlSafe(ch)
  {
    DigitTable(ch);
    LowerTable(ch);
    UpperTable(ch);
  }

  /** A non-empty text over the URL-safe alphabet, followed by `pad` equals signs. */
  ghost predicate TokenPadded(s: string, pad: nat) {
    && pad < |s|
    && (forall i :: |s| - pad <= i < |s| ==> s[i] == '=')
    && forall i :: 0 <= i < |s| - pad ==> UrlSafe(s[i])
  }

  lemma PaddedMeans(s: string, pad: nat)
    ensures TokenPadded(s, pad) <==> pad < |s| && TokenChars(s[..|s| - pad]) && forall i :: |s| - pad <= i < |s| ==> s[i] == '='
  {
    forall ch ensures TokenChar(ch) <==> UrlSafe(ch) { UrlSafeMeans(ch); }
    if pad < |s| {
      var t := s[..|s| - pad];
      assert forall i :: 0 <= i < |t| ==> t[i] == s[i];
    }
  }

  /** Tokens pass with at most two equals signs at the end. */
  lemma TokenShape(s: string)
    ensures TokenText(Str(s)) <==> TokenPadded(s, 0) || TokenPadded(s, 1) || TokenPadded(s, 2)
  {
    PaddedMeans(s, 0);
    PaddedMeans(s, 1);
    PaddedMeans(s, 2);
    assert s[..|s|] == s;
  }

  /** validate_page */
  function ValidatePage(page: Json, offset: nat, limit: nat, pin: Option<SnapshotPin>, calendar: Calendar, now: int): (r: Option<SnapshotPin>) {
    match CheckPage(page, offset, limit, calendar, now)
    case None => None
    case Some(p) => if pin.Some? && p.pin != pin.value then None else Some(p.pin)
  }

  /** The rows of a list of pages, in order: what iter_collection yields. */
  function Collected(pages: seq<CheckedPage>): (r: seq<Json>) {
    if pages == [] then [] else Collected(pages[..|pages| - 1]) + pages[|pages| - 1].rows
  }
}
