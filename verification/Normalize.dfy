/** The ordering authority (src/gruvax/estimator/normalize.py): catalog normalization, token
    keys and label keys. Text is modelled on ASCII, where Unicode NFKC is the identity and
    casefolding is lower-casing; the collation weights of a label are a parameter. */
module Normalize {
  import opened Sequences
  import opened Orders
  import opened Decimals

  // ── Characters ─────────────────────────────────────────────────────────────

  predicate IsSpace(ch: char) {
    ch == ' ' || '\t' <= ch <= '\r' || 0x1c as char <= ch <= 0x1f as char
  }

  predicate IsSeparator(ch: char) {
    IsSpace(ch) || ch == '-' || ch == '_' || ch == '.' || ch == '/'
  }

  predicate IsLetter(ch: char) { 'a' <= ch <= 'z' || 'A' <= ch <= 'Z' }

  function Lower(ch: char): (r: char) {
    if 'A' <= ch <= 'Z' then ((ch as int) + 32) as char else ch
  }

  function LowerCase(s: string): (r: string)
    ensures |r| == |s|
    ensures forall i :: 0 <= i < |s| ==> r[i] == Lower(s[i])
  {
    seq(|s|, i requires 0 <= i < |s| => Lower(s[i]))
  }

  function Keeps(): char -> bool { ch => !IsSeparator(ch) }

  /** `_SEP_COLLAPSE.sub("", s)`: every separator run disappears. */
  function Collapse(s: string): (r: string) { Filter(s, Keeps()) }

  /** `s.split(",", 1)[0]` when there is a comma, all of `s` otherwise. */
  function BeforeComma(s: string): (r: string) {
    if s == "" || s[0] == ',' then "" else [s[0]] + BeforeComma(s[1..])
  }

  function StripLeft(s: string): (r: string) {
    if s == "" || !IsSpace(s[0]) then s else StripLeft(s[1..])
  }

  function StripRight(s: string): (r: string) {
    if s == "" || !IsSpace(s[|s| - 1]) then s else StripRight(s[..|s| - 1])
  }

  function Strip(s: string): (r: string) { StripRight(StripLeft(s)) }

  // ── normalize_catalog ──────────────────────────────────────────────────────

  function NormalizeCatalog(raw: Option<string>): (r: string) {
    match raw
    case None => ""
    case Some(text) =>
      var s := Strip(text);
      if s == "" then "" else
        var s := LowerCase(s);
        var s := if ',' in s then Strip(BeforeComma(s)) else s;
        Collapse(s)
  }

  lemma {:induction false} CollapseStripLeft(s: string)
    ensures Collapse(StripLeft(s)) == Collapse(s)
  {
    if s != "" && IsSpace(s[0]) {
      CollapseStripLeft(s[1..]);
    }
  }

  lemma {:induction false} CollapseStripRight(s: string)
    ensures Collapse(StripRight(s)) == Collapse(s)
  {
    if s != "" && IsSpace(s[|s| - 1]) {
      var n := |s| - 1;
      CollapseStripRight(s[..n]);
      assert s == s[..n] + [s[n]];
      FilterConcat(s[..n], [s[n]], Keeps());
    }
  }

  lemma {:induction false} BeforeCommaStripLeft(s: string)
    ensures Collapse(BeforeComma(StripLeft(s))) == Collapse(BeforeComma(s))
  {
    if s != "" && IsSpace(s[0]) {
      BeforeCommaStripLeft(s[1..]);
    }
  }

  lemma {:induction false} BeforeCommaSnoc(s: string, ch: char)
    ensures BeforeComma(s + [ch]) == if ',' in s || ch == ',' then BeforeComma(s) else BeforeComma(s) + [ch]
  {
    if s == "" {
      assert s + [ch] == [ch];
      assert [ch][1..] == "";
      assert BeforeComma([ch]) == if ch == ',' then "" else [ch];
    } else {
      assert (s + [ch])[1..] == s[1..] + [ch];
      assert ',' in s <==> s[0] == ',' || ',' in s[1..];
      BeforeCommaSnoc(s[1..], ch);
    }
  }

  lemma {:induction false} BeforeCommaStripRight(s: string)
    ensures Collapse(BeforeComma(StripRight(s))) == Collapse(BeforeComma(s))
  {
    if s != "" && IsSpace(s[|s| - 1]) {
      var n := |s| - 1;
      BeforeCommaStripRight(s[..n]);
      assert s == s[..n] + [s[n]];
      BeforeCommaSnoc(s[..n], s[n]);
      FilterConcat(BeforeComma(s[..n]), [s[n]], Keeps());
    }
  }

  lemma {:induction false} BeforeCommaLower(s: string)
    ensures BeforeComma(LowerCase(s)) == LowerCase(BeforeComma(s))
    ensures ',' !in BeforeComma(s)
    ensures ',' !in s ==> BeforeComma(s) == s
  {
    if s != "" {
      BeforeCommaLower(s[1..]);
      assert LowerCase(s)[1..] == LowerCase(s[1..]);
      assert Lower(s[0]) == ',' <==> s[0] == ',';
    }
  }

  lemma {:induction false} CollapseLower(s: string)
    ensures Collapse(LowerCase(s)) == LowerCase(Collapse(s))
  {
    if s != "" {
      CollapseLower(s[1..]);
      assert LowerCase(s)[1..] == LowerCase(s[1..]);
      assert IsSeparator(Lower(s[0])) <==> IsSeparator(s[0]);
    }
  }

  /** The staged pipeline equals one simple description: the text before the first comma,
      lower-cased, with every separator removed. So nothing after the first comma, no
      separator and no letter case can influence a key. */
  lemma NormalizeMeans(text: string)
    ensures NormalizeCatalog(Some(text)) == LowerCase(Collapse(BeforeComma(text)))
  {
    var s := Strip(text);
    BeforeCommaStripLeft(text);
    BeforeCommaStripRight(StripLeft(text));
    assert Collapse(BeforeComma(s)) == Collapse(BeforeComma(text));
    var lower := LowerCase(s);
    BeforeCommaLower(s);
    BeforeCommaLower(lower);
    CollapseLower(BeforeComma(s));
    CollapseStripLeft(BeforeComma(lower));
    CollapseStripRight(StripLeft(BeforeComma(lower)));
  }

  lemma {:induction false} CollapseKeepsComma(s: string)
    requires ',' !in s
    ensures ',' !in Collapse(s)
  {
    FilterMember(s, Keeps(), ',');
  }

  lemma NormalizedStays(core: string)
    requires ',' !in core && forall ch :: ch in core ==> Keeps()(ch)
    ensures NormalizeCatalog(Some(LowerCase(core))) == LowerCase(core)
  {
    NormalizeMeans(LowerCase(core));
    BeforeCommaLower(core);
    FilterAll(core, Keeps());
    CollapseLower(core);
    assert LowerCase(LowerCase(core)) == LowerCase(core);
  }

  /** normalize_catalog is idempotent. */
  lemma NormalizeIdempotent(raw: Option<string>)
    ensures NormalizeCatalog(Some(NormalizeCatalog(raw))) == NormalizeCatalog(raw)
  {
    match raw {
      case None =>
        NormalizeMeans("");
      case Some(text) =>
        var core := Collapse(BeforeComma(text));
        NormalizeMeans(text);
        BeforeCommaLower(text);
        CollapseKeepsComma(BeforeComma(text));
        FilterMembers(BeforeComma(text), Keeps());
        NormalizedStays(core);
    }
  }

  // ── parse_key ──────────────────────────────────────────────────────────────

  /** (-1, 0), (0, text) and (1, value) of the source's key tuples. */
  datatype Token = Missing | Alpha(text: string) | Number(value: nat)

  type CatalogKey = seq<Token>

  const DIGIT_CAP := 12
  const DIGIT_SATURATION := 1_000_000_000_000
  const NONE_SENTINELS: set<string> := {"none", "n/a", "n.a.", "?", "", "na"}

  function RunLength(s: string, p: char -> bool): (n: nat)
    ensures n <= |s|
    ensures forall i :: 0 <= i < n ==> p(s[i])
    ensures n < |s| ==> !p(s[n])
    ensures s != "" && p(s[0]) ==> n > 0
  {
    if s == "" || !p(s[0]) then 0 else
      var n := RunLength(s[1..], p);
      assert forall i :: 1 <= i < n + 1 ==> s[i] == s[1..][i - 1];
      n + 1
  }

  function Letters(): char -> bool { ch => IsLetter(ch) }

  function Digits(): char -> bool { ch => IsDigit(ch) }

  /** `_TOKEN.findall(s)`: maximal runs of letters or of digits, everything else skipped. */
  function FindAll(s: string): (r: seq<string>) {
    if s == "" then []
    else if IsLetter(s[0]) then
      var n := RunLength(s, Letters());
      [s[..n]] + FindAll(s[n..])
    else if IsDigit(s[0]) then
      var n := RunLength(s, Digits());
      [s[..n]] + FindAll(s[n..])
    else FindAll(s[1..])
  }

  function Alphanumerics(): char -> bool { ch => IsLetter(ch) || IsDigit(ch) }

  lemma {:induction false} RunIsKept(s: string, p: char -> bool)
    requires forall ch :: p(ch) ==> Alphanumerics()(ch)
    ensures Filter(s, Alphanumerics()) == s[..RunLength(s, p)] + Filter(s[RunLength(s, p)..], Alphanumerics())
  {
    var n := RunLength(s, p);
    assert s == s[..n] + s[n..];
    FilterConcat(s[..n], s[n..], Alphanumerics());
    FilterAll(s[..n], Alphanumerics());
  }

  /** The tokens, put end to end, are the letters and digits of the text, in order. */
  lemma {:induction false} TokensKeepAlphanumerics(s: string)
    ensures Flatten(FindAll(s)) == Filter(s, Alphanumerics())
    decreases |s|
  {
    if s != "" {
      if Alphanumerics()(s[0]) {
        var p := if IsLetter(s[0]) then Letters() else Digits();
        var n := RunLength(s, p);
        TokensKeepAlphanumerics(s[n..]);
        RunIsKept(s, p);
        FlattenConcat([s[..n]], FindAll(s[n..]));
        assert Flatten([s[..n]]) == s[..n];
      } else {
        TokensKeepAlphanumerics(s[1..]);
      }
    }
  }

  predicate SameKind(a: char, b: char) { (IsLetter(a) && IsLetter(b)) || (IsDigit(a) && IsDigit(b)) }

  /** No run of one kind goes on across position `i`. */
  predicate Boundary(s: string, i: nat)
    requires i <= |s|
  {
    i == 0 || i == |s| || !SameKind(s[i - 1], s[i])
  }

  datatype Extent = Extent(lo: nat, hi: nat)

  /** Letters only or digits only, and no longer run of that kind around it. */
  ghost predicate MaximalRun(s: string, r: Extent) {
    && r.lo < r.hi <= |s|
    && (forall k :: r.lo <= k < r.hi ==> SameKind(s[r.lo], s[k]))
    && Boundary(s, r.lo) && Boundary(s, r.hi)
  }

  ghost predicate Covers(spans: seq<Extent>, k: nat) { exists a :: 0 <= a < |spans| && spans[a].lo <= k < spans[a].hi }

  ghost predicate AreRuns(s: string, i: nat, spans: seq<Extent>) {
    forall a :: 0 <= a < |spans| ==> MaximalRun(s, spans[a]) && i <= spans[a].lo
  }

  ghost predicate LeftToRight(spans: seq<Extent>) {
    forall a, b :: 0 <= a < b < |spans| ==> spans[a].hi <= spans[b].lo
  }

  ghost predicate CoversFrom(s: string, i: nat, spans: seq<Extent>) {
    forall k :: i <= k < |s| && Alphanumerics()(s[k]) ==> Covers(spans, k)
  }

  /** The maximal runs of `s` from `i` on, left to right, none missing. */
  ghost predicate RunsFrom(s: string, i: nat, spans: seq<Extent>) {
    AreRuns(s, i, spans) && LeftToRight(spans) && CoversFrom(s, i, spans)
  }

  ghost predicate Spell(s: string, spans: seq<Extent>, toks: seq<string>) {
    |toks| == |spans| && forall a :: 0 <= a < |toks| ==> spans[a].lo <= spans[a].hi <= |s| && toks[a] == s[spans[a].lo..spans[a].hi]
  }

  /** The text from a position on. */
  predicate SuffixAt(s: string, i: nat, t: string) { i + |t| == |s| && t == s[i..] }

  lemma Kinds(s: string, i: nat, t: string, n: nat)
    requires SuffixAt(s, i, t) && n <= |t|
    ensures SuffixAt(s, i + n, t[n..]) && t[..n] == s[i..i + n]
    ensures forall k :: 0 <= k < |t| ==> t[k] == s[i + k]
  {
  }

  /** A run found at the start of a suffix is a maximal run of the text. */
  lemma RunIsMaximal(s: string, i: nat, t: string, p: char -> bool, n: nat)
    requires SuffixAt(s, i, t) && t != "" && Boundary(s, i) && p(t[0]) && n == RunLength(t, p)
    requires forall ch :: p(ch) <==> SameKind(t[0], ch)
    ensures n > 0 && MaximalRun(s, Extent(i, i + n))
  {
    Kinds(s, i, t, n);
    forall k | i <= k < i + n ensures SameKind(s[i], s[k]) {
      assert s[k] == t[k - i];
    }
    assert t[0] == s[i];
    assert n < |t| ==> s[i + n] == t[n] && s[i + n - 1] == t[n - 1];
  }

  lemma CoversCons(first: Extent, rest: seq<Extent>, k: nat)
    requires Covers(rest, k) || first.lo <= k < first.hi
    ensures Covers([first] + rest, k)
  {
    var spans := [first] + rest;
    if Covers(rest, k) {
      var a :| 0 <= a < |rest| && rest[a].lo <= k < rest[a].hi;
      assert spans[a + 1] == rest[a];
    } else {
      assert spans[0] == first;
    }
  }

  lemma CoversFromCons(s: string, i: nat, j: nat, rest: seq<Extent>)
    requires i < j <= |s| && CoversFrom(s, j, rest)
    ensures var covers := CoversFrom(s, i, [Extent(i, j)] + rest); covers
  {
    forall k | i <= k < |s| && Alphanumerics()(s[k]) ensures Covers([Extent(i, j)] + rest, k) {
      CoversCons(Extent(i, j), rest, k);
    }
  }

  lemma LeftToRightCons(s: string, first: Extent, rest: seq<Extent>)
    requires AreRuns(s, first.hi, rest) && LeftToRight(rest)
    ensures var ordered := LeftToRight([first] + rest); ordered
  {
  }

  lemma RunsCons(s: string, i: nat, j: nat, rest: seq<Extent>)
    requires i < j <= |s| && MaximalRun(s, Extent(i, j)) && RunsFrom(s, j, rest)
    ensures var runs := RunsFrom(s, i, [Extent(i, j)] + rest); runs
  {
    CoversFromCons(s, i, j, rest);
    LeftToRightCons(s, Extent(i, j), rest);
    assert AreRuns(s, i, [Extent(i, j)] + rest);
  }

  lemma SpellCons(s: string, i: nat, j: nat, rest: seq<Extent>, toks: seq<string>)
    requires i <= j <= |s| && Spell(s, rest, toks)
    ensures Spell(s, [Extent(i, j)] + rest, [s[i..j]] + toks)
  {
  }

  function KindOf(ch: char): char -> bool { if IsLetter(ch) then Letters() else Digits() }

  lemma FindAllSteps(t: string)
    requires t != ""
    ensures var n := RunLength(t, KindOf(t[0]));
            FindAll(t) == if Alphanumerics()(t[0]) then [t[..n]] + FindAll(t[n..]) else FindAll(t[1..])
  {
  }

  /** A text is spelt by spans: they are its maximal runs from `i` on and give the tokens. */
  ghost predicate Tokenized(s: string, i: nat, spans: seq<Extent>, toks: seq<string>) {
    RunsFrom(s, i, spans) && Spell(s, spans, toks)
  }

  lemma TokenizedCons(s: string, i: nat, j: nat, rest: seq<Extent>, toks: seq<string>, all: seq<string>)
    requires i < j <= |s| && MaximalRun(s, Extent(i, j)) && Tokenized(s, j, rest, toks) && all == [s[i..j]] + toks
    ensures var tokenized := Tokenized(s, i, [Extent(i, j)] + rest, all); tokenized
  {
    RunsCons(s, i, j, rest);
    SpellCons(s, i, j, rest, toks);
  }

  lemma TokenizedSkip(s: string, i: nat, rest: seq<Extent>, toks: seq<string>)
    requires i < |s| && !Alphanumerics()(s[i]) && Tokenized(s, i + 1, rest, toks)
    ensures var tokenized := Tokenized(s, i, rest, toks); tokenized
  {
  }

  lemma TokenAtStart(s: string, i: nat, t: string, n: nat)
    requires SuffixAt(s, i, t) && t != "" && Alphanumerics()(t[0]) && n == RunLength(t, KindOf(t[0]))
    ensures i + n <= |s| && FindAll(t) == [s[i..i + n]] + FindAll(t[n..])
  {
    Kinds(s, i, t, n);
    FindAllSteps(t);
  }

  lemma RunEndsAtBoundary(s: string, i: nat, t: string, n: nat)
    requires SuffixAt(s, i, t) && t != "" && Boundary(s, i) && Alphanumerics()(t[0]) && n == RunLength(t, KindOf(t[0]))
    ensures 0 < n <= |t| && Boundary(s, i + n) && MaximalRun(s, Extent(i, i + n))
  {
    RunIsMaximal(s, i, t, KindOf(t[0]), n);
  }

  lemma SkipOne(s: string, i: nat, t: string) returns (u: string)
    requires SuffixAt(s, i, t) && t != "" && !Alphanumerics()(t[0])
    ensures |u| < |t| && SuffixAt(s, i + 1, u) && Boundary(s, i + 1) && !Alphanumerics()(s[i]) && FindAll(t) == FindAll(u)
  {
    Kinds(s, i, t, 1);
    assert t[0] == s[i];
    FindAllSteps(t);
    u := t[1..];
  }

  lemma NextToken(s: string, i: nat, t: string) returns (n: nat, u: string)
    requires SuffixAt(s, i, t) && t != "" && Boundary(s, i) && Alphanumerics()(t[0])
    ensures 0 < n <= |t| && |u| < |t| && SuffixAt(s, i + n, u) && Boundary(s, i + n) && MaximalRun(s, Extent(i, i + n))
    ensures FindAll(t) == [s[i..i + n]] + FindAll(u)
  {
    n := RunLength(t, KindOf(t[0]));
    RunEndsAtBoundary(s, i, t, n);
    Kinds(s, i, t, n);
    TokenAtStart(s, i, t, n);
    u := t[n..];
  }

  lemma {:induction false} SuffixTokens(s: string, i: nat, t: string) returns (spans: seq<Extent>)
    requires SuffixAt(s, i, t) && Boundary(s, i)
    ensures var tokenized := Tokenized(s, i, spans, FindAll(t)); tokenized
    decreases |t|
  {
    if t == "" {
      spans := [];
    } else if Alphanumerics()(t[0]) {
      var n, u := NextToken(s, i, t);
      var rest := SuffixTokens(s, i + n, u);
      TokenizedCons(s, i, i + n, rest, FindAll(u), FindAll(t));
      spans := [Extent(i, i + n)] + rest;
    } else {
      var u := SkipOne(s, i, t);
      spans := SuffixTokens(s, i + 1, u);
      TokenizedSkip(s, i, spans, FindAll(u));
    }
  }

  /** The tokens are exactly the maximal runs of letters and of digits of the text, left to right. */
  lemma TokensAreMaximalRuns(s: string) returns (spans: seq<Extent>)
    ensures RunsFrom(s, 0, spans) && Spell(s, spans, FindAll(s))
  {
    spans := SuffixTokens(s, 0, s);
  }

  predicate AllDigits(s: string) {
    s != "" && IsDigits(s)
  }

  function TokenOf(tok: string): (t: Token) {
    if AllDigits(tok) then
      Number(if |tok| > DIGIT_CAP then DIGIT_SATURATION else DigitsValue(tok))
    else Alpha(tok)
  }

  function TokensOf(toks: seq<string>): (r: seq<Token>)
    ensures |r| == |toks|
    ensures forall i :: 0 <= i < |toks| ==> r[i] == TokenOf(toks[i])
  {
    seq(|toks|, i requires 0 <= i < |toks| => TokenOf(toks[i]))
  }

  function KeyOfNormalized(normed: string): (key: CatalogKey) {
    if normed in NONE_SENTINELS || FindAll(normed) == [] then [Missing]
    else TokensOf(FindAll(normed))
  }

  function ParseKey(catalog: Option<string>): (key: CatalogKey) {
    KeyOfNormalized(NormalizeCatalog(catalog))
  }

  /** parse_key's append loop. */
  method BuildKey(catalog: Option<string>) returns (out: CatalogKey)
    ensures out == ParseKey(catalog)
  {
    var normed := NormalizeCatalog(catalog);
    if normed in NONE_SENTINELS {
      return [Missing];
    }
    var tokens := FindAll(normed);
    if tokens == [] {
      return [Missing];
    }
    out := [];
    for i := 0 to |tokens|
      invariant out == TokensOf(tokens)[..i]
    {
      var tok := tokens[i];
      if AllDigits(tok) {
        var value := if |tok| > DIGIT_CAP then DIGIT_SATURATION else DigitsValue(tok);
        out := out + [Number(value)];
      } else {
        out := out + [Alpha(tok)];
      }
    }
  }

  // ── The order on keys ──────────────────────────────────────────────────────

  predicate TokenLe(a: Token, b: Token) {
    match (a, b)
    case (Missing, _) => true
    case (Alpha(x), Alpha(y)) => LexLe(x, y, CharLe())
    case (Alpha(_), Number(_)) => true
    case (Number(x), Number(y)) => x <= y
    case _ => false
  }

  function TokenOrder(): (Token, Token) -> bool { (a, b) => TokenLe(a, b) }

  predicate CatalogLe(a: CatalogKey, b: CatalogKey) { LexLe(a, b, TokenOrder()) }

  lemma TokenOrderIsTotal()
    ensures TotalOrder(TokenOrder())
  {
    LexIsTotalOrder(CharLe());
    var le := TokenOrder();
    var text := Lex(CharLe());
    forall a, b ensures le(a, b) || le(b, a) {
      if a.Alpha? && b.Alpha? { assert text(a.text, b.text) || text(b.text, a.text); }
    }
    forall a, b | le(a, b) && le(b, a) ensures a == b {
      if a.Alpha? && b.Alpha? { assert text(a.text, b.text) && text(b.text, a.text); }
    }
    forall a, b, d | le(a, b) && le(b, d) ensures le(a, d) {
      if a.Alpha? && b.Alpha? && d.Alpha? { assert text(a.text, b.text) && text(b.text, d.text); }
    }
  }

  /** Comparison of catalog keys is a total order on keys. */
  lemma CatalogOrder(a: CatalogKey, b: CatalogKey, d: CatalogKey)
    ensures CatalogLe(a, b) || CatalogLe(b, a)
    ensures CatalogLe(a, b) && CatalogLe(b, a) ==> a == b
    ensures CatalogLe(a, b) && CatalogLe(b, d) ==> CatalogLe(a, d)
  {
    TokenOrderIsTotal();
    LexTotal(a, b, TokenOrder());
    if CatalogLe(a, b) && CatalogLe(b, a) { LexAntisymmetric(a, b, TokenOrder()); }
    if CatalogLe(a, b) && CatalogLe(b, d) { LexTransitive(a, b, d, TokenOrder()); }
  }

  function CompareCatalogs(a: Option<string>, b: Option<string>): (r: int) {
    var ka := ParseKey(a);
    var kb := ParseKey(b);
    if !CatalogLe(kb, ka) then -1 else if !CatalogLe(ka, kb) then 1 else 0
  }

  predicate CatalogInRange(catalog: Option<string>, first: Option<string>, last: Option<string>) {
    CatalogLe(ParseKey(first), ParseKey(catalog)) && CatalogLe(ParseKey(catalog), ParseKey(last))
  }

  /** compare_catalogs is an antisymmetric, transitive sign; it is 0 exactly on equal keys, and
      catalog_in_range is the closed interval it defines. */
  lemma CompareIsTotalPreorder(a: Option<string>, b: Option<string>, d: Option<string>)
    ensures CompareCatalogs(a, b) in {-1, 0, 1}
    ensures CompareCatalogs(a, b) == -CompareCatalogs(b, a)
    ensures CompareCatalogs(a, b) == 0 <==> ParseKey(a) == ParseKey(b)
    ensures CompareCatalogs(a, b) <= 0 && CompareCatalogs(b, d) <= 0 ==> CompareCatalogs(a, d) <= 0
    ensures CatalogInRange(b, a, d) <==> CompareCatalogs(a, b) <= 0 && CompareCatalogs(b, d) <= 0
  {
    var ka, kb, kd := ParseKey(a), ParseKey(b), ParseKey(d);
    CatalogOrder(ka, kb, kd);
    CatalogOrder(kb, ka, kd);
    CatalogOrder(kb, kd, ka);
    CatalogOrder(ka, kd, kb);
    CatalogOrder(ka, ka, ka);
  }

  /** A catalog without a usable number sorts before, or equal to, every other one; strictly
      before every catalog that has a token. */
  lemma SentinelsFirst(a: Option<string>, b: Option<string>)
    requires ParseKey(a) == [Missing]
    ensures CompareCatalogs(a, b) <= 0
    ensures CompareCatalogs(a, b) == 0 <==> ParseKey(b) == [Missing]
  {
    CompareIsTotalPreorder(a, b, a);
    var kb := ParseKey(b);
    TokenOrderIsTotal();
    if kb != [Missing] {
      assert kb != [] && kb[0] != Missing;
    } else {
      CatalogOrder(kb, kb, kb);
    }
  }

  // ── Numeric runs ───────────────────────────────────────────────────────────

  /** Digit runs of at most twelve digits order by value and every longer run is above them all. */
  lemma DigitRunsOrder(d1: string, d2: string)
    requires AllDigits(d1) && AllDigits(d2)
    ensures |d1| <= DIGIT_CAP && |d2| <= DIGIT_CAP ==>
              (TokenLe(TokenOf(d1), TokenOf(d2)) <==> DigitsValue(d1) <= DigitsValue(d2))
    ensures |d1| <= DIGIT_CAP < |d2| ==> !TokenLe(TokenOf(d2), TokenOf(d1))
    ensures |d1| > DIGIT_CAP && |d2| > DIGIT_CAP ==> TokenOf(d1) == TokenOf(d2)
  {
    DigitsBound(d1);
    if |d1| <= DIGIT_CAP {
      Pow10Monotone(|d1|, DIGIT_CAP);
      Pow10Of12();
    }
  }

  predicate AllLetters(s: string) {
    s != "" && forall i :: 0 <= i < |s| ==> IsLetter(s[i])
  }

  lemma FindAllOfRuns(p: string, d: string)
    requires AllLetters(p) && AllDigits(d)
    ensures FindAll(p + d) == [p, d]
  {
    var s := p + d;
    var n := RunLength(s, Letters());
    assert forall i :: 0 <= i < |p| ==> s[i] == p[i];
    assert s[|p|] == d[0] && !Letters()(s[|p|]);
    assert n == |p|;
    assert s[..n] == p && s[n..] == d;
    assert RunLength(d, Digits()) == |d|;
    assert d[..|d|] == d && d[|d|..] == "";
    assert FindAll(d) == [d] + FindAll("");
  }

  lemma NormalizePlain(text: string)
    requires forall i :: 0 <= i < |text| ==> IsLetter(text[i]) || IsDigit(text[i])
    ensures NormalizeCatalog(Some(text)) == LowerCase(text)
  {
    NormalizeMeans(text);
    BeforeCommaLower(text);
    FilterAll(text, Keeps());
  }

  lemma LowerRuns(p: string, d: string)
    requires AllLetters(p) && AllDigits(d)
    ensures LowerCase(p + d) == LowerCase(p) + d
    ensures AllLetters(LowerCase(p)) && !AllDigits(LowerCase(p))
    ensures LowerCase(p) + d !in NONE_SENTINELS
  {
    var q := LowerCase(p);
    assert forall i :: 0 <= i < |q| ==> q[i] == Lower(p[i]) && IsLetter(p[i]);
    assert forall i :: 0 <= i < |d| ==> Lower(d[i]) == d[i];
    assert IsLetter(q[0]);
    var lower := q + d;
    assert lower[|lower| - 1] == d[|d| - 1] && IsDigit(d[|d| - 1]);
  }

  lemma TokensOfPair(p: string, d: string)
    requires !AllDigits(p)
    ensures TokensOf([p, d]) == [Alpha(p), TokenOf(d)]
  {
  }

  lemma PlainCatalogKey(p: string, d: string)
    requires AllLetters(p) && AllDigits(d)
    ensures ParseKey(Some(p + d)) == [Alpha(LowerCase(p)), TokenOf(d)]
  {
    var q := LowerCase(p);
    assert NormalizeCatalog(Some(p + d)) == q + d && q + d !in NONE_SENTINELS by {
      NormalizePlain(p + d);
      LowerRuns(p, d);
    }
    assert FindAll(q + d) == [q, d] && TokensOf([q, d]) == [Alpha(q), TokenOf(d)] by {
      LowerRuns(p, d);
      FindAllOfRuns(q, d);
      TokensOfPair(q, d);
    }
  }

  lemma TwoTokenKeys(x: Token, y: Token, z: Token)
    ensures CatalogLe([x, y], [x, z]) <==> y == z || TokenLe(y, z)
  {
    var a, b := [x, y], [x, z];
    assert a[1..] == [y] && b[1..] == [z];
    assert [y][1..] == [];
    assert LexLe([y], [z], TokenOrder()) <==> y == z || TokenLe(y, z);
  }

  /** After one letter prefix in any case, digit runs compare by value, and any run of more than
      twelve digits is above every shorter one. */
  lemma RunsCompareByValue(p: string, d1: string, d2: string)
    requires AllLetters(p) && AllDigits(d1) && AllDigits(d2)
    requires |d1| <= DIGIT_CAP
    ensures |d2| <= DIGIT_CAP ==>
              (CompareCatalogs(Some(p + d1), Some(p + d2)) <= 0 <==> DigitsValue(d1) <= DigitsValue(d2))
    ensures |d2| > DIGIT_CAP ==> CompareCatalogs(Some(p + d1), Some(p + d2)) == -1
  {
    PlainCatalogKey(p, d1);
    PlainCatalogKey(p, d2);
    DigitRunsOrder(d1, d2);
    TwoTokenKeys(Alpha(LowerCase(p)), TokenOf(d1), TokenOf(d2));
    TwoTokenKeys(Alpha(LowerCase(p)), TokenOf(d2), TokenOf(d1));
  }

  // ── Label keys and cut keys ────────────────────────────────────────────────

  /** (UCA weights, casefolded label). */
  datatype LabelKey = LabelKey(weights: seq<int>, folded: string)

  /** The casefold of label identity and the collator's weights (Unicode Technical Standard
      #10, section 7): both come from libraries, so both are parameters. */
  datatype Collator = Collator(casefold: string -> string, weights: string -> seq<int>) {
    ghost predicate Valid() {
      forall s :: casefold(casefold(s)) == casefold(s)
    }

    /** label_sort_key */
    function KeyOf(name: string): (key: LabelKey) {
      LabelKey(weights(casefold(name)), casefold(name))
    }
  }

  datatype CutKey = CutKey(name: LabelKey, catalog: CatalogKey)

  predicate LabelLe(a: LabelKey, b: LabelKey) {
    if a.weights == b.weights then LexLe(a.folded, b.folded, CharLe())
    else LexLe(a.weights, b.weights, IntLe())
  }

  predicate CutLe(a: CutKey, b: CutKey) {
    if a.name == b.name then CatalogLe(a.catalog, b.catalog) else LabelLe(a.name, b.name)
  }

  lemma LabelOrder(a: LabelKey, b: LabelKey, d: LabelKey)
    ensures LabelLe(a, b) || LabelLe(b, a)
    ensures LabelLe(a, b) && LabelLe(b, a) ==> a == b
    ensures LabelLe(a, b) && LabelLe(b, d) ==> LabelLe(a, d)
  {
    LexIsTotalOrder(CharLe());
    LexIsTotalOrder(IntLe());
    var text, num := Lex(CharLe()), Lex(IntLe());
    assert text(a.folded, b.folded) || text(b.folded, a.folded);
    assert num(a.weights, b.weights) || num(b.weights, a.weights);
    if LabelLe(a, b) && LabelLe(b, a) {
      assert num(a.weights, b.weights) && num(b.weights, a.weights) ==> a.weights == b.weights;
      assert text(a.folded, b.folded) && text(b.folded, a.folded) ==> a.folded == b.folded;
    }
    if LabelLe(a, b) && LabelLe(b, d) {
      if num(a.weights, b.weights) && num(b.weights, d.weights) {
        assert num(a.weights, d.weights);
        assert num(b.weights, a.weights) ==> a.weights == b.weights;
        assert a.weights == d.weights ==> num(b.weights, a.weights);
      }
      if text(a.folded, b.folded) && text(b.folded, d.folded) { assert text(a.folded, d.folded); }
    }
  }

  /** The (label, catalog) key of cut points and records is totally ordered. */
  lemma CutOrder(a: CutKey, b: CutKey, d: CutKey)
    ensures CutLe(a, b) || CutLe(b, a)
    ensures CutLe(a, b) && CutLe(b, a) ==> a == b
    ensures CutLe(a, b) && CutLe(b, d) ==> CutLe(a, d)
  {
    LabelOrder(a.name, b.name, d.name);
    LabelOrder(b.name, a.name, d.name);
    LabelOrder(b.name, d.name, a.name);
    CatalogOrder(a.catalog, b.catalog, d.catalog);
  }

  lemma CutOrderAll()
    ensures forall a, b :: CutLe(a, b) || CutLe(b, a)
    ensures forall a, b :: CutLe(a, b) && CutLe(b, a) ==> a == b
    ensures forall a, b, d :: CutLe(a, b) && CutLe(b, d) ==> CutLe(a, d)
  {
    forall a, b ensures CutLe(a, b) || CutLe(b, a) { CutOrder(a, b, b); }
    forall a, b | CutLe(a, b) && CutLe(b, a) ensures a == b { CutOrder(a, b, b); }
    forall a, b, d | CutLe(a, b) && CutLe(b, d) ensures CutLe(a, d) { CutOrder(a, b, d); }
  }
}
