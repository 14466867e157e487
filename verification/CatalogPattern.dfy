/** The LIKE patterns of the search (src/gruvax/db/queries.py:72-114, 464-466) against LIKE
    matching with a backslash escape. */
module CatalogPattern {
  import opened Sequences
  import N = Normalize

  // ── LIKE ───────────────────────────────────────────────────────────────────

  /** No escape character is left without a character to escape, which LIKE reports as an error. */
  predicate WellEscaped(pattern: string) {
    if pattern == "" then true
    else if pattern[0] == '\\' then |pattern| >= 2 && WellEscaped(pattern[2..])
    else WellEscaped(pattern[1..])
  }

  /** `text LIKE pattern ESCAPE '\'`: a percent stands for any string, an underscore for any one
      character, a backslash for the character after it, anything else for itself. */
  ghost predicate Like(text: string, pattern: string)
    requires WellEscaped(pattern)
    decreases |pattern|
  {
    if pattern == "" then text == ""
    else if pattern[0] == '%' then exists k :: 0 <= k <= |text| && Like(text[k..], pattern[1..])
    else if text == "" then false
    else if pattern[0] == '\\' then text[0] == pattern[1] && Like(text[1..], pattern[2..])
    else (pattern[0] == '_' || text[0] == pattern[0]) && Like(text[1..], pattern[1..])
  }

  // ── The patterns ───────────────────────────────────────────────────────────

  predicate IsMeta(ch: char) { ch == '%' || ch == '_' || ch == '\\' }

  /** `_LIKE_METACHAR.sub(lambda m: "\\" + m.group(0), s)` */
  function Escape(s: string): (r: string) {
    if s == "" then "" else (if IsMeta(s[0]) then ['\\', s[0]] else [s[0]]) + Escape(s[1..])
  }

  /** The query as the catalog path compares it. */
  function QueryKey(q: string): (r: string) { N.LowerCase(N.Collapse(q)) }

  /** _catalog_like_pattern */
  function CatalogLikePattern(q: string): (r: string) { Escape(QueryKey(q)) + "%" }

  /** The artist and label prefix of an empty full-text query. */
  function TermPrefix(q: string): (r: string) { Escape(N.LowerCase(N.Strip(q))) + "%" }

  lemma PercentMatchesAll(text: string)
    ensures WellEscaped("%") && Like(text, "%")
  {
    assert text[|text|..] == "" && "%"[1..] == "";
    assert Like(text[|text|..], "%"[1..]);
  }

  /** One escaped character matches that character and nothing else. */
  lemma LiteralStep(ch: char, tail: string, text: string)
    requires WellEscaped(tail)
    ensures var pattern := (if IsMeta(ch) then ['\\', ch] else [ch]) + tail;
            WellEscaped(pattern) && (Like(text, pattern) <==> text != "" && text[0] == ch && Like(text[1..], tail))
  {
    var pattern := (if IsMeta(ch) then ['\\', ch] else [ch]) + tail;
    assert pattern[if IsMeta(ch) then 2 else 1..] == tail;
  }

  lemma PrefixStep(prefix: string, text: string)
    requires prefix != ""
    ensures prefix <= text <==> text != "" && text[0] == prefix[0] && prefix[1..] <= text[1..]
  {
    if text != "" && text[0] == prefix[0] {
      assert prefix == [prefix[0]] + prefix[1..] && text == [text[0]] + text[1..];
    }
  }

  /** An escaped text followed by a percent matches exactly the strings that start with the text:
      nothing in it acts as a wildcard, and the pattern is never malformed. */
  lemma {:induction false} EscapedIsPrefix(prefix: string, text: string)
    ensures WellEscaped(Escape(prefix) + "%")
    ensures Like(text, Escape(prefix) + "%") <==> prefix <= text
  {
    if prefix == "" {
      assert Escape(prefix) + "%" == "%";
      PercentMatchesAll(text);
    } else {
      var tail := Escape(prefix[1..]) + "%";
      EscapedIsPrefix(prefix[1..], if text == "" then "" else text[1..]);
      assert Escape(prefix) + "%" == (if IsMeta(prefix[0]) then ['\\', prefix[0]] else [prefix[0]]) + tail;
      LiteralStep(prefix[0], tail, text);
      PrefixStep(prefix, text);
    }
  }

  /** A query is always literal: its catalog pattern matches exactly the strings that start with
      its collapsed, lower-cased form, and its term pattern those that start with its trimmed form. */
  lemma PatternsAreLiteral(q: string, text: string)
    ensures WellEscaped(CatalogLikePattern(q)) && WellEscaped(TermPrefix(q))
    ensures Like(text, CatalogLikePattern(q)) <==> QueryKey(q) <= text
    ensures Like(text, TermPrefix(q)) <==> N.LowerCase(N.Strip(q)) <= text
  {
    EscapedIsPrefix(QueryKey(q), text);
    EscapedIsPrefix(N.LowerCase(N.Strip(q)), text);
  }

  // ── The two separator classes ──────────────────────────────────────────────

  /** `\s` of the database is narrower than Python's, which adds the four ASCII separators. */
  predicate IsControl(ch: char) { 0x1c as char <= ch <= 0x1f as char }

  function SqlKeeps(): char -> bool { ch => !N.IsSeparator(ch) || IsControl(ch) }

  /** lower(regexp_replace(catalog_number, '[\s\-_./]+', '', 'g')) */
  function ColumnKey(catalog: string): (r: string) { N.LowerCase(Filter(catalog, SqlKeeps())) }

  lemma {:induction false} ColumnKeepsMore(s: string)
    ensures |N.Collapse(s)| <= |Filter(s, SqlKeeps())|
    ensures |N.Collapse(s)| == |Filter(s, SqlKeeps())| <==> forall i :: 0 <= i < |s| ==> !IsControl(s[i])
  {
    if s != "" {
      ColumnKeepsMore(s[1..]);
      if forall i :: 0 <= i < |s[1..]| ==> !IsControl(s[1..][i]) {
        forall i | 1 <= i < |s| ensures !IsControl(s[i]) {
          assert s[i] == s[1..][i - 1];
        }
      }
    }
  }

  /** A catalog number that is no match for itself: the file separator U+001C disappears from the
      query but stays in the column. */
  lemma LockstepFails()
    ensures var s := ['A', 0x1c as char, 'B'];
            QueryKey(s) == "ab" && ColumnKey(s) == ['a', 0x1c as char, 'b']
            && WellEscaped(CatalogLikePattern(s)) && !Like(ColumnKey(s), CatalogLikePattern(s))
  {
    var s := ['A', 0x1c as char, 'B'];
    assert s[1..] == [0x1c as char, 'B'] && s[1..][1..] == ['B'] && ['B'][1..] == [];
    assert N.Collapse(['B']) == ['B'] && N.Collapse(s[1..]) == ['B'] && N.Collapse(s) == ['A', 'B'];
    assert Filter(['B'], SqlKeeps()) == ['B'] && Filter(s[1..], SqlKeeps()) == s[1..] && Filter(s, SqlKeeps()) == s;
    assert QueryKey(s) == "ab" && ColumnKey(s) == ['a', 0x1c as char, 'b'];
    PatternsAreLiteral(s, ColumnKey(s));
  }

  /** The two sides stay in lockstep, so that a catalog number is an exact match for itself, for
      exactly the texts without the four separators only Python collapses. */
  lemma LockstepExactly(s: string)
    ensures QueryKey(s) == ColumnKey(s) <==> forall i :: 0 <= i < |s| ==> !IsControl(s[i])
  {
    ColumnKeepsMore(s);
    if forall i :: 0 <= i < |s| ==> !IsControl(s[i]) {
      FilterSame(s, N.Keeps(), SqlKeeps());
    }
  }
}
