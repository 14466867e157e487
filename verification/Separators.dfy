/** What a separator, a comma and letter case do to a catalog number, character by character, for the
    ordering key (src/gruvax/estimator/normalize.py:42-44, 116-155) and for both sides of the catalog
    search (src/gruvax/db/queries.py:72-114). */
module Separators {
  import opened Sequences
  import opened Normalize
  import opened CatalogPattern
  import S = Search

  const UPPER := "ABCDEFGHIJKLMNOPQRSTUVWXYZ"
  const LOWER := "abcdefghijklmnopqrstuvwxyz"

  /** `low` is what lower-casing makes of an ASCII character. */
  ghost predicate FoldsTo(ch: char, low: char) {
    if ch in UPPER then exists k :: 0 <= k < 26 && UPPER[k] == ch && LOWER[k] == low else low == ch
  }

  lemma Alphabets(k: nat)
    requires k < 26
    ensures UPPER[k] as int == 65 + k && LOWER[k] as int == 97 + k
  {
  }

  lemma LowerMeans(ch: char, low: char)
    ensures FoldsTo(ch, low) <==> low == Lower(ch)
  {
    forall k | 0 <= k < 26 ensures UPPER[k] as int == 65 + k && LOWER[k] as int == 97 + k { Alphabets(k); }
    if 'A' <= ch <= 'Z' {
      var k := ch as int - 65;
      assert UPPER[k] == ch;
    }
  }

  // ── The keys, one character at a time ──────────────────────────────────────

  lemma LowerConcat(a: string, b: string)
    ensures LowerCase(a + b) == LowerCase(a) + LowerCase(b)
  {
  }

  lemma OneChar(ch: char, p: char -> bool)
    ensures LowerCase(Filter([ch], p)) == if p(ch) then [Lower(ch)] else []
  {
    assert Filter([ch], p) == if p(ch) then [ch] else [];
  }

  lemma InsertedChar(a: string, ch: char, b: string, p: char -> bool)
    ensures LowerCase(Filter(a + [ch] + b, p))
            == LowerCase(Filter(a, p)) + (if p(ch) then [Lower(ch)] else []) + LowerCase(Filter(b, p))
  {
    FilterConcat(a + [ch], b, p);
    FilterConcat(a, [ch], p);
    LowerConcat(Filter(a, p) + Filter([ch], p), Filter(b, p));
    LowerConcat(Filter(a, p), Filter([ch], p));
    OneChar(ch, p);
  }

  lemma Joined(a: string, b: string, p: char -> bool)
    ensures LowerCase(Filter(a + b, p)) == LowerCase(Filter(a, p)) + LowerCase(Filter(b, p))
  {
    FilterConcat(a, b, p);
    LowerConcat(Filter(a, p), Filter(b, p));
  }

  lemma {:induction false} BeforeCommaConcat(a: string, b: string)
    ensures BeforeComma(a + b) == if ',' in a then BeforeComma(a) else a + BeforeComma(b)
  {
    if a == "" {
      assert a + b == b;
    } else {
      var rest := a[1..];
      assert (a + b)[1..] == rest + b && (a + b)[0] == a[0];
      assert ',' in a <==> a[0] == ',' || ',' in rest;
      BeforeCommaConcat(rest, b);
      if a[0] != ',' && ',' !in rest {
        assert a + BeforeComma(b) == [a[0]] + (rest + BeforeComma(b));
      }
    }
  }

  lemma NormalizeNoComma(text: string)
    requires ',' !in text
    ensures NormalizeCatalog(Some(text)) == LowerCase(Filter(text, Keeps()))
  {
    NormalizeMeans(text);
    BeforeCommaLower(text);
  }

  lemma VanishesFrom(a: string, sep: char, b: string, p: char -> bool)
    requires !p(sep)
    ensures LowerCase(Filter(a + [sep] + b, p)) == LowerCase(Filter(a + b, p))
  {
    InsertedChar(a, sep, b, p);
    Joined(a, b, p);
  }

  lemma VanishesFromList(a: string, sep: char, b: string)
    requires sep != ',' && IsSeparator(sep)
    ensures NormalizeCatalog(Some(a + [sep] + b)) == NormalizeCatalog(Some(a + b))
  {
    NormalizeMeans(a + [sep] + b);
    NormalizeMeans(a + b);
    BeforeCommaConcat(a + [sep], b);
    BeforeCommaConcat(a, b);
    BeforeCommaConcat(a, [sep]);
    assert BeforeComma([sep]) == [sep];
    VanishesFrom(a, sep, BeforeComma(b), Keeps());
  }

  /** Space, tab, line breaks, hyphen, underscore, dot and slash make no difference anywhere in a
      catalog number: not to the query, not to the column, not to the ordering key. */
  lemma SeparatorsVanish(a: string, sep: char, b: string)
    requires sep in " \t\n\r-_./" || sep == 0x0b as char || sep == 0x0c as char
    ensures QueryKey(a + [sep] + b) == QueryKey(a + b)
    ensures ColumnKey(a + [sep] + b) == ColumnKey(a + b)
    ensures NormalizeCatalog(Some(a + [sep] + b)) == NormalizeCatalog(Some(a + b))
  {
    VanishesFrom(a, sep, b, Keeps());
    VanishesFrom(a, sep, b, SqlKeeps());
    VanishesFromList(a, sep, b);
  }

  /** Every other character counts: it stays where it is, lower-cased. */
  lemma OthersStay(a: string, ch: char, low: char, b: string)
    requires ch !in " \t\n\r-_./" && ch != 0x0b as char && ch != 0x0c as char && !(0x1c as char <= ch <= 0x1f as char)
    requires FoldsTo(ch, low)
    ensures QueryKey(a + [ch] + b) == QueryKey(a) + [low] + QueryKey(b)
    ensures ColumnKey(a + [ch] + b) == ColumnKey(a) + [low] + ColumnKey(b)
    ensures ',' !in a + [ch] + b ==>
              NormalizeCatalog(Some(a + [ch] + b)) == NormalizeCatalog(Some(a)) + [low] + NormalizeCatalog(Some(b))
  {
    LowerMeans(ch, low);
    InsertedChar(a, ch, b, Keeps());
    InsertedChar(a, ch, b, SqlKeeps());
    if ',' !in a + [ch] + b {
      NormalizeNoComma(a + [ch] + b);
      NormalizeNoComma(a);
      NormalizeNoComma(b);
    }
  }

  /** The four separators U+001C to U+001F vanish from the query and the ordering key and stay in
      the column. */
  lemma ControlsSplitTheSides(a: string, ch: char, b: string)
    requires 0x1c as char <= ch <= 0x1f as char
    ensures QueryKey(a + [ch] + b) == QueryKey(a + b)
    ensures ColumnKey(a + [ch] + b) == ColumnKey(a) + [ch] + ColumnKey(b)
  {
    InsertedChar(a, ch, b, Keeps());
    InsertedChar(a, ch, b, SqlKeeps());
    Joined(a, b, Keeps());
  }

  /** Of a list of catalog numbers only the first counts. */
  lemma FirstOfListCounts(a: string, b: string)
    ensures NormalizeCatalog(Some(a + "," + b)) == NormalizeCatalog(Some(a))
  {
    NormalizeMeans(a + "," + b);
    NormalizeMeans(a);
    BeforeCommaConcat(a + ",", b);
    BeforeCommaConcat(a, ",");
    BeforeCommaLower(a);
    assert BeforeComma(",") == "";
    assert a + "" == a;
  }

  /** White space of `str.strip` within ASCII. */
  lemma SpaceMeans(ch: char)
    ensures IsSpace(ch) <==> ch in " \t\n\r" || 0x0b as char <= ch <= 0x0c as char || 0x1c as char <= ch <= 0x1f as char
  {
  }

  /** str.strip(): what it takes away is white space at the two ends, and all of it. */
  lemma StripMeans(s: string) returns (left: string, right: string)
    ensures s == left + Strip(s) + right
    ensures forall ch :: ch in left || ch in right ==> IsSpace(ch)
    ensures Strip(s) != "" ==> !IsSpace(Strip(s)[0]) && !IsSpace(Strip(s)[|Strip(s)| - 1])
  {
    left := StripLeftMeans(s);
    right := StripRightMeans(StripLeft(s));
    var t := StripLeft(s);
    assert s == left + t && t == Strip(s) + right;
    if Strip(s) != "" { assert Strip(s)[0] == t[0]; }
  }

  lemma {:induction false} StripLeftMeans(s: string) returns (left: string)
    ensures s == left + StripLeft(s) && forall ch :: ch in left ==> IsSpace(ch)
    ensures StripLeft(s) != "" ==> !IsSpace(StripLeft(s)[0])
  {
    left := "";
    if s != "" && IsSpace(s[0]) {
      var rest := StripLeftMeans(s[1..]);
      left := [s[0]] + rest;
      assert s == [s[0]] + s[1..];
    }
  }

  lemma {:induction false} StripRightMeans(s: string) returns (right: string)
    ensures s == StripRight(s) + right && forall ch :: ch in right ==> IsSpace(ch)
    ensures StripRight(s) != "" ==> !IsSpace(StripRight(s)[|StripRight(s)| - 1])
  {
    right := "";
    if s != "" && IsSpace(s[|s| - 1]) {
      var rest := StripRightMeans(s[..|s| - 1]);
      right := rest + [s[|s| - 1]];
      assert s == s[..|s| - 1] + [s[|s| - 1]];
    }
  }

  // ── The spellings of one catalog number ────────────────────────────────────

  /** The score of a catalog match is 1.0 exactly when query and column collapse to one text. */
  lemma ScoresExactly(q: string, row: S.Row)
    requires row.catalog.Some?
    ensures S.CatalogScore(q)(row) == Some(1.0) <==> ColumnKey(row.catalog.value) == QueryKey(q)
  {
    S.CatalogScoreMeans(q, row);
  }

  lemma PlainKeys(s: string)
    requires forall ch :: ch in s ==> !IsSeparator(ch)
    ensures QueryKey(s) == LowerCase(s) && ColumnKey(s) == LowerCase(s)
  {
    FilterAll(s, Keeps());
    FilterAll(s, SqlKeeps());
  }

  /** "BLP 4195", "BLP-4195" and "blp4195" are exact matches of one another. */
  lemma OneCatalogNumber(q: string, catalog: string, releaseId: int, folderId: int)
    requires q in ["BLP 4195", "BLP-4195", "blp4195"] && catalog in ["BLP 4195", "BLP-4195", "blp4195"]
    ensures S.CatalogScore(q)(S.Row(releaseId, folderId, Some(catalog))) == Some(1.0)
  {
    SpellingKeys(q);
    SpellingKeys(catalog);
    ScoresExactly(q, S.Row(releaseId, folderId, Some(catalog)));
  }

  lemma LowerSpelling(s: string)
    requires s == "BLP4195" || s == "blp4195"
    ensures LowerCase(s) == "blp4195" && forall ch :: ch in s ==> !IsSeparator(ch)
  {
    var r := LowerCase(s);
    assert r[0] == 'b' && r[1] == 'l' && r[2] == 'p' && r[3] == '4' && r[4] == '1' && r[5] == '9' && r[6] == '5';
  }

  lemma JoinedSpelling(s: string)
    requires s == "BLP4195"
    ensures QueryKey(s) == "blp4195" && ColumnKey(s) == "blp4195"
  {
    LowerSpelling(s);
    PlainKeys(s);
  }

  lemma SeparatedSpelling(s: string, sep: char)
    requires sep in " -" && s == "BLP" + [sep] + "4195"
    ensures QueryKey(s) == "blp4195" && ColumnKey(s) == "blp4195"
  {
    SeparatorsVanish("BLP", sep, "4195");
    JoinedSpelling("BLP" + "4195");
  }

  lemma SpellingKeys(s: string)
    requires s in ["BLP 4195", "BLP-4195", "blp4195"]
    ensures QueryKey(s) == "blp4195" && ColumnKey(s) == "blp4195"
  {
    if s == "blp4195" {
      LowerSpelling(s);
      PlainKeys(s);
    } else {
      SeparatedSpelling(s, if s == "BLP 4195" then ' ' else '-');
    }
  }
}
