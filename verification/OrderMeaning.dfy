/** What the order of catalogs and labels is, in terms of numbers, alphabets and weights
    (src/gruvax/estimator/normalize.py:85-113, 214-290). */
module OrderMeaning {
  import opened Sequences
  import opened Orders
  import opened Decimals
  import opened Normalize
  import opened Separators
  import opened Records
  import opened Assignment

  function Sign(d: int): (s: int) { if d < 0 then -1 else if d > 0 then 1 else 0 }

  /** A non-empty word over the English alphabet, in any case. */
  ghost predicate Word(p: string) { p != "" && forall ch :: ch in p ==> ch in UPPER || ch in LOWER }

  lemma LetterMeans(ch: char)
    ensures IsLetter(ch) <==> ch in UPPER || ch in LOWER
  {
    forall k | 0 <= k < 26 ensures UPPER[k] as int == 65 + k && LOWER[k] as int == 97 + k { Alphabets(k); }
    if 'A' <= ch <= 'Z' { assert UPPER[ch as int - 65] == ch; }
    if 'a' <= ch <= 'z' { assert LOWER[ch as int - 97] == ch; }
  }

  lemma WordMeans(p: string)
    ensures Word(p) <==> AllLetters(p)
  {
    forall ch ensures IsLetter(ch) <==> ch in UPPER || ch in LOWER { LetterMeans(ch); }
  }

  // ── Numbers ────────────────────────────────────────────────────────────────

  /** The numeral of a number below 10^12, zeros in front included, is read as that number. */
  lemma NumeralToken(zeros: nat, n: nat)
    requires n < 1_000_000_000_000 && zeros + |Decimal(n)| <= 12
    ensures AllDigits(Zeros(zeros) + Decimal(n)) && TokenOf(Zeros(zeros) + Decimal(n)) == Number(n)
  {
    DecimalRoundTrip(n);
    LeadingZeros(zeros, Decimal(n));
  }

  lemma PlainNumeral(n: nat)
    requires n < 1_000_000_000_000
    ensures |Decimal(n)| <= 12 && AllDigits(Decimal(n)) && TokenOf(Decimal(n)) == Number(n)
  {
    Pow10Of12();
    DecimalLength(n, 12);
    NumeralToken(0, n);
    assert Zeros(0) + Decimal(n) == Decimal(n);
  }

  lemma CompareKeys(a: Option<string>, b: Option<string>, x: Token, y: Token, z: Token)
    requires ParseKey(a) == [x, y] && ParseKey(b) == [x, z]
    ensures CompareCatalogs(a, b) == if y == z then 0 else if !TokenLe(z, y) then -1 else if !TokenLe(y, z) then 1 else 0
  {
    TwoTokenKeys(x, y, z);
    TwoTokenKeys(x, z, y);
  }

  /** "BLP 9" sorts before "BLP-10": behind one word, with or without a separator in between,
      catalogs compare as the numbers they print. */
  lemma NumericAware(p: string, sep: char, n: nat, m: nat)
    requires Word(p) && sep in " \t\n\r-_./" && n < 1_000_000_000_000 && m < 1_000_000_000_000
    ensures CompareCatalogs(Some(p + [sep] + Decimal(n)), Some(p + Decimal(m))) == Sign(n - m)
    ensures CompareCatalogs(Some(p + Decimal(n)), Some(p + Decimal(m))) == Sign(n - m)
  {
    WordMeans(p);
    PlainNumeral(n);
    PlainNumeral(m);
    SeparatorsVanish(p, sep, Decimal(n));
    PlainCatalogKey(p, Decimal(n));
    PlainCatalogKey(p, Decimal(m));
    CompareKeys(Some(p + Decimal(n)), Some(p + Decimal(m)), Alpha(LowerCase(p)), Number(n), Number(m));
    assert ParseKey(Some(p + [sep] + Decimal(n))) == ParseKey(Some(p + Decimal(n)));
  }

  /** Zeros in front of a number do not count, as long as the run has at most twelve digits. */
  lemma LeadingZerosDoNotCount(p: string, zeros: nat, n: nat)
    requires Word(p) && n < 1_000_000_000_000 && zeros + |Decimal(n)| <= 12
    ensures CompareCatalogs(Some(p + (Zeros(zeros) + Decimal(n))), Some(p + Decimal(n))) == 0
  {
    WordMeans(p);
    NumeralToken(zeros, n);
    PlainNumeral(n);
    PlainCatalogKey(p, Zeros(zeros) + Decimal(n));
    PlainCatalogKey(p, Decimal(n));
    CompareKeys(Some(p + (Zeros(zeros) + Decimal(n))), Some(p + Decimal(n)), Alpha(LowerCase(p)), Number(n), Number(n));
  }

  /** A run of more than twelve digits is above every number below 10^12 and ties with every other
      such run, whatever its digits. */
  lemma LongRunsAreLast(p: string, n: nat, d: string, e: string)
    requires Word(p) && n < 1_000_000_000_000 && IsDigits(d) && IsDigits(e) && |d| > 12 && |e| > 12
    ensures CompareCatalogs(Some(p + Decimal(n)), Some(p + d)) == -1
    ensures CompareCatalogs(Some(p + d), Some(p + e)) == 0
  {
    WordMeans(p);
    PlainNumeral(n);
    PlainCatalogKey(p, Decimal(n));
    PlainCatalogKey(p, d);
    PlainCatalogKey(p, e);
    CompareKeys(Some(p + Decimal(n)), Some(p + d), Alpha(LowerCase(p)), Number(n), TokenOf(d));
    CompareKeys(Some(p + d), Some(p + e), Alpha(LowerCase(p)), TokenOf(d), TokenOf(e));
  }

  // ── Words ──────────────────────────────────────────────────────────────────

  /** Alphabetical order: a prefix first, otherwise the first difference decides. */
  ghost predicate Alphabetical(a: string, b: string) {
    a <= b || exists k: nat :: FirstDifference(a, b, k) && a[k] < b[k]
  }

  lemma AlphabeticalMeans(a: string, b: string)
    ensures LexLe(a, b, CharLe()) <==> Alphabetical(a, b)
  {
    LexMeans(a, b, CharLe());
    if Decides(a, b, CharLe()) {
      var k: nat :| FirstDifference(a, b, k) && CharLe()(a[k], b[k]);
      assert a[k] < b[k];
    }
    if k: nat :| FirstDifference(a, b, k) && a[k] < b[k] {
      assert CharLe()(a[k], b[k]);
    }
  }

  /** `low` is a text with every letter in lower case. */
  ghost predicate Folded(s: string, low: string) { |low| == |s| && forall i :: 0 <= i < |s| ==> FoldsTo(s[i], low[i]) }

  lemma FoldedMeans(s: string, low: string)
    ensures Folded(s, low) <==> low == LowerCase(s)
  {
    forall i | 0 <= i < |s| && i < |low| ensures FoldsTo(s[i], low[i]) <==> low[i] == Lower(s[i]) { LowerMeans(s[i], low[i]); }
  }

  lemma FirstTokens(x: Token, y: Token, u: Token, v: Token)
    requires x != u
    ensures CatalogLe([x, y], [u, v]) <==> TokenLe(x, u)
  {
  }

  /** Behind different words the words decide, alphabetically and in any case, whatever the numbers. */
  lemma WordsDecide(p: string, lowP: string, d: string, q: string, lowQ: string, e: string)
    requires Word(p) && Word(q) && AllDigits(d) && AllDigits(e)
    requires Folded(p, lowP) && Folded(q, lowQ) && lowP != lowQ
    ensures CompareCatalogs(Some(p + d), Some(q + e)) == if Alphabetical(lowP, lowQ) then -1 else 1
  {
    WordMeans(p);
    WordMeans(q);
    FoldedMeans(p, lowP);
    FoldedMeans(q, lowQ);
    PlainCatalogKey(p, d);
    PlainCatalogKey(q, e);
    FirstTokens(Alpha(lowP), TokenOf(d), Alpha(lowQ), TokenOf(e));
    FirstTokens(Alpha(lowQ), TokenOf(e), Alpha(lowP), TokenOf(d));
    AlphabeticalMeans(lowP, lowQ);
    CompareIsTotalPreorder(Some(p + d), Some(q + e), None);
  }

  lemma {:induction false} FirstChar(s: string)
    requires s != "" && !IsSeparator(s[0]) && s[0] != ','
    ensures NormalizeCatalog(Some(s)) != "" && NormalizeCatalog(Some(s))[0] == Lower(s[0])
  {
    NormalizeMeans(s);
    assert BeforeComma(s) == [s[0]] + BeforeComma(s[1..]);
  }

  lemma FirstTokenKind(t: string)
    requires t != "" && (IsLetter(t[0]) || IsDigit(t[0]))
    ensures FindAll(t) != [] && (AllDigits(FindAll(t)[0]) <==> IsDigit(t[0]))
  {
    FindAllSteps(t);
    var tok := FindAll(t)[0];
    assert tok[0] == t[0];
  }

  lemma StartsWithLetter(s: string)
    requires s != "" && IsLetter(s[0])
    ensures ParseKey(Some(s)) != [] && !ParseKey(Some(s))[0].Number?
  {
    FirstChar(s);
    FirstTokenKind(NormalizeCatalog(Some(s)));
  }

  lemma DigitIsNoSentinel(t: string)
    requires t != "" && IsDigit(t[0])
    ensures t !in NONE_SENTINELS
  {
  }

  lemma KeyOfDigits(t: string)
    requires t != "" && IsDigit(t[0])
    ensures KeyOfNormalized(t) != [] && KeyOfNormalized(t)[0].Number?
  {
    DigitIsNoSentinel(t);
    FirstTokenKind(t);
  }

  lemma StartsWithDigit(s: string)
    requires s != "" && IsDigit(s[0])
    ensures ParseKey(Some(s)) != [] && ParseKey(Some(s))[0].Number?
  {
    FirstChar(s);
    KeyOfDigits(NormalizeCatalog(Some(s)));
  }

  lemma NumbersAreLast(ka: CatalogKey, kb: CatalogKey)
    requires ka != [] && kb != [] && !ka[0].Number? && kb[0].Number?
    ensures CatalogLe(ka, kb) && !CatalogLe(kb, ka)
  {
  }

  lemma LetterThenDigit(a: string, b: string)
    requires a != "" && IsLetter(a[0]) && b != "" && IsDigit(b[0])
    ensures CompareCatalogs(Some(a), Some(b)) == -1
  {
    StartsWithLetter(a);
    StartsWithDigit(b);
    NumbersAreLast(ParseKey(Some(a)), ParseKey(Some(b)));
  }

  /** A catalog that starts with a letter sorts before every catalog that starts with a digit. */
  lemma LettersBeforeDigits(a: string, b: string)
    requires a != "" && (a[0] in UPPER || a[0] in LOWER) && b != "" && b[0] in "0123456789"
    ensures CompareCatalogs(Some(a), Some(b)) == -1
  {
    LetterMeans(a[0]);
    LetterThenDigit(a, b);
  }

  // ── Catalogs without a number ──────────────────────────────────────────────

  lemma {:induction false} NoTokens(t: string)
    ensures FindAll(t) == [] <==> forall ch :: ch in t ==> !Alphanumerics()(ch)
    decreases |t|
  {
    if t != "" {
      FindAllSteps(t);
      assert t == [t[0]] + t[1..];
      if !Alphanumerics()(t[0]) { NoTokens(t[1..]); }
    }
  }

  lemma NormalizedHasNoSeparator(raw: Option<string>)
    ensures forall ch :: ch in NormalizeCatalog(raw) ==> !IsSeparator(ch)
  {
    if raw.Some? {
      NormalizeMeans(raw.value);
      var kept := Collapse(BeforeComma(raw.value));
      FilterMembers(BeforeComma(raw.value), Keeps());
      forall i | 0 <= i < |kept| ensures !IsSeparator(LowerCase(kept)[i]) {
        assert kept[i] in kept;
      }
    }
  }

  lemma SentinelTexts(t: string)
    requires forall ch :: ch in t ==> !IsSeparator(ch)
    ensures t in NONE_SENTINELS <==> t in ["none", "na", "?", ""]
  {
    assert "n/a"[1] == '/' && "n.a."[1] == '.';
    assert '/' in "n/a" && '.' in "n.a.";
  }

  /** A catalog has no usable number exactly when it is missing, reads "none" or "na" once
      separators and case are gone, or has neither a letter nor a digit left. */
  lemma MissingExactly(raw: Option<string>)
    ensures ParseKey(raw) == [Missing] <==>
              || raw.None?
              || NormalizeCatalog(raw) in ["none", "na"]
              || forall ch :: ch in NormalizeCatalog(raw) ==> ch !in UPPER && ch !in LOWER && ch !in "0123456789"
  {
    var t := NormalizeCatalog(raw);
    NormalizedHasNoSeparator(raw);
    SentinelTexts(t);
    NoTokens(t);
    forall ch ensures Alphanumerics()(ch) <==> ch in UPPER || ch in LOWER || ch in "0123456789" {
      LetterMeans(ch);
      if IsDigit(ch) { assert "0123456789"[ch as int - 48] == ch; }
    }
    if t !in NONE_SENTINELS && FindAll(t) != [] {
      assert ParseKey(raw)[0] == TokenOf(FindAll(t)[0]);
    }
  }

  // ── Labels and records ─────────────────────────────────────────────────────

  /** Labels sort by the weights of the collator, and only labels with equal weights by their
      casefolded text. */
  lemma LabelOrderMeans(c: Collator, a: string, b: string)
    ensures var (fa, fb) := (c.casefold(a), c.casefold(b));
            var (wa, wb) := (c.weights(fa), c.weights(fb));
            LabelLe(c.KeyOf(a), c.KeyOf(b)) <==>
              if wa == wb then Alphabetical(fa, fb)
              else wa <= wb || exists k: nat :: FirstDifference(wa, wb, k) && wa[k] < wb[k]
  {
    var (fa, fb) := (c.casefold(a), c.casefold(b));
    var (wa, wb) := (c.weights(fa), c.weights(fb));
    AlphabeticalMeans(fa, fb);
    LexMeans(wa, wb, IntLe());
    if Decides(wa, wb, IntLe()) {
      var k: nat :| FirstDifference(wa, wb, k) && IntLe()(wa[k], wb[k]);
      assert wa[k] < wb[k];
    }
    if k: nat :| FirstDifference(wa, wb, k) && wa[k] < wb[k] {
      assert IntLe()(wa[k], wb[k]);
    }
  }

  /** Records sort by label first, and only records of one label by catalog. */
  lemma RecordOrderMeans(c: Collator, a: RecordRow, b: RecordRow)
    ensures CutLe(RecordKey(c, a), RecordKey(c, b)) <==>
              if c.casefold(a.labelName) == c.casefold(b.labelName) then CompareCatalogs(Some(a.catalog), Some(b.catalog)) <= 0
              else LabelLe(c.KeyOf(a.labelName), c.KeyOf(b.labelName))
  {
    CatalogOrder(CatalogOf(a), CatalogOf(b), CatalogOf(b));
  }
}
