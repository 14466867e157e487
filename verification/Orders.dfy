/** Python's lexicographic comparison of tuples and strings, and what makes it a total order. */
module Orders {
  /** Total, antisymmetric and transitive. */
  ghost predicate TotalOrder<T(!new)>(le: (T, T) -> bool) {
    && (forall x, y :: le(x, y) || le(y, x))
    && (forall x, y :: le(x, y) && le(y, x) ==> x == y)
    && (forall x, y, z :: le(x, y) && le(y, z) ==> le(x, z))
  }

  function IntLe(): (int, int) -> bool { (a, b) => a <= b }

  function CharLe(): (char, char) -> bool { (a, b) => a <= b }

  /** The first difference decides; a proper prefix is smaller. */
  predicate LexLe<T(==)>(a: seq<T>, b: seq<T>, le: (T, T) -> bool) {
    a == [] || (b != [] && if a[0] == b[0] then LexLe(a[1..], b[1..], le) else le(a[0], b[0]))
  }

  function Lex<T(==)>(le: (T, T) -> bool): (seq<T>, seq<T>) -> bool {
    (a, b) => LexLe(a, b, le)
  }

  lemma {:induction false} LexTotal<T(!new)>(a: seq<T>, b: seq<T>, le: (T, T) -> bool)
    requires TotalOrder(le)
    ensures LexLe(a, b, le) || LexLe(b, a, le)
  {
    if a != [] && b != [] {
      LexTotal(a[1..], b[1..], le);
    }
  }

  lemma {:induction false} LexAntisymmetric<T(!new)>(a: seq<T>, b: seq<T>, le: (T, T) -> bool)
    requires TotalOrder(le) && LexLe(a, b, le) && LexLe(b, a, le)
    ensures a == b
  {
    if a != [] && b != [] {
      assert a[0] == b[0];
      LexAntisymmetric(a[1..], b[1..], le);
      assert a == [a[0]] + a[1..] && b == [b[0]] + b[1..];
    }
  }

  lemma {:induction false} LexTransitive<T(!new)>(a: seq<T>, b: seq<T>, c: seq<T>, le: (T, T) -> bool)
    requires TotalOrder(le) && LexLe(a, b, le) && LexLe(b, c, le)
    ensures LexLe(a, c, le)
  {
    if a != [] && b != [] && c != [] {
      if a[0] == b[0] == c[0] {
        LexTransitive(a[1..], b[1..], c[1..], le);
      }
    }
  }

  /** Lexicographic comparison of sequences over a total order is a total order. */
  lemma LexIsTotalOrder<T(!new)>(le: (T, T) -> bool)
    requires TotalOrder(le)
    ensures TotalOrder(Lex(le))
  {
    forall a, b ensures Lex(le)(a, b) || Lex(le)(b, a) {
      LexTotal(a, b, le);
    }
    forall a, b | Lex(le)(a, b) && Lex(le)(b, a) ensures a == b {
      LexAntisymmetric(a, b, le);
    }
    forall a, b, c | Lex(le)(a, b) && Lex(le)(b, c) ensures Lex(le)(a, c) {
      LexTransitive(a, b, c, le);
    }
  }

  /** Up to position `k` the sequences agree, and there they differ. */
  ghost predicate FirstDifference<T>(a: seq<T>, b: seq<T>, k: nat) {
    k < |a| && k < |b| && a[..k] == b[..k] && a[k] != b[k]
  }

  lemma DifferenceLater<T>(a: seq<T>, b: seq<T>, k: nat)
    requires a != [] && b != [] && a[0] == b[0]
    ensures FirstDifference(a[1..], b[1..], k) <==> FirstDifference(a, b, k + 1)
  {
    var at, bt := a[1..], b[1..];
    assert a == [a[0]] + at && b == [b[0]] + bt;
    if k < |at| && k < |bt| {
      assert a[..k + 1] == [a[0]] + at[..k] && b[..k + 1] == [b[0]] + bt[..k];
      assert at[..k] == a[..k + 1][1..] && bt[..k] == b[..k + 1][1..];
    }
  }

  lemma PrefixLater<T>(a: seq<T>, b: seq<T>)
    requires a != [] && b != [] && a[0] == b[0]
    ensures a <= b <==> a[1..] <= b[1..]
  {
    assert a == [a[0]] + a[1..] && b == [b[0]] + b[1..];
    if a <= b { assert a[1..] == b[1..|a|]; }
  }

  /** The first difference decides in favour of `a`. */
  ghost predicate Decides<T>(a: seq<T>, b: seq<T>, le: (T, T) -> bool) {
    exists k: nat :: FirstDifference(a, b, k) && le(a[k], b[k])
  }

  lemma DecidesLater<T>(a: seq<T>, b: seq<T>, le: (T, T) -> bool)
    requires a != [] && b != [] && a[0] == b[0]
    ensures Decides(a, b, le) <==> Decides(a[1..], b[1..], le)
  {
    if Decides(a, b, le) {
      var k: nat :| FirstDifference(a, b, k) && le(a[k], b[k]);
      DifferenceLater(a, b, k - 1);
      assert a[1..][k - 1] == a[k] && b[1..][k - 1] == b[k];
    }
    if Decides(a[1..], b[1..], le) {
      var k: nat :| FirstDifference(a[1..], b[1..], k) && le(a[1..][k], b[1..][k]);
      DifferenceLater(a, b, k);
      assert a[1..][k] == a[k + 1] && b[1..][k] == b[k + 1];
    }
  }

  /** What the comparison means: a prefix comes first, otherwise the first difference decides. */
  lemma {:induction false} LexMeans<T>(a: seq<T>, b: seq<T>, le: (T, T) -> bool)
    ensures LexLe(a, b, le) <==> a <= b || Decides(a, b, le)
  {
    if a != [] && b != [] {
      if a[0] == b[0] {
        LexMeans(a[1..], b[1..], le);
        PrefixLater(a, b);
        DecidesLater(a, b, le);
      } else {
        assert FirstDifference(a, b, 0);
        forall k: nat | 0 < k < |a| && k < |b| ensures !FirstDifference(a, b, k) {
          assert a[..k][0] == a[0] && b[..k][0] == b[0];
        }
      }
    }
  }
}
