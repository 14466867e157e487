/** Lists as the source uses them: comprehensions that keep matching elements, and
    the stable sort behind `sorted(...)` and `list.sort(...)`. */
module Sequences {
  datatype Option<+T> = None | Some(value: T)

  ghost predicate Distinct<T>(s: seq<T>) {
    forall i, j :: 0 <= i < j < |s| ==> s[i] != s[j]
  }

  /** The elements of `s` that satisfy `p`, in order. */
  function Filter<T>(s: seq<T>, p: T -> bool): (r: seq<T>) {
    if s == [] then [] else if p(s[0]) then [s[0]] + Filter(s[1..], p) else Filter(s[1..], p)
  }

  lemma {:induction false} FilterConcat<T>(s: seq<T>, t: seq<T>, p: T -> bool)
    ensures Filter(s + t, p) == Filter(s, p) + Filter(t, p)
  {
    if s == [] {
      assert s + t == t;
    } else {
      FilterConcat(s[1..], t, p);
      assert (s + t)[1..] == s[1..] + t;
      assert (s + t)[0] == s[0];
      if p(s[0]) {
        assert [s[0]] + (Filter(s[1..], p) + Filter(t, p)) == ([s[0]] + Filter(s[1..], p)) + Filter(t, p);
      }
    }
  }

  lemma {:induction false} FilterMember<T>(s: seq<T>, p: T -> bool, x: T)
    ensures x in Filter(s, p) <==> x in s && p(x)
  {
    if s != [] {
      FilterMember(s[1..], p, x);
      assert x in s <==> x == s[0] || x in s[1..];
    }
  }

  lemma FilterMembers<T(!new)>(s: seq<T>, p: T -> bool)
    ensures forall x :: x in Filter(s, p) <==> x in s && p(x)
  {
    forall x ensures x in Filter(s, p) <==> x in s && p(x) {
      FilterMember(s, p, x);
    }
  }

  lemma {:induction false} FilterAll<T>(s: seq<T>, p: T -> bool)
    requires forall x :: x in s ==> p(x)
    ensures Filter(s, p) == s
  {
    if s != [] {
      FilterAll(s[1..], p);
    }
  }

  lemma {:induction false} FilterNone<T>(s: seq<T>, p: T -> bool)
    requires forall x :: x in s ==> !p(x)
    ensures Filter(s, p) == []
  {
    if s != [] {
      FilterNone(s[1..], p);
    }
  }

  lemma {:induction false} FilterSame<T>(s: seq<T>, p: T -> bool, q: T -> bool)
    requires forall x :: x in s ==> p(x) == q(x)
    ensures Filter(s, p) == Filter(s, q)
  {
    if s != [] {
      FilterSame(s[1..], p, q);
    }
  }

  lemma {:induction false} FilterSwap<T>(s: seq<T>, p: T -> bool, q: T -> bool)
    ensures Filter(Filter(s, p), q) == Filter(Filter(s, q), p)
  {
    if s != [] {
      var sp := if p(s[0]) then [s[0]] else [];
      var sq := if q(s[0]) then [s[0]] else [];
      FilterSwap(s[1..], p, q);
      FilterConcat(sp, Filter(s[1..], p), q);
      FilterConcat(sq, Filter(s[1..], q), p);
    }
  }

  lemma ThreeParts<T>(s: seq<T>, lo: nat, hi: nat)
    requires lo <= hi <= |s|
    ensures s == s[..lo] + s[lo..hi] + s[hi..]
  {
  }

  lemma FilterParts<T>(a: seq<T>, b: seq<T>, c: seq<T>, p: T -> bool)
    requires (forall x :: x in a ==> !p(x)) && (forall x :: x in b ==> p(x)) && (forall x :: x in c ==> !p(x))
    ensures Filter(a + b + c, p) == b
  {
    FilterConcat(a + b, c, p);
    FilterConcat(a, b, p);
    FilterNone(a, p);
    FilterAll(b, p);
    FilterNone(c, p);
  }

  /** When exactly the indices in [lo, hi) satisfy `p`, filtering is slicing. */
  lemma FilterSlice<T>(s: seq<T>, p: T -> bool, lo: nat, hi: nat)
    requires lo <= hi <= |s|
    requires forall i :: 0 <= i < |s| ==> (p(s[i]) <==> lo <= i < hi)
    ensures Filter(s, p) == s[lo..hi]
  {
    ThreeParts(s, lo, hi);
    FilterParts(s[..lo], s[lo..hi], s[hi..], p);
  }

  lemma {:induction false} FilterOrdered<T(!new)>(s: seq<T>, p: T -> bool, le: (T, T) -> bool)
    requires Ordered(s, le)
    ensures Ordered(Filter(s, p), le)
  {
    if s != [] {
      FilterOrdered(s[1..], p, le);
      FilterMembers(s[1..], p);
      var kept := Filter(s[1..], p);
      forall j | 0 <= j < |kept| ensures le(s[0], kept[j]) {
        assert kept[j] in s[1..];
      }
    }
  }

  /** The number of matches of either of two exclusive predicates. */
  lemma {:induction false} CountEither<T>(s: seq<T>, p: T -> bool, q: T -> bool, either: T -> bool)
    requires forall x :: x in s ==> either(x) == (p(x) || q(x)) && !(p(x) && q(x))
    ensures |Filter(s, either)| == |Filter(s, p)| + |Filter(s, q)|
  {
    if s != [] {
      CountEither(s[1..], p, q, either);
    }
  }

  /** The positions whose element satisfies `p`. */
  ghost function Positions<T>(s: seq<T>, p: T -> bool): (r: set<int>) { set i | 0 <= i < |s| && p(s[i]) }

  lemma PositionsSnoc<T>(s: seq<T>, x: T, p: T -> bool)
    ensures |Positions(s + [x], p)| == |Positions(s, p)| + if p(x) then 1 else 0
  {
    assert Positions(s + [x], p) == Positions(s, p) + if p(x) then {|s|} else {};
  }

  /** The number of elements kept is the number of positions that satisfy `p`. */
  lemma {:induction false} FilterCountsPositions<T>(s: seq<T>, p: T -> bool)
    ensures |Filter(s, p)| == |Positions(s, p)|
  {
    if s != [] {
      var n := |s| - 1;
      FilterCountsPositions(s[..n], p);
      assert s == s[..n] + [s[n]];
      PositionsSnoc(s[..n], s[n], p);
      FilterConcat(s[..n], [s[n]], p);
      assert Filter([s[n]], p) == if p(s[n]) then [s[n]] else [];
    }
  }

  // ── Pieces of a list whose elements are sorted by class ────────────────────

  function InClass<T>(cls: T -> nat, n: nat): T -> bool { x => cls(x) == n }

  function BelowClass<T>(cls: T -> nat, n: nat): T -> bool { x => cls(x) < n }

  lemma {:induction false} ClassSuffix<T>(s: seq<T>, cls: T -> nat, n: nat)
    requires forall i, j :: 0 <= i < j < |s| ==> cls(s[i]) <= cls(s[j])
    ensures Filter(s, BelowClass(cls, n + 1)) == Filter(s, BelowClass(cls, n)) + Filter(s, InClass(cls, n))
  {
    if s != [] {
      if cls(s[0]) < n {
        ClassSuffix(s[1..], cls, n);
      } else {
        forall x | x in s ensures cls(x) >= n {
          var j :| 0 <= j < |s| && s[j] == x;
          assert j == 0 || cls(s[0]) <= cls(s[j]);
        }
        FilterNone(s, BelowClass(cls, n));
        FilterSame(s, BelowClass(cls, n + 1), InClass(cls, n));
      }
    }
  }

  // ── Stable sorting ─────────────────────────────────────────────────────────

  ghost predicate Preorder<T(!new)>(le: (T, T) -> bool) {
    && (forall x, y :: le(x, y) || le(y, x))
    && (forall x, y, z :: le(x, y) && le(y, z) ==> le(x, z))
  }

  ghost predicate Ordered<T>(s: seq<T>, le: (T, T) -> bool) {
    forall i, j :: 0 <= i < j < |s| ==> le(s[i], s[j])
  }

  /** Puts `x` in front of the first element that is not strictly smaller. */
  function Insert<T>(x: T, s: seq<T>, le: (T, T) -> bool): (r: seq<T>) {
    if s == [] || le(x, s[0]) then [x] + s else [s[0]] + Insert(x, s[1..], le)
  }

  /** The stable sort of `s`: what `sorted(s, key=...)` returns when `le` compares keys. */
  function Sort<T>(s: seq<T>, le: (T, T) -> bool): (r: seq<T>) {
    if s == [] then [] else Insert(s[0], Sort(s[1..], le), le)
  }

  lemma {:induction false} InsertPermutes<T>(x: T, s: seq<T>, le: (T, T) -> bool)
    ensures multiset(Insert(x, s, le)) == multiset{x} + multiset(s)
    ensures |Insert(x, s, le)| == |s| + 1
  {
    if s != [] && !le(x, s[0]) {
      InsertPermutes(x, s[1..], le);
      assert s == [s[0]] + s[1..];
    }
  }

  lemma {:induction false} SortPermutes<T(!new)>(s: seq<T>, le: (T, T) -> bool)
    ensures multiset(Sort(s, le)) == multiset(s)
    ensures |Sort(s, le)| == |s|
    ensures forall x :: x in Sort(s, le) <==> x in s
  {
    if s != [] {
      SortPermutes(s[1..], le);
      InsertPermutes(s[0], Sort(s[1..], le), le);
      assert s == [s[0]] + s[1..];
    }
    forall x ensures x in Sort(s, le) <==> x in s {
      assert x in Sort(s, le) <==> x in multiset(Sort(s, le));
    }
  }

  lemma {:induction false} InsertOrders<T(!new)>(x: T, s: seq<T>, le: (T, T) -> bool)
    requires Preorder(le) && Ordered(s, le)
    ensures Ordered(Insert(x, s, le), le)
  {
    if s == [] {
    } else if le(x, s[0]) {
      forall j | 0 <= j < |s| ensures le(x, s[j]) {
        assert le(s[0], s[j]);
      }
    } else {
      var rest := Insert(x, s[1..], le);
      InsertOrders(x, s[1..], le);
      InsertPermutes(x, s[1..], le);
      forall j | 0 <= j < |rest| ensures le(s[0], rest[j]) {
        assert rest[j] in multiset(rest);
        assert rest[j] == x || rest[j] in s[1..];
      }
    }
  }

  lemma {:induction false} SortOrders<T(!new)>(s: seq<T>, le: (T, T) -> bool)
    requires Preorder(le)
    ensures Ordered(Sort(s, le), le)
  {
    if s != [] {
      SortOrders(s[1..], le);
      InsertOrders(s[0], Sort(s[1..], le), le);
    }
  }

  lemma {:induction false} SortFixesOrdered<T>(s: seq<T>, le: (T, T) -> bool)
    requires Ordered(s, le)
    ensures Sort(s, le) == s
  {
    if s != [] {
      SortFixesOrdered(s[1..], le);
    }
  }

  lemma {:induction false} InsertAgrees<T>(x: T, s: seq<T>, le: (T, T) -> bool, le2: (T, T) -> bool)
    requires forall y :: y in s ==> le(x, y) == le2(x, y)
    ensures Insert(x, s, le) == Insert(x, s, le2)
  {
    if s != [] && !le(x, s[0]) {
      InsertAgrees(x, s[1..], le, le2);
    }
  }

  /** Two comparisons that agree on the elements sort them alike. */
  lemma {:induction false} SortAgrees<T(!new)>(s: seq<T>, le: (T, T) -> bool, le2: (T, T) -> bool)
    requires forall x, y :: x in s && y in s ==> le(x, y) == le2(x, y)
    ensures Sort(s, le) == Sort(s, le2)
  {
    if s != [] {
      SortAgrees(s[1..], le, le2);
      SortPermutes(s[1..], le);
      assert s[0] in s;
      forall y | y in Sort(s[1..], le) ensures le(s[0], y) == le2(s[0], y) {
        assert y in s[1..] && y in s;
      }
      InsertAgrees(s[0], Sort(s[1..], le), le, le2);
    }
  }

  lemma {:induction false} FilterInsert<T(!new)>(x: T, s: seq<T>, le: (T, T) -> bool, p: T -> bool)
    requires Preorder(le) && Ordered(s, le)
    ensures Filter(Insert(x, s, le), p) == if p(x) then Insert(x, Filter(s, p), le) else Filter(s, p)
  {
    if s == [] {
      assert Filter([x], p) == if p(x) then [x] else [];
    } else if le(x, s[0]) {
      FilterConcat([x], s, p);
      assert Filter([x], p) == if p(x) then [x] else [];
      FilterMembers(s, p);
      var t := Filter(s, p);
      if t != [] {
        assert t[0] in s && le(s[0], s[0]);
        assert le(s[0], t[0]);
      }
    } else {
      var rest := Insert(x, s[1..], le);
      FilterInsert(x, s[1..], le, p);
      assert ([s[0]] + rest)[1..] == rest;
      var kept := Filter(s[1..], p);
      if p(s[0]) {
        assert ([s[0]] + kept)[1..] == kept;
      }
    }
  }

  /** Sorting commutes with keeping the elements that satisfy any predicate at all;
      this is what makes the sort stable. */
  lemma {:induction false} FilterSort<T(!new)>(s: seq<T>, le: (T, T) -> bool, p: T -> bool)
    requires Preorder(le)
    ensures Filter(Sort(s, le), p) == Sort(Filter(s, p), le)
  {
    if s != [] {
      FilterSort(s[1..], le, p);
      SortOrders(s[1..], le);
      FilterInsert(s[0], Sort(s[1..], le), le, p);
      var kept := Filter(s[1..], p);
      if p(s[0]) {
        assert ([s[0]] + kept)[1..] == kept;
      }
    }
  }

  function Ties<T>(le: (T, T) -> bool, x: T): T -> bool {
    y => le(x, y) && le(y, x)
  }

  /** The sorted list is the only one that is ordered and lists the elements of every
      tie class exactly as the input does. */
  lemma {:induction false} StableSortIsUnique<T(!new)>(s: seq<T>, t: seq<T>, le: (T, T) -> bool)
    requires Preorder(le) && Ordered(s, le) && Ordered(t, le)
    requires forall x :: Filter(s, Ties(le, x)) == Filter(t, Ties(le, x))
    ensures s == t
  {
    if s == [] {
      if t != [] {
        FilterMember(t, Ties(le, t[0]), t[0]);
        FilterMember(s, Ties(le, t[0]), t[0]);
      }
    } else {
      var x := s[0];
      FilterMember(s, Ties(le, x), x);
      FilterMembers(t, Ties(le, x));
      assert x in t;
      var y := t[0];
      FilterMembers(s, Ties(le, y));
      assert y in Filter(t, Ties(le, y));
      assert y in s;
      assert le(x, y) && le(y, x);
      assert Filter(s, Ties(le, x))[0] == x;
      assert Filter(t, Ties(le, x))[0] == y;
      forall z ensures Filter(s[1..], Ties(le, z)) == Filter(t[1..], Ties(le, z)) {
        var p := Ties(le, z);
        assert Filter(s, p) == Filter(t, p);
        assert p(x) == p(y);
        if p(x) {
          assert Filter(s[1..], p) == Filter(s, p)[1..];
          assert Filter(t[1..], p) == Filter(t, p)[1..];
        }
      }
      StableSortIsUnique(s[1..], t[1..], le);
      assert s == [s[0]] + s[1..] && t == [t[0]] + t[1..];
    }
  }

  lemma TiesStay<T(!new)>(s: seq<T>, le: (T, T) -> bool, x: T)
    requires Preorder(le)
    ensures Filter(Sort(s, le), Ties(le, x)) == Filter(s, Ties(le, x))
  {
    FilterSort(s, le, Ties(le, x));
    var tied := Filter(s, Ties(le, x));
    FilterMembers(s, Ties(le, x));
    forall i, j | 0 <= i < j < |tied| ensures le(tied[i], tied[j]) {
      assert tied[i] in tied && tied[j] in tied;
      assert le(tied[i], x) && le(x, tied[j]);
    }
    SortFixesOrdered(tied, le);
  }

  /** `Sort` is the stable sort: the one list that is ordered and keeps the elements with equal
      keys in the order of the input. */
  lemma SortIsStable<T(!new)>(s: seq<T>, t: seq<T>, le: (T, T) -> bool)
    requires Preorder(le)
    ensures t == Sort(s, le) <==> Ordered(t, le) && forall x :: Filter(t, Ties(le, x)) == Filter(s, Ties(le, x))
  {
    SortOrders(s, le);
    forall x ensures Filter(Sort(s, le), Ties(le, x)) == Filter(s, Ties(le, x)) {
      TiesStay(s, le, x);
    }
    if Ordered(t, le) && forall x :: Filter(t, Ties(le, x)) == Filter(s, Ties(le, x)) {
      StableSortIsUnique(t, Sort(s, le), le);
    }
  }

  lemma SameFirst<T(!new)>(s: seq<T>, t: seq<T>, le: (T, T) -> bool)
    requires Preorder(le) && Ordered(s, le) && Ordered(t, le) && multiset(s) == multiset(t) && s != [] && t != []
    ensures le(s[0], t[0]) && le(t[0], s[0]) && t[0] in s
  {
    assert s[0] in multiset(t) && t[0] in multiset(s);
    var i :| 0 <= i < |t| && t[i] == s[0];
    var j :| 0 <= j < |s| && s[j] == t[0];
    assert le(s[0], s[0]) && le(t[0], t[0]);
    assert le(s[0], s[j]) && le(t[0], t[i]);
  }

  lemma MultisetTail<T>(s: seq<T>)
    requires s != []
    ensures multiset(s[1..]) == multiset(s) - multiset{s[0]}
  {
    assert s == [s[0]] + s[1..];
  }

  /** Different elements never tie. */
  ghost predicate NoTies<T(!new)>(s: seq<T>, le: (T, T) -> bool) {
    forall x, y :: x in s && y in s && le(x, y) && le(y, x) ==> x == y
  }

  lemma TailKeepsOrder<T(!new)>(s: seq<T>, le: (T, T) -> bool)
    requires s != [] && Ordered(s, le)
    ensures Ordered(s[1..], le)
    ensures NoTies(s, le) ==> NoTies(s[1..], le)
  {
    assert forall x :: x in s[1..] ==> x in s;
  }

  lemma SameLength<T>(s: seq<T>, t: seq<T>)
    requires multiset(s) == multiset(t)
    ensures |s| == |t|
  {
    assert |multiset(s)| == |s| && |multiset(t)| == |t|;
  }

  lemma TailsPermute<T>(s: seq<T>, t: seq<T>)
    requires multiset(s) == multiset(t) && s != [] && t != [] && s[0] == t[0]
    ensures multiset(s[1..]) == multiset(t[1..])
  {
    MultisetTail(s);
    MultisetTail(t);
  }

  lemma Rejoin<T>(s: seq<T>, t: seq<T>)
    requires s != [] && t != [] && s[0] == t[0] && s[1..] == t[1..]
    ensures s == t
  {
    assert s == [s[0]] + s[1..] && t == [t[0]] + t[1..];
  }

  /** Two ordered permutations without ties between different elements are the same list. */
  lemma {:induction false} OrderedPermutationIsUnique<T(!new)>(s: seq<T>, t: seq<T>, le: (T, T) -> bool)
    requires Preorder(le) && Ordered(s, le) && Ordered(t, le) && multiset(s) == multiset(t) && NoTies(s, le)
    ensures s == t
  {
    SameLength(s, t);
    if s != [] {
      SameFirst(s, t, le);
      assert s[0] == t[0] by { assert s[0] in s && t[0] in s; }
      TailKeepsOrder(s, le);
      TailKeepsOrder(t, le);
      TailsPermute(s, t);
      OrderedPermutationIsUnique(s[1..], t[1..], le);
      Rejoin(s, t);
    }
  }

  // ── First match, sums, concatenation ───────────────────────────────────────

  /** The least index whose element satisfies `p`, or |s|: `next(i for i, x in enumerate(s) if p(x))`. */
  function FirstIndex<T>(s: seq<T>, p: T -> bool): (i: nat)
    ensures i <= |s|
    ensures i < |s| ==> p(s[i])
    ensures forall j :: 0 <= j < i ==> !p(s[j])
  {
    if s == [] || p(s[0]) then 0 else
      var i := FirstIndex(s[1..], p);
      assert forall j :: 1 <= j < i + 1 ==> s[j] == s[1..][j - 1];
      i + 1
  }

  /** When the matching elements lie between matching elements only, they form one slice that
      starts at the first match. */
  lemma ConvexFilter<T>(s: seq<T>, p: T -> bool)
    requires forall i, j, k :: 0 <= i <= j <= k < |s| && p(s[i]) && p(s[k]) ==> p(s[j])
    ensures var lo, n := FirstIndex(s, p), |Filter(s, p)|;
            && lo + n <= |s|
            && Filter(s, p) == s[lo..lo + n]
            && forall i :: 0 <= i < |s| ==> (p(s[i]) <==> lo <= i < lo + n)
  {
    var lo := FirstIndex(s, p);
    var hi := lo;
    while hi < |s| && p(s[hi])
      invariant lo <= hi <= |s|
      invariant forall i :: lo <= i < hi ==> p(s[i])
    {
      hi := hi + 1;
    }
    FilterSlice(s, p, lo, hi);
  }

  function Sum(s: seq<real>): (r: real) {
    if s == [] then 0.0 else Sum(s[..|s| - 1]) + s[|s| - 1]
  }

  function Total(s: seq<nat>): (r: nat) {
    if s == [] then 0 else Total(s[..|s| - 1]) + s[|s| - 1]
  }

  lemma {:induction false} SumNonNegative(s: seq<real>)
    requires forall i :: 0 <= i < |s| ==> s[i] >= 0.0
    ensures Sum(s) >= 0.0
  {
    if s != [] {
      SumNonNegative(s[..|s| - 1]);
    }
  }

  /** Prefix sums of non-negative terms never decrease. */
  lemma {:induction false} SumMonotone(s: seq<real>, i: nat, j: nat)
    requires i <= j <= |s|
    requires forall k :: 0 <= k < |s| ==> s[k] >= 0.0
    ensures Sum(s[..i]) <= Sum(s[..j])
    decreases j
  {
    if i < j {
      SumMonotone(s, i, j - 1);
      assert s[..j][..j - 1] == s[..j - 1];
    }
  }

  function Flatten<T>(s: seq<seq<T>>): (r: seq<T>) {
    if s == [] then [] else s[0] + Flatten(s[1..])
  }

  lemma {:induction false} FlattenConcat<T>(s: seq<seq<T>>, t: seq<seq<T>>)
    ensures Flatten(s + t) == Flatten(s) + Flatten(t)
  {
    if s == [] {
      assert s + t == t;
    } else {
      FlattenConcat(s[1..], t);
      assert (s + t)[1..] == s[1..] + t && (s + t)[0] == s[0];
      assert s[0] + (Flatten(s[1..]) + Flatten(t)) == (s[0] + Flatten(s[1..])) + Flatten(t);
    }
  }

  /** Cutting a list sorted by class into its classes and joining the pieces gives it back. */
  lemma {:induction false} PiecesBelow<T>(s: seq<T>, cls: T -> nat, pieces: seq<seq<T>>, n: nat)
    requires forall i, j :: 0 <= i < j < |s| ==> cls(s[i]) <= cls(s[j])
    requires n <= |pieces| && forall j :: 0 <= j < n ==> pieces[j] == Filter(s, InClass(cls, j))
    ensures Flatten(pieces[..n]) == Filter(s, BelowClass(cls, n))
  {
    if n == 0 {
      FilterNone(s, BelowClass(cls, 0));
    } else {
      PiecesBelow(s, cls, pieces, n - 1);
      ClassSuffix(s, cls, n - 1);
      FlattenSnoc(pieces, n - 1);
    }
  }

  lemma FlattenSnoc<T>(pieces: seq<seq<T>>, n: nat)
    requires n < |pieces|
    ensures Flatten(pieces[..n + 1]) == Flatten(pieces[..n]) + pieces[n]
  {
    assert pieces[..n + 1] == pieces[..n] + [pieces[n]];
    FlattenConcat(pieces[..n], [pieces[n]]);
    assert [pieces[n]][1..] == [];
    assert Flatten([pieces[n]]) == pieces[n] + Flatten<T>([]);
  }

  lemma {:induction false} FlattenLength<T>(pieces: seq<seq<T>>, counts: seq<nat>, n: nat)
    requires n <= |pieces| == |counts| && forall j :: 0 <= j < n ==> counts[j] == |pieces[j]|
    ensures |Flatten(pieces[..n])| == Total(counts[..n])
  {
    if n > 0 {
      FlattenLength(pieces, counts, n - 1);
      FlattenSnoc(pieces, n - 1);
      assert counts[..n][..n - 1] == counts[..n - 1];
    }
  }

  lemma FlattenCounts<T>(pieces: seq<seq<T>>, counts: seq<nat>)
    requires |pieces| == |counts| && forall j :: 0 <= j < |pieces| ==> counts[j] == |pieces[j]|
    ensures |Flatten(pieces)| == Total(counts)
  {
    FlattenLength(pieces, counts, |pieces|);
    assert pieces[..|pieces|] == pieces && counts[..|pieces|] == counts;
  }
}
