/** Python's stable `sorted` / `list.sort`, for an ordering given as a "less or equal" test,
    and Python's ordering of strings. */
module Sorting {
  ghost predicate Total<T(!new)>(le: (T, T) -> bool) {
    forall a, b :: le(a, b) || le(b, a)
  }

  ghost predicate Transitive<T(!new)>(le: (T, T) -> bool) {
    forall a, b, c :: le(a, b) && le(b, c) ==> le(a, c)
  }

  /** Every element is `le` every later one. */
  predicate SortedBy<T>(xs: seq<T>, le: (T, T) -> bool) {
    forall i, j :: 0 <= i < j < |xs| ==> le(xs[i], xs[j])
  }

  /** Put `x` before the first element it is `le`, so that it stays ahead of the equal
      elements that came after it. */
  function Insert<T>(x: T, ys: seq<T>, le: (T, T) -> bool): (r: seq<T>)
    ensures multiset(r) == multiset(ys) + multiset{x}
  {
    if ys == [] then [x]
    else if le(x, ys[0]) then [x] + ys
    else
      var rest := Insert(x, ys[1..], le);
      assert ys == [ys[0]] + ys[1..];
      [ys[0]] + rest
  }

  /** A stable insertion sort: a permutation of its input. */
  function SortBy<T>(xs: seq<T>, le: (T, T) -> bool): (r: seq<T>)
    ensures multiset(r) == multiset(xs)
  {
    if xs == [] then []
    else
      var rest := SortBy(xs[1..], le);
      assert xs == [xs[0]] + xs[1..];
      Insert(xs[0], rest, le)
  }

  lemma {:induction false} InsertSorted<T(!new)>(x: T, ys: seq<T>, le: (T, T) -> bool)
    requires Total(le) && Transitive(le) && SortedBy(ys, le)
    ensures SortedBy(Insert(x, ys, le), le)
  {
    if ys != [] && !le(x, ys[0]) {
      var rest := Insert(x, ys[1..], le);
      InsertSorted(x, ys[1..], le);
      assert le(ys[0], x);
      forall j | 0 <= j < |rest| ensures le(ys[0], rest[j]) {
        assert rest[j] in multiset(ys[1..]) + multiset{x};
        if rest[j] != x {
          assert rest[j] in ys[1..];
          var k :| 0 <= k < |ys[1..]| && ys[1..][k] == rest[j];
          assert ys[k + 1] == rest[j];
        }
      }
      var r := Insert(x, ys, le);
      assert r == [ys[0]] + rest;
      forall i, j | 0 <= i < j < |r| ensures le(r[i], r[j]) {
        if i > 0 {
          assert r[i] == rest[i - 1] && r[j] == rest[j - 1];
        } else {
          assert r[j] == rest[j - 1];
        }
      }
    }
  }

  /** For a total, transitive `le`, `SortBy` returns its input in order. */
  lemma {:induction false} SortBySorted<T(!new)>(xs: seq<T>, le: (T, T) -> bool)
    requires Total(le) && Transitive(le)
    ensures SortedBy(SortBy(xs, le), le)
  {
    if xs != [] {
      SortBySorted(xs[1..], le);
      InsertSorted(xs[0], SortBy(xs[1..], le), le);
    }
  }

  /** The elements of `xs` that `le` ranks equal to `e`, in their order in `xs`. */
  function Equivalents<T>(xs: seq<T>, le: (T, T) -> bool, e: T): seq<T>
    decreases |xs|
  {
    if xs == [] then []
    else (if le(xs[0], e) && le(e, xs[0]) then [xs[0]] else []) + Equivalents(xs[1..], le, e)
  }

  /** Equivalents of a sequence with a known first element. */
  lemma EquivalentsCons<T>(y: T, rest: seq<T>, le: (T, T) -> bool, e: T)
    ensures Equivalents([y] + rest, le, e)
         == (if le(y, e) && le(e, y) then [y] else []) + Equivalents(rest, le, e)
  {
    assert ([y] + rest)[1..] == rest;
  }

  /** Inserting `x` puts it ahead of every element ranked equal to it: the elements passed
      over are ranked strictly below it. */
  lemma {:induction false} InsertEquivalents<T(!new)>(x: T, ys: seq<T>, le: (T, T) -> bool, e: T)
    requires Transitive(le)
    ensures Equivalents(Insert(x, ys, le), le, e)
         == (if le(x, e) && le(e, x) then [x] else []) + Equivalents(ys, le, e)
  {
    if ys == [] || le(x, ys[0]) {
      InsertInFront(x, ys, le, e);
    } else {
      InsertEquivalents(x, ys[1..], le, e);
      NotBothRanked(x, ys[0], le, e);
      InsertPassing(x, ys, le, e);
    }
  }

  /** `x` lands in front of `ys`. */
  lemma InsertInFront<T>(x: T, ys: seq<T>, le: (T, T) -> bool, e: T)
    requires ys == [] || le(x, ys[0])
    ensures Equivalents(Insert(x, ys, le), le, e)
         == (if le(x, e) && le(e, x) then [x] else []) + Equivalents(ys, le, e)
  {
    assert Insert(x, ys, le) == [x] + ys;
    EquivalentsCons(x, ys, le, e);
  }

  /** `x` passes over `ys[0]`, and at most one of the two is ranked equal to `e`. */
  lemma InsertPassing<T>(x: T, ys: seq<T>, le: (T, T) -> bool, e: T)
    requires ys != [] && !le(x, ys[0])
    requires !(le(x, e) && le(e, x) && le(ys[0], e) && le(e, ys[0]))
    requires Equivalents(Insert(x, ys[1..], le), le, e)
          == (if le(x, e) && le(e, x) then [x] else []) + Equivalents(ys[1..], le, e)
    ensures Equivalents(Insert(x, ys, le), le, e)
         == (if le(x, e) && le(e, x) then [x] else []) + Equivalents(ys, le, e)
  {
    assert Insert(x, ys, le) == [ys[0]] + Insert(x, ys[1..], le);
    assert ys == [ys[0]] + ys[1..];
    EquivalentsPast(ys[0], Insert(x, ys[1..], le), ys[1..], le, e,
                    if le(x, e) && le(e, x) then [x] else []);
  }

  /** Two elements ranked equal to `e` are ranked equal to each other, so `x`, which is not
      `le` `y`, cannot be ranked equal to `e` together with `y`. */
  lemma NotBothRanked<T(!new)>(x: T, y: T, le: (T, T) -> bool, e: T)
    requires Transitive(le) && !le(x, y)
    ensures !(le(x, e) && le(e, x) && le(y, e) && le(e, y))
  {
  }

  /** When `hx` and `y` are not both ranked equal to `e`, putting `y` first commutes with
      putting `hx` first. */
  lemma EquivalentsPast<T>(y: T, rest: seq<T>, ys: seq<T>, le: (T, T) -> bool, e: T, hx: seq<T>)
    requires hx == [] || !(le(y, e) && le(e, y))
    requires Equivalents(rest, le, e) == hx + Equivalents(ys, le, e)
    ensures Equivalents([y] + rest, le, e) == hx + Equivalents([y] + ys, le, e)
  {
    EquivalentsCons(y, rest, le, e);
    EquivalentsCons(y, ys, le, e);
    SwapEmpty(if le(y, e) && le(e, y) then [y] else [], hx, Equivalents(ys, le, e));
  }

  lemma SwapEmpty<T>(a: seq<T>, b: seq<T>, c: seq<T>)
    requires a == [] || b == []
    ensures a + (b + c) == b + (a + c)
  {
    if a == [] {
      assert a + (b + c) == b + c;
    } else {
      assert b + (a + c) == a + c;
    }
  }

  /** `SortBy` is stable: the elements ranked equal to any `e` come out in their input order. */
  lemma {:induction false} SortByStable<T(!new)>(xs: seq<T>, le: (T, T) -> bool, e: T)
    requires Transitive(le)
    ensures Equivalents(SortBy(xs, le), le, e) == Equivalents(xs, le, e)
  {
    if xs != [] {
      SortByStable(xs[1..], le, e);
      InsertEquivalents(xs[0], SortBy(xs[1..], le), le, e);
    }
  }

  /** The keys strictly increase along `xs`. */
  predicate StrictlyIncreasing<T>(xs: seq<T>, key: T -> int) {
    forall i, j :: 0 <= i < j < |xs| ==> key(xs[i]) < key(xs[j])
  }

  /** The keys never decrease along `xs`. */
  predicate NonDecreasing<T>(xs: seq<T>, key: T -> int) {
    forall i, j :: 0 <= i < j < |xs| ==> key(xs[i]) <= key(xs[j])
  }

  /** There is only one way to order a collection whose keys are all different: a sequence
      sorted by key and one whose keys strictly increase are equal once they hold the same
      elements. */
  lemma {:induction false} SortedUnique<T>(a: seq<T>, b: seq<T>, key: T -> int)
    requires multiset(a) == multiset(b)
    requires NonDecreasing(a, key)
    requires StrictlyIncreasing(b, key)
    ensures a == b
    decreases |a|
  {
    assert |a| == |multiset(a)| == |b|;
    if a != [] {
      SameFirst(a, b, key);
      MultisetTail(a);
      MultisetTail(b);
      OrderedTails(a, b, key);
      SortedUnique(a[1..], b[1..], key);
      SameHeadAndTail(a, b);
    }
  }

  lemma SameHeadAndTail<T>(a: seq<T>, b: seq<T>)
    requires a != [] && b != [] && a[0] == b[0] && a[1..] == b[1..]
    ensures a == b
  {
    assert a == [a[0]] + a[1..];
    assert b == [b[0]] + b[1..];
  }

  lemma OrderedTails<T>(a: seq<T>, b: seq<T>, key: T -> int)
    requires a != [] && b != [] && NonDecreasing(a, key) && StrictlyIncreasing(b, key)
    ensures NonDecreasing(a[1..], key) && StrictlyIncreasing(b[1..], key)
  {
    forall i, j | 0 <= i < j < |a[1..]| ensures key(a[1..][i]) <= key(a[1..][j]) {
      assert a[1..][i] == a[i + 1] && a[1..][j] == a[j + 1];
    }
    forall i, j | 0 <= i < j < |b[1..]| ensures key(b[1..][i]) < key(b[1..][j]) {
      assert b[1..][i] == b[i + 1] && b[1..][j] == b[j + 1];
    }
  }

  /** Both start with the element of least key. */
  lemma SameFirst<T>(a: seq<T>, b: seq<T>, key: T -> int)
    requires a != [] && b != [] && multiset(a) == multiset(b)
    requires NonDecreasing(a, key) && StrictlyIncreasing(b, key)
    ensures a[0] == b[0]
  {
    assert a[0] in multiset(b);
    var j :| 0 <= j < |b| && b[j] == a[0];
    assert b[0] in multiset(a);
    var i :| 0 <= i < |a| && a[i] == b[0];
    assert key(a[0]) <= key(a[i]);
    assert key(b[0]) <= key(b[j]);
    assert j == 0;
  }

  lemma MultisetTail<T>(a: seq<T>)
    requires a != []
    ensures multiset(a[1..]) == multiset(a) - multiset{a[0]}
  {
    assert a == [a[0]] + a[1..];
  }

  // ---------------------------------------------------------------------------------------
  // Strings

  /** Python's `a <= b` on strings: the first differing character decides, and a prefix
      comes first. */
  predicate StrLe(a: string, b: string) {
    if a == [] then true
    else if b == [] then false
    else if a[0] != b[0] then a[0] < b[0]
    else StrLe(a[1..], b[1..])
  }

  lemma {:induction false} StrLeTotalAt(a: string, b: string)
    ensures StrLe(a, b) || StrLe(b, a)
  {
    if a != [] && b != [] && a[0] == b[0] {
      StrLeTotalAt(a[1..], b[1..]);
    }
  }

  lemma {:induction false} StrLeTransitiveAt(a: string, b: string, c: string)
    requires StrLe(a, b) && StrLe(b, c)
    ensures StrLe(a, c)
  {
    if a != [] && b != [] && c != [] && a[0] == b[0] && b[0] == c[0] {
      StrLeTransitiveAt(a[1..], b[1..], c[1..]);
    }
  }

  lemma {:induction false} StrLeAntisymmetric(a: string, b: string)
    requires StrLe(a, b) && StrLe(b, a)
    ensures a == b
  {
    if a != [] && b != [] {
      StrLeAntisymmetric(a[1..], b[1..]);
      assert a == [a[0]] + a[1..] && b == [b[0]] + b[1..];
    }
  }

  /** Python's ascending order on strings. */
  function Ascending(): (string, string) -> bool {
    (a: string, b: string) => StrLe(a, b)
  }

  /** Python's `reverse=True` order on strings. */
  function Descending(): (string, string) -> bool {
    (a: string, b: string) => StrLe(b, a)
  }

  /** Both string orders are total and transitive, so sorting with them sorts. */
  lemma StringOrders()
    ensures Total(Ascending()) && Transitive(Ascending())
    ensures Total(Descending()) && Transitive(Descending())
  {
    forall a, b ensures StrLe(a, b) || StrLe(b, a) {
      StrLeTotalAt(a, b);
    }
    forall a, b, c | StrLe(a, b) && StrLe(b, c) ensures StrLe(a, c) {
      StrLeTransitiveAt(a, b, c);
    }
    forall a, b, c | StrLe(b, a) && StrLe(c, b) ensures StrLe(c, a) {
      StrLeTransitiveAt(c, b, a);
    }
  }
}
