/**
 * `sorted(set(xs))`: the distinct members of a list in ascending order, for
 * any strict total order. The filter parser uses it on integers and on
 * strings (which compare by code point).
 */
module Sorting {
  /** `less` is irreflexive, transitive and total. */
  ghost predicate StrictTotal<T(!new)>(less: (T, T) -> bool) {
    && (forall a :: !less(a, a))
    && (forall a, b, c :: less(a, b) && less(b, c) ==> less(a, c))
    && (forall a, b :: a != b ==> less(a, b) || less(b, a))
  }

  /** Strictly ascending, hence free of duplicates. */
  ghost predicate Ascending<T>(s: seq<T>, less: (T, T) -> bool) {
    forall i, j :: 0 <= i < j < |s| ==> less(s[i], s[j])
  }

  /** `x` put in its place in the ascending list `s`, unless it is already there. */
  function Insert<T(==)>(x: T, s: seq<T>, less: (T, T) -> bool): seq<T> {
    if s == [] then [x]
    else if x == s[0] then s
    else if less(x, s[0]) then [x] + s
    else [s[0]] + Insert(x, s[1..], less)
  }

  /** The distinct members of `xs`, ascending. */
  function SortedSet<T(==)>(xs: seq<T>, less: (T, T) -> bool): seq<T> {
    if xs == [] then [] else Insert(xs[|xs| - 1], SortedSet(xs[..|xs| - 1], less), less)
  }

  lemma {:induction false} InsertFacts<T(!new)>(x: T, s: seq<T>, less: (T, T) -> bool)
    requires StrictTotal(less) && Ascending(s, less)
    ensures Ascending(Insert(x, s, less), less)
    ensures forall y :: y in Insert(x, s, less) <==> y == x || y in s
  {
    if s != [] && x != s[0] && !less(x, s[0]) {
      InsertFacts(x, s[1..], less);
      var r := Insert(x, s[1..], less);
      assert less(s[0], x);
      forall y | y in r ensures less(s[0], y) {
        if y != x {
          var j :| 0 <= j < |s[1..]| && s[1..][j] == y;
          assert s[j + 1] == y;
        }
      }
      forall y ensures y in s <==> y == s[0] || y in s[1..] {
        assert s == [s[0]] + s[1..];
      }
      assert Insert(x, s, less) == [s[0]] + r;
      forall i, j | 0 <= i < j < |[s[0]] + r| ensures less(([s[0]] + r)[i], ([s[0]] + r)[j]) {
        if i > 0 {
          assert ([s[0]] + r)[i] == r[i - 1] && ([s[0]] + r)[j] == r[j - 1];
        } else {
          assert ([s[0]] + r)[j] == r[j - 1];
          assert r[j - 1] in r;
        }
      }
    } else if s != [] && x != s[0] {
      forall i, j | 0 <= i < j < |[x] + s| ensures less(([x] + s)[i], ([x] + s)[j]) {
        if i > 0 {
          assert ([x] + s)[i] == s[i - 1];
        } else if j > 1 {
          assert less(s[0], s[j - 1]);
        }
      }
    }
  }

  /** `SortedSet(xs)` is ascending and has exactly the members of `xs`. */
  lemma {:induction false} SortedSetFacts<T(!new)>(xs: seq<T>, less: (T, T) -> bool)
    requires StrictTotal(less)
    ensures Ascending(SortedSet(xs, less), less)
    ensures forall y :: y in SortedSet(xs, less) <==> y in xs
  {
    if xs != [] {
      var init := xs[..|xs| - 1];
      SortedSetFacts(init, less);
      InsertFacts(xs[|xs| - 1], SortedSet(init, less), less);
      assert xs == init + [xs[|xs| - 1]];
    }
  }

  /** Every member of an ascending list is its head or comes after it. */
  lemma HeadLeast<T>(s: seq<T>, y: T, less: (T, T) -> bool)
    requires Ascending(s, less) && y in s
    ensures y == s[0] || less(s[0], y)
  {
    var i :| 0 <= i < |s| && s[i] == y;
    if i > 0 {
      assert less(s[0], s[i]);
    }
  }

  /** Two ascending lists with the same members are the same list. */
  lemma {:induction false} AscendingUnique<T(!new)>(a: seq<T>, b: seq<T>, less: (T, T) -> bool)
    requires StrictTotal(less) && Ascending(a, less) && Ascending(b, less)
    requires forall y :: y in a <==> y in b
    ensures a == b
  {
    if a != [] {
      assert a[0] in b;
    }
    if b != [] {
      assert b[0] in a;
    }
    if a != [] {
      HeadLeast(a, b[0], less);
      HeadLeast(b, a[0], less);
      assert a[0] == b[0];
      forall y ensures y in a[1..] <==> y in b[1..] {
        assert a == [a[0]] + a[1..] && b == [b[0]] + b[1..];
        if y in a[1..] {
          var i :| 0 <= i < |a[1..]| && a[1..][i] == y;
          assert less(a[0], a[i + 1]);
          assert y in b && y != b[0];
        }
        if y in b[1..] {
          var j :| 0 <= j < |b[1..]| && b[1..][j] == y;
          assert less(b[0], b[j + 1]);
          assert y in a && y != a[0];
        }
      }
      AscendingUnique(a[1..], b[1..], less);
      assert a == [a[0]] + a[1..] && b == [b[0]] + b[1..];
    }
  }

  /** An ascending list is its own `SortedSet`. */
  lemma SortedSetOfAscending<T(!new)>(xs: seq<T>, less: (T, T) -> bool)
    requires StrictTotal(less) && Ascending(xs, less)
    ensures SortedSet(xs, less) == xs
  {
    SortedSetFacts(xs, less);
    AscendingUnique(SortedSet(xs, less), xs, less);
  }
}
