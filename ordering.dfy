/**
 * Sorting a sequence into its distinct values under a strict total order:
 * what pandas' `groupby` does to its keys and what `sorted(x.unique())` does
 * to a group's values.
 */
module Ordering {

  /** `lt` is irreflexive, transitive and relates any two distinct values. */
  ghost predicate IsStrictTotalOrder<T(!new)>(lt: (T, T) -> bool) {
    && (forall x :: !lt(x, x))
    && (forall x, y, z :: lt(x, y) && lt(y, z) ==> lt(x, z))
    && (forall x, y :: x != y ==> lt(x, y) || lt(y, x))
  }

  /** Every element is below every later one, so no value occurs twice. */
  ghost predicate Increasing<T>(s: seq<T>, lt: (T, T) -> bool) {
    forall i, j :: 0 <= i < j < |s| ==> lt(s[i], s[j])
  }

  /** Inserts `x` at its place in the increasing sequence `s`, unless it is already there. */
  function InsertDistinct<T(==,!new)>(x: T, s: seq<T>, lt: (T, T) -> bool): (r: seq<T>)
    requires IsStrictTotalOrder(lt) && Increasing(s, lt)
    ensures Increasing(r, lt)
    ensures forall y :: y in r <==> y == x || y in s
  {
    if s == [] then [x]
    else if x == s[0] then s
    else if lt(x, s[0]) then [x] + s
    else
      var tail := InsertDistinct(x, s[1..], lt);
      assert lt(s[0], x);
      assert forall y :: y in tail ==> lt(s[0], y) by {
        forall y | y in tail ensures lt(s[0], y) {
          if y != x {
            var k :| 0 <= k < |s[1..]| && s[1..][k] == y;
            assert s[k + 1] == y;
          }
        }
      }
      [s[0]] + tail
  }

  /** The distinct values of `xs`, in increasing order. */
  function SortedDistinct<T(==,!new)>(xs: seq<T>, lt: (T, T) -> bool): (r: seq<T>)
    requires IsStrictTotalOrder(lt)
    ensures Increasing(r, lt)
    ensures forall y :: y in r <==> y in xs
  {
    if xs == [] then []
    else
      var init := SortedDistinct(xs[..|xs| - 1], lt);
      assert forall y :: y in xs <==> y in xs[..|xs| - 1] || y == xs[|xs| - 1] by {
        assert xs == xs[..|xs| - 1] + [xs[|xs| - 1]];
      }
      InsertDistinct(xs[|xs| - 1], init, lt)
  }

  /** An increasing sequence holds no value twice. */
  lemma IncreasingIsDistinct<T(!new)>(s: seq<T>, lt: (T, T) -> bool, i: int, j: int)
    requires IsStrictTotalOrder(lt) && Increasing(s, lt)
    requires 0 <= i < |s| && 0 <= j < |s| && i != j
    ensures s[i] != s[j]
  {
    if i < j {
      assert lt(s[i], s[j]);
    } else {
      assert lt(s[j], s[i]);
    }
  }

  /** The numeric order on integers (pandas' order of integer group keys). */
  function IntLess(a: int, b: int): bool { a < b }

  lemma IntLessIsStrictTotalOrder()
    ensures IsStrictTotalOrder(IntLess)
  {
  }
}
