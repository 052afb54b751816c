/**
 * pandas' `left.merge(right, on=key, how="left")`: every left row, in order,
 * paired with each right row of the same key in right order, or once with
 * nothing when no right row has its key.
 */
module Merge {
  import opened Wrappers

  /** The right rows whose key is `k`, in order. */
  function Matches<R>(right: seq<R>, rkey: R -> int, k: int): (r: seq<R>)
    ensures |r| <= |right|
    ensures forall x :: x in r ==> x in right && rkey(x) == k
  {
    if right == [] then []
    else (if rkey(right[0]) == k then [right[0]] else []) + Matches(right[1..], rkey, k)
  }

  /** The left row with each of its matches, or once with nothing. */
  function Pair<L, R>(l: L, ms: seq<R>): seq<(L, Option<R>)> {
    if ms == [] then [(l, None)]
    else seq(|ms|, i requires 0 <= i < |ms| => (l, Some(ms[i])))
  }

  /** The merged rows, each as its left row and its right row (None where pandas fills NaN). */
  function LeftMerge<L, R>(left: seq<L>, right: seq<R>, lkey: L -> int, rkey: R -> int): seq<(L, Option<R>)>
  {
    if left == [] then []
    else Pair(left[0], Matches(right, rkey, lkey(left[0]))) + LeftMerge(left[1..], right, lkey, rkey)
  }

  /** No two right rows share a key, as after a `groupby(key)`. */
  ghost predicate UniqueKeys<R>(right: seq<R>, rkey: R -> int) {
    forall i, j :: 0 <= i < j < |right| ==> rkey(right[i]) != rkey(right[j])
  }

  /** The right row with key `k`, if any (the first one). */
  function Find<R>(right: seq<R>, rkey: R -> int, k: int): (r: Option<R>)
    ensures r.Some? ==> r.value in right && rkey(r.value) == k
    ensures r.None? ==> forall i :: 0 <= i < |right| ==> rkey(right[i]) != k
  {
    if right == [] then None
    else if rkey(right[0]) == k then Some(right[0])
    else Find(right[1..], rkey, k)
  }

  lemma {:induction false} MatchesUnique<R>(right: seq<R>, rkey: R -> int, k: int)
    requires UniqueKeys(right, rkey)
    ensures Matches(right, rkey, k) == if Find(right, rkey, k).Some? then [Find(right, rkey, k).value] else []
  {
    if right != [] {
      assert UniqueKeys(right[1..], rkey) by {
        forall i, j | 0 <= i < j < |right[1..]| ensures rkey(right[1..][i]) != rkey(right[1..][j]) {
          assert right[1..][i] == right[i + 1] && right[1..][j] == right[j + 1];
        }
      }
      MatchesUnique(right[1..], rkey, k);
      if rkey(right[0]) == k {
        assert forall i :: 0 <= i < |right[1..]| ==> rkey(right[1..][i]) != k by {
          forall i | 0 <= i < |right[1..]| ensures rkey(right[1..][i]) != k {
            assert right[1..][i] == right[i + 1];
          }
        }
      }
    }
  }

  /**
   * A left merge never drops a left row: every left row heads some merged
   * row, and every merged row pairs a left row with nothing or with a right
   * row of the same key.
   */
  lemma {:induction false} LeftMergeKeepsEveryRow<L, R>(left: seq<L>, right: seq<R>, lkey: L -> int, rkey: R -> int)
    ensures |LeftMerge(left, right, lkey, rkey)| >= |left|
    ensures forall l :: l in left ==> exists m :: m in LeftMerge(left, right, lkey, rkey) && m.0 == l
    ensures forall m :: m in LeftMerge(left, right, lkey, rkey) ==>
      && m.0 in left
      && (m.1.Some? ==> m.1.value in right && rkey(m.1.value) == lkey(m.0))
  {
    if left != [] {
      LeftMergeKeepsEveryRow(left[1..], right, lkey, rkey);
      var p := Pair(left[0], Matches(right, rkey, lkey(left[0])));
      var rest := LeftMerge(left[1..], right, lkey, rkey);
      assert LeftMerge(left, right, lkey, rkey) == p + rest;
      forall m | m in p
        ensures m.0 == left[0] && (m.1.Some? ==> m.1.value in right && rkey(m.1.value) == lkey(left[0]))
      {
        var i :| 0 <= i < |p| && p[i] == m;
      }
      forall l | l in left ensures exists m :: m in p + rest && m.0 == l {
        if l == left[0] {
          assert p[0] in p + rest;
        } else {
          assert l in left[1..];
        }
      }
    }
  }

  /**
   * Against a right side with unique keys, a left merge yields exactly one
   * row per left row, in left order: the left row with its match or with
   * nothing.
   */
  lemma {:induction false} LeftMergeUnique<L, R>(left: seq<L>, right: seq<R>, lkey: L -> int, rkey: R -> int)
    requires UniqueKeys(right, rkey)
    ensures |LeftMerge(left, right, lkey, rkey)| == |left|
    ensures forall i :: 0 <= i < |left| ==>
      LeftMerge(left, right, lkey, rkey)[i] == (left[i], Find(right, rkey, lkey(left[i])))
  {
    if left != [] {
      MatchesUnique(right, rkey, lkey(left[0]));
      LeftMergeUnique(left[1..], right, lkey, rkey);
      var out := LeftMerge(left, right, lkey, rkey);
      forall i | 0 <= i < |left|
        ensures out[i] == (left[i], Find(right, rkey, lkey(left[i])))
      {
        if i > 0 {
          assert left[i] == left[1..][i - 1];
        }
      }
    }
  }

  /** In a table with unique keys, the row holding key `k` is the one found. */
  lemma {:induction false} FindUnique<R>(right: seq<R>, rkey: R -> int, i: int)
    requires UniqueKeys(right, rkey) && 0 <= i < |right|
    ensures Find(right, rkey, rkey(right[i])) == Some(right[i])
  {
    if i > 0 {
      assert rkey(right[0]) != rkey(right[i]);
      assert UniqueKeys(right[1..], rkey) by {
        forall a, b | 0 <= a < b < |right[1..]| ensures rkey(right[1..][a]) != rkey(right[1..][b]) {
          assert right[1..][a] == right[a + 1] && right[1..][b] == right[b + 1];
        }
      }
      FindUnique(right[1..], rkey, i - 1);
    }
  }
}
