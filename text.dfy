/**
 * Strings as Python orders and joins them: `sorted` on `str` compares code
 * points lexicographically, and `", ".join` puts the separator between items.
 */
module Text {
  import opened Wrappers
  import opened Ordering

  /** Python's `a < b` on `str`: a proper prefix is smaller, otherwise the first differing code point decides. */
  function LexLess(a: string, b: string): bool {
    if a == [] then b != []
    else if b == [] then false
    else if a[0] != b[0] then a[0] < b[0]
    else LexLess(a[1..], b[1..])
  }

  lemma {:induction false} LexLessIrreflexive(a: string)
    ensures !LexLess(a, a)
  {
    if a != [] {
      LexLessIrreflexive(a[1..]);
    }
  }

  lemma {:induction false} LexLessTransitive(a: string, b: string, c: string)
    requires LexLess(a, b) && LexLess(b, c)
    ensures LexLess(a, c)
  {
    if a != [] && b != [] && c != [] && a[0] == b[0] && b[0] == c[0] {
      LexLessTransitive(a[1..], b[1..], c[1..]);
    }
  }

  lemma {:induction false} LexLessTotal(a: string, b: string)
    requires a != b
    ensures LexLess(a, b) || LexLess(b, a)
  {
    if a != [] && b != [] && a[0] == b[0] {
      assert a == [a[0]] + a[1..] && b == [b[0]] + b[1..];
      LexLessTotal(a[1..], b[1..]);
    }
  }

  /** Python's string order is a strict total order, so `sorted` of distinct strings is well defined. */
  lemma LexLessIsStrictTotalOrder()
    ensures IsStrictTotalOrder(LexLess)
  {
    forall a ensures !LexLess(a, a) {
      LexLessIrreflexive(a);
    }
    forall a, b, c | LexLess(a, b) && LexLess(b, c) ensures LexLess(a, c) {
      LexLessTransitive(a, b, c);
    }
    forall a, b | a != b ensures LexLess(a, b) || LexLess(b, a) {
      LexLessTotal(a, b);
    }
  }

  /** Python's `s.startswith(prefix)`. */
  predicate StartsWith(s: string, prefix: string) {
    |prefix| <= |s| && s[..|prefix|] == prefix
  }

  /** Python's `sep.join(items)`. */
  function Join(items: seq<string>, sep: string): string {
    if |items| == 0 then ""
    else if |items| == 1 then items[0]
    else items[0] + sep + Join(items[1..], sep)
  }

  /** Position of the first `", "` in `s` at or after `from`, if any. */
  function FindCommaSpace(s: string, from: nat): (r: Option<nat>)
    requires from <= |s|
    ensures r.Some? ==> from <= r.value && r.value + 1 < |s| && s[r.value] == ',' && s[r.value + 1] == ' '
    ensures r.Some? ==> forall k :: from <= k < r.value ==> s[k] != ','  || s[k + 1] != ' '
    ensures r.None? ==> forall k :: from <= k && k + 1 < |s| ==> s[k] != ',' || s[k + 1] != ' '
    decreases |s| - from
  {
    if from + 1 >= |s| then None
    else if s[from] == ',' && s[from + 1] == ' ' then Some(from)
    else FindCommaSpace(s, from + 1)
  }

  /** Python's `s.split(", ")`: the pieces between successive separators. */
  function SplitCommaSpace(s: string): (r: seq<string>)
    ensures |r| >= 1
    decreases |s|
  {
    match FindCommaSpace(s, 0)
    case None => [s]
    case Some(k) => [s[..k]] + SplitCommaSpace(s[k + 2..])
  }

  /** No item holds a comma, so every `", "` in the joined text is a separator. */
  ghost predicate CommaFree(items: seq<string>) {
    forall i, k :: 0 <= i < |items| && 0 <= k < |items[i]| ==> items[i][k] != ','
  }

  /**
   * Joining with `", "` loses nothing when the items hold no comma and there is at least one:
   * splitting the text gives the items back.
   */
  lemma {:induction false} SplitJoin(items: seq<string>)
    requires |items| >= 1 && CommaFree(items)
    ensures SplitCommaSpace(Join(items, ", ")) == items
  {
    var s := Join(items, ", ");
    if |items| == 1 {
      assert forall k :: 0 <= k < |s| ==> s[k] != ',' by {
        forall k | 0 <= k < |s| ensures s[k] != ',' {
          assert s[k] == items[0][k];
        }
      }
      assert FindCommaSpace(s, 0).None?;
    } else {
      var head := items[0];
      var rest := Join(items[1..], ", ");
      assert s == head + ", " + rest;
      assert CommaFree(items[1..]) by {
        forall i, k | 0 <= i < |items[1..]| && 0 <= k < |items[1..][i]| ensures items[1..][i][k] != ',' {
          assert items[1..][i] == items[i + 1];
        }
      }
      var f := FindCommaSpace(s, 0);
      assert s[|head|] == ',' && s[|head| + 1] == ' ';
      assert forall k :: 0 <= k < |head| ==> s[k] != ',' by {
        forall k | 0 <= k < |head| ensures s[k] != ',' {
          assert s[k] == head[k];
        }
      }
      assert f == Some(|head|);
      assert s[..|head|] == head;
      assert s[|head| + 2..] == rest;
      SplitJoin(items[1..]);
      assert items == [head] + items[1..];
    }
  }
}
