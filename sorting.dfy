/**
 * Stable insertion sort with respect to a comparison function, the order
 * `Collections.sort` (a stable merge sort) leaves a list in.  Every sort in
 * the adapter uses this with a comparator built from record fields.
 *
 * A comparator returns a negative number, zero or a positive number; the
 * lemmas need it to be a total preorder: swapping the arguments negates
 * the result, and "not after" is transitive.
 */
module Sorting {

  ghost predicate Antisymmetric<T(!new)>(cmp: (T, T) -> int)
  {
    forall a, b :: cmp(b, a) == -cmp(a, b)
  }

  ghost predicate Transitive<T(!new)>(cmp: (T, T) -> int)
  {
    forall a, b, c :: cmp(a, b) <= 0 && cmp(b, c) <= 0 ==> cmp(a, c) <= 0
  }

  /** `x` inserted into `s`, after every element that does not sort after it. */
  function Insert<T>(cmp: (T, T) -> int, s: seq<T>, x: T): (r: seq<T>)
    ensures |r| == |s| + 1
    decreases |s|
  {
    if |s| == 0 then [x]
    else
      var n := |s| - 1;
      if cmp(s[n], x) > 0 then Insert(cmp, s[..n], x) + [s[n]] else s + [x]
  }

  /** Insertion adds exactly `x`. */
  lemma {:induction false} InsertPermutes<T>(cmp: (T, T) -> int, s: seq<T>, x: T)
    ensures multiset(Insert(cmp, s, x)) == multiset(s) + multiset{x}
    decreases |s|
  {
    if |s| > 0 {
      var n := |s| - 1;
      assert s == s[..n] + [s[n]];
      InsertPermutes(cmp, s[..n], x);
    }
  }

  /** The elements of `s`, each inserted in turn into the sorted result of those before it. */
  function InsertionSort<T>(cmp: (T, T) -> int, s: seq<T>): (r: seq<T>)
    ensures |r| == |s|
    decreases |s|
  {
    if |s| == 0 then [] else Insert(cmp, InsertionSort(cmp, s[..|s| - 1]), s[|s| - 1])
  }

  /** The sort is a permutation of its input. */
  lemma {:induction false} InsertionSortPermutes<T>(cmp: (T, T) -> int, s: seq<T>)
    ensures multiset(InsertionSort(cmp, s)) == multiset(s)
    decreases |s|
  {
    if |s| > 0 {
      var n := |s| - 1;
      assert s == s[..n] + [s[n]];
      InsertionSortPermutes(cmp, s[..n]);
      InsertPermutes(cmp, InsertionSort(cmp, s[..n]), s[n]);
    }
  }

  lemma InsertionSortSnoc<T>(cmp: (T, T) -> int, s: seq<T>, x: T)
    ensures InsertionSort(cmp, s + [x]) == Insert(cmp, InsertionSort(cmp, s), x)
  {
    assert (s + [x])[..|s|] == s;
  }

  predicate IsSorted<T>(cmp: (T, T) -> int, t: seq<T>)
  {
    forall i, j :: 0 <= i < j < |t| ==> cmp(t[i], t[j]) <= 0
  }

  lemma SortedSnoc<T>(cmp: (T, T) -> int, t: seq<T>, y: T)
    requires IsSorted(cmp, t)
    requires forall i :: 0 <= i < |t| ==> cmp(t[i], y) <= 0
    ensures IsSorted(cmp, t + [y])
  {
    var u := t + [y];
    forall i, j | 0 <= i < j < |u| ensures cmp(u[i], u[j]) <= 0 {
      assert u[i] == t[i];
      if j < |t| {
        assert u[j] == t[j];
      }
    }
  }

  /** Every element before the place of `x` does not sort after it. */
  lemma SortedAppend<T(!new)>(cmp: (T, T) -> int, s: seq<T>, x: T)
    requires Transitive(cmp)
    requires IsSorted(cmp, s) && |s| > 0 && cmp(s[|s| - 1], x) <= 0
    ensures IsSorted(cmp, s + [x])
  {
    forall i | 0 <= i < |s| ensures cmp(s[i], x) <= 0 {
      if i < |s| - 1 {
        assert cmp(s[i], s[|s| - 1]) <= 0;
      }
    }
    SortedSnoc(cmp, s, x);
  }

  lemma SortedPrefix<T>(cmp: (T, T) -> int, s: seq<T>, n: nat)
    requires IsSorted(cmp, s) && n <= |s|
    ensures IsSorted(cmp, s[..n])
  {
    forall i, j | 0 <= i < j < n ensures cmp(s[..n][i], s[..n][j]) <= 0 {
      assert s[..n][i] == s[i] && s[..n][j] == s[j];
    }
  }

  /** The elements of the insertion are those of `s` and `x`. */
  lemma InsertMember<T>(cmp: (T, T) -> int, s: seq<T>, x: T, y: T)
    requires y in Insert(cmp, s, x)
    ensures y == x || y in s
  {
    InsertPermutes(cmp, s, x);
    assert y in multiset(Insert(cmp, s, x));
  }

  lemma {:induction false} InsertSorted<T(!new)>(cmp: (T, T) -> int, s: seq<T>, x: T)
    requires Antisymmetric(cmp) && Transitive(cmp)
    requires IsSorted(cmp, s)
    ensures IsSorted(cmp, Insert(cmp, s, x))
    decreases |s|
  {
    if |s| > 0 {
      var n := |s| - 1;
      var last := s[n];
      if cmp(last, x) > 0 {
        var init := s[..n];
        SortedPrefix(cmp, s, n);
        InsertSorted(cmp, init, x);
        var t := Insert(cmp, init, x);
        forall i | 0 <= i < |t| ensures cmp(t[i], last) <= 0 {
          InsertMember(cmp, init, x, t[i]);
          if t[i] != x {
            var k :| 0 <= k < |init| && init[k] == t[i];
            assert s[k] == t[i];
          }
        }
        SortedSnoc(cmp, t, last);
      } else {
        SortedAppend(cmp, s, x);
      }
    }
  }

  /** The sorted list is in order. */
  lemma {:induction false} InsertionSortIsSorted<T(!new)>(cmp: (T, T) -> int, s: seq<T>)
    requires Antisymmetric(cmp) && Transitive(cmp)
    ensures IsSorted(cmp, InsertionSort(cmp, s))
    decreases |s|
  {
    if |s| > 0 {
      var n := |s| - 1;
      InsertionSortIsSorted(cmp, s[..n]);
      InsertSorted(cmp, InsertionSort(cmp, s[..n]), s[n]);
    }
  }

  /** The elements of `s` that compare equal to `e`, in the order of `s`. */
  function Ties<T>(cmp: (T, T) -> int, s: seq<T>, e: T): (r: seq<T>)
    ensures |r| <= |s|
    decreases |s|
  {
    if |s| == 0 then []
    else
      var n := |s| - 1;
      Ties(cmp, s[..n], e) + (if cmp(s[n], e) == 0 then [s[n]] else [])
  }

  lemma {:induction false} TiesAppend<T>(cmp: (T, T) -> int, a: seq<T>, b: seq<T>, e: T)
    ensures Ties(cmp, a + b, e) == Ties(cmp, a, e) + Ties(cmp, b, e)
    decreases |b|
  {
    if |b| == 0 {
      assert a + b == a;
    } else {
      var n := |b| - 1;
      var ab := a + b;
      assert ab[..|ab| - 1] == a + b[..n];
      assert ab[|ab| - 1] == b[n];
      TiesAppend(cmp, a, b[..n], e);
    }
  }

  lemma TiesPair<T>(cmp: (T, T) -> int, u: T, v: T, e: T)
    ensures Ties(cmp, [u, v], e) == Ties(cmp, [u], e) + Ties(cmp, [v], e)
  {
    assert [u, v][..1] == [u];
    assert [u][..0] == [];
    assert [v][..0] == [];
  }

  /** Appending the same element keeps equal tie lists equal. */
  lemma TiesSnoc<T>(cmp: (T, T) -> int, a: seq<T>, b: seq<T>, y: T, e: T)
    requires Ties(cmp, a, e) == Ties(cmp, b, e)
    ensures Ties(cmp, a + [y], e) == Ties(cmp, b + [y], e)
  {
    TiesAppend(cmp, a, [y], e);
    TiesAppend(cmp, b, [y], e);
  }

  /** Two adjacent elements that do not both tie with `e` can change places. */
  lemma TiesSwap<T>(cmp: (T, T) -> int, init: seq<T>, u: T, v: T, e: T)
    requires !(cmp(u, e) == 0 && cmp(v, e) == 0)
    ensures Ties(cmp, init + [u] + [v], e) == Ties(cmp, init + [v] + [u], e)
  {
    var tu := Ties(cmp, [u], e);
    var tv := Ties(cmp, [v], e);
    TiesPair(cmp, u, v, e);
    TiesPair(cmp, v, u, e);
    assert tu == [] || tv == [] by {
      assert [u][..0] == [] && [v][..0] == [];
    }
    assert tu + tv == tv + tu;
    assert init + [u] + [v] == init + [u, v];
    assert init + [v] + [u] == init + [v, u];
    TiesAppend(cmp, init, [u, v], e);
    TiesAppend(cmp, init, [v, u], e);
  }

  /** An element that sorts strictly after another cannot tie with what that one ties with. */
  lemma NotBothTie<T(!new)>(cmp: (T, T) -> int, u: T, v: T, e: T)
    requires Antisymmetric(cmp) && Transitive(cmp)
    requires cmp(u, v) > 0
    ensures !(cmp(u, e) == 0 && cmp(v, e) == 0)
  {
    assert cmp(e, v) == -cmp(v, e);
  }

  lemma InsertStableStep<T>(cmp: (T, T) -> int, init: seq<T>, last: T, x: T, e: T)
    requires cmp(last, x) > 0
    requires Ties(cmp, Insert(cmp, init, x), e) == Ties(cmp, init + [x], e)
    requires !(cmp(last, e) == 0 && cmp(x, e) == 0)
    ensures Ties(cmp, Insert(cmp, init + [last], x), e) == Ties(cmp, init + [last] + [x], e)
  {
    var s := init + [last];
    assert s[..|init|] == init;
    assert Insert(cmp, s, x) == Insert(cmp, init, x) + [last];
    TiesSnoc(cmp, Insert(cmp, init, x), init + [x], last, e);
    TiesSwap(cmp, init, x, last, e);
  }

  lemma {:induction false} InsertStable<T(!new)>(cmp: (T, T) -> int, s: seq<T>, x: T, e: T)
    requires Antisymmetric(cmp) && Transitive(cmp)
    ensures Ties(cmp, Insert(cmp, s, x), e) == Ties(cmp, s + [x], e)
    decreases |s|
  {
    if |s| > 0 && cmp(s[|s| - 1], x) > 0 {
      var n := |s| - 1;
      assert s == s[..n] + [s[n]];
      InsertStable(cmp, s[..n], x, e);
      NotBothTie(cmp, s[n], x, e);
      InsertStableStep(cmp, s[..n], s[n], x, e);
    }
  }

  /** The sort is stable: the elements tying with any given one keep their relative order. */
  lemma {:induction false} InsertionSortIsStable<T(!new)>(cmp: (T, T) -> int, s: seq<T>, e: T)
    requires Antisymmetric(cmp) && Transitive(cmp)
    ensures Ties(cmp, InsertionSort(cmp, s), e) == Ties(cmp, s, e)
    decreases |s|
  {
    if |s| > 0 {
      var n := |s| - 1;
      assert s[..n] + [s[n]] == s;
      var sorted := InsertionSort(cmp, s[..n]);
      InsertionSortIsStable(cmp, s[..n], e);
      InsertStable(cmp, sorted, s[n], e);
      TiesSnoc(cmp, sorted, s[..n], s[n], e);
    }
  }

  /**
   * Where `Insert` places `x` among the first `j` elements of `s`: after the
   * last of them, scanning from the right, that does not sort after it.
   */
  function InsertionPoint<T>(cmp: (T, T) -> int, s: seq<T>, j: nat, x: T): (k: nat)
    requires j <= |s|
    ensures k <= j
    decreases j
  {
    if j == 0 then 0 else if cmp(s[j - 1], x) > 0 then InsertionPoint(cmp, s, j - 1, x) else j
  }

  /** The insertion point depends only on the elements it scans. */
  lemma {:induction false} InsertionPointPrefix<T>(cmp: (T, T) -> int, s: seq<T>, j: nat, m: nat, x: T)
    requires j <= m <= |s|
    ensures InsertionPoint(cmp, s, j, x) == InsertionPoint(cmp, s[..m], j, x)
    decreases j
  {
    if j > 0 {
      assert s[..m][j - 1] == s[j - 1];
      InsertionPointPrefix(cmp, s, j - 1, m, x);
    }
  }

  /** `Insert` puts `x` at its insertion point and keeps everything else in order. */
  lemma {:induction false} InsertAtPoint<T>(cmp: (T, T) -> int, s: seq<T>, x: T)
    ensures var k := InsertionPoint(cmp, s, |s|, x);
      Insert(cmp, s, x) == s[..k] + [x] + s[k..]
    decreases |s|
  {
    if |s| > 0 {
      var n := |s| - 1;
      if cmp(s[n], x) > 0 {
        var init := s[..n];
        InsertAtPoint(cmp, init, x);
        InsertionPointPrefix(cmp, s, n, n, x);
        var k := InsertionPoint(cmp, init, n, x);
        assert init[..k] == s[..k];
        assert init[k..] + [s[n]] == s[k..];
      } else {
        assert s[..|s|] == s;
      }
    }
  }

  /**
   * The shifting loop of one insertion pass: the elements before `a[i]`
   * that sort after `x` move one place right, leaving a gap at the
   * insertion point `j`.
   */
  method ShiftGap<T>(cmp: (T, T) -> int, a: array<T>, i: nat, x: T) returns (j: nat)
    requires i < a.Length
    modifies a
    ensures j == InsertionPoint(cmp, old(a[..i]), i, x)
    ensures forall k :: 0 <= k < j ==> a[k] == old(a[k])
    ensures forall k :: j < k <= i ==> a[k] == old(a[k - 1])
    ensures forall k :: i < k < a.Length ==> a[k] == old(a[k])
  {
    ghost var prefix := a[..i];
    j := i;
    var done := false;
    while j > 0 && !done
      invariant 0 <= j <= i
      invariant forall k :: 0 <= k < j ==> a[k] == prefix[k]
      invariant forall k :: j < k <= i ==> a[k] == prefix[k - 1]
      invariant forall k :: i < k < a.Length ==> a[k] == old(a[k])
      invariant InsertionPoint(cmp, prefix, i, x) == InsertionPoint(cmp, prefix, j, x)
      invariant done ==> j > 0 && cmp(prefix[j - 1], x) <= 0
      decreases j, !done
    {
      var y := a[j - 1];
      if cmp(y, x) > 0 {
        a[j] := y;
        j := j - 1;
      } else {
        done := true;
      }
    }
  }

  /** A sequence that agrees with `prefix` around position `j` and holds `x` there. */
  lemma PlacedAt<T>(prefix: seq<T>, x: T, j: nat, placed: seq<T>)
    requires j <= |prefix| && |placed| == |prefix| + 1
    requires forall k :: 0 <= k < j ==> placed[k] == prefix[k]
    requires placed[j] == x
    requires forall k :: j < k < |placed| ==> placed[k] == prefix[k - 1]
    ensures placed == prefix[..j] + [x] + prefix[j..]
  {
    var r := prefix[..j] + [x] + prefix[j..];
    forall k | 0 <= k < |placed| ensures placed[k] == r[k] {
      if k > j {
        assert r[k] == prefix[j..][k - j - 1];
      }
    }
  }
}
