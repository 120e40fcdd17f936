/**
 * The version 1 helpers' `sortRecords`: records are ordered with a
 * `CompareToBuilder` over the requested sort fields, each ascending or
 * descending, and the list is sorted in place with a stable sort.
 *
 * The comparison of one field takes the record values lower-cased, orders a
 * missing (`null`) value before any present one, and swaps the two records
 * for a descending field.  The first field that differs decides.
 */
module Ordering {
  import opened Base
  import opened Strings
  import opened Records
  import opened Sorting

  datatype Dir = Asc | Desc

  /** Only the exact direction text `DESC` sorts descending; anything else ascends. */
  function DirOf(text: string): (d: Dir)
    ensures d == Desc <==> text == "DESC"
  {
    if text == "DESC" then Desc else Asc
  }

  /** A sort order: field names with their directions, in the order they are applied. */
  type Order = seq<(string, Dir)>

  /** The value a field contributes to the comparison: lower-cased, or `null`. */
  function SortKey(r: Record, f: string): (k: Option<string>)
    ensures k.None? <==> GetValue(r, f).None?
    ensures k.Some? ==> k.value == AsciiLower(GetValue(r, f).value)
  {
    match GetValue(r, f)
    case None => None
    case Some(v) => Some(AsciiLower(v))
  }

  /** `CompareToBuilder.append` on two keys: `null` sorts before any string. */
  function CompareKeys(a: Option<string>, b: Option<string>): (c: int)
    ensures -1 <= c <= 1
    ensures c == 0 <==> a == b
    ensures a.None? && b.Some? ==> c == -1
  {
    if a == b then 0
    else if a.None? then -1
    else if b.None? then 1
    else CompareStrings(a.value, b.value)
  }

  lemma CompareKeysAntisymmetric(a: Option<string>, b: Option<string>)
    ensures CompareKeys(b, a) == -CompareKeys(a, b)
  {
    if a.Some? && b.Some? {
      CompareStringsAntisymmetric(a.value, b.value);
    }
  }

  lemma CompareKeysTransitive(a: Option<string>, b: Option<string>, c: Option<string>)
    requires CompareKeys(a, b) <= 0 && CompareKeys(b, c) <= 0
    ensures CompareKeys(a, c) <= 0
  {
    if a.Some? && b.Some? && c.Some? {
      CompareStringsTransitive(a.value, b.value, c.value);
    }
  }

  /** One sort field: the keys compared, the records swapped for a descending field. */
  function FieldCompare(e: (string, Dir), r1: Record, r2: Record): int
  {
    var a := SortKey(r1, e.0);
    var b := SortKey(r2, e.0);
    if e.1 == Desc then CompareKeys(b, a) else CompareKeys(a, b)
  }

  /** `CompareToBuilder.toComparison()` over the whole order: the first field that differs. */
  function OrderCompare(order: Order, r1: Record, r2: Record): (c: int)
    ensures -1 <= c <= 1
    decreases |order|
  {
    if |order| == 0 then 0
    else
      var c := FieldCompare(order[0], r1, r2);
      if c != 0 then c else OrderCompare(order[1..], r1, r2)
  }

  /** The comparator the sort uses, as the loop over the sort fields that the source runs. */
  method CompareRecords(order: Order, r1: Record, r2: Record) returns (comparison: int)
    ensures comparison == OrderCompare(order, r1, r2)
  {
    comparison := 0;
    var i := 0;
    while i < |order|
      invariant 0 <= i <= |order|
      invariant OrderCompare(order, r1, r2) ==
        (if comparison != 0 then comparison else OrderCompare(order[i..], r1, r2))
    {
      assert order[i..][1..] == order[i + 1..];
      if comparison == 0 {
        comparison := FieldCompare(order[i], r1, r2);
      }
      i := i + 1;
    }
  }

  /** Two records agree on every sort field. */
  predicate SameKeys(order: Order, a: Record, b: Record)
  {
    forall i :: 0 <= i < |order| ==> SortKey(a, order[i].0) == SortKey(b, order[i].0)
  }

  /** Swapping the records negates the comparison. */
  lemma {:induction false} OrderCompareAntisymmetric(order: Order, a: Record, b: Record)
    ensures OrderCompare(order, b, a) == -OrderCompare(order, a, b)
    decreases |order|
  {
    if |order| > 0 {
      CompareKeysAntisymmetric(SortKey(a, order[0].0), SortKey(b, order[0].0));
      OrderCompareAntisymmetric(order[1..], a, b);
    }
  }

  /** Records compare equal exactly when they agree on every sort field. */
  lemma {:induction false} OrderCompareZero(order: Order, a: Record, b: Record)
    ensures OrderCompare(order, a, b) == 0 <==> SameKeys(order, a, b)
    decreases |order|
  {
    if |order| > 0 {
      OrderCompareZero(order[1..], a, b);
      assert forall i :: 1 <= i < |order| ==> order[1..][i - 1] == order[i];
      if SameKeys(order[1..], a, b) && FieldCompare(order[0], a, b) == 0 {
        forall i | 0 <= i < |order| ensures SortKey(a, order[i].0) == SortKey(b, order[i].0) {
          if i > 0 {
            assert order[1..][i - 1] == order[i];
          }
        }
      }
    }
  }

  /** The comparison is a total preorder: not-after is transitive. */
  lemma {:induction false} OrderCompareTransitive(order: Order, a: Record, b: Record, c: Record)
    requires OrderCompare(order, a, b) <= 0 && OrderCompare(order, b, c) <= 0
    ensures OrderCompare(order, a, c) <= 0
    decreases |order|
  {
    if |order| > 0 {
      var e := order[0];
      var ka, kb, kc := SortKey(a, e.0), SortKey(b, e.0), SortKey(c, e.0);
      if e.1 == Desc {
        CompareKeysTransitive(kc, kb, ka);
        CompareKeysAntisymmetric(kb, ka);
        CompareKeysAntisymmetric(kc, kb);
      } else {
        CompareKeysTransitive(ka, kb, kc);
        CompareKeysAntisymmetric(ka, kb);
        CompareKeysAntisymmetric(kb, kc);
      }
      if FieldCompare(e, a, b) == 0 && FieldCompare(e, b, c) == 0 {
        OrderCompareTransitive(order[1..], a, b, c);
      }
    }
  }

  /** Agreement on the sort fields is an equivalence: two records equivalent to a third agree. */
  lemma EquivalentTogether(order: Order, a: Record, b: Record, e: Record)
    requires OrderCompare(order, a, e) == 0 && OrderCompare(order, b, e) == 0
    ensures OrderCompare(order, a, b) == 0
  {
    OrderCompareZero(order, a, e);
    OrderCompareZero(order, b, e);
    OrderCompareZero(order, a, b);
  }

  /** The comparator as a function value, for the generic sort. */
  function Comparator(order: Order): (Record, Record) -> int
  {
    (a, b) => OrderCompare(order, a, b)
  }

  /** The comparator is a total preorder, as `Collections.sort` requires of it. */
  lemma ComparatorIsTotalPreorder(order: Order)
    ensures Antisymmetric(Comparator(order)) && Transitive(Comparator(order))
  {
    var cmp := Comparator(order);
    forall a, b ensures cmp(b, a) == -cmp(a, b) {
      OrderCompareAntisymmetric(order, a, b);
    }
    forall a, b, c | cmp(a, b) <= 0 && cmp(b, c) <= 0 ensures cmp(a, c) <= 0 {
      OrderCompareTransitive(order, a, b, c);
    }
  }

  /** The records in the order `Collections.sort` leaves them with this comparator. */
  function SortedBy(order: Order, s: seq<Record>): seq<Record>
  {
    InsertionSort(Comparator(order), s)
  }

  /**
   * `sortRecords` returns a permutation of its input, in order, and stable:
   * records that agree on every sort field keep their relative order.
   */
  lemma SortedByFacts(order: Order, s: seq<Record>, e: Record)
    ensures multiset(SortedBy(order, s)) == multiset(s)
    ensures forall i, j :: 0 <= i < j < |SortedBy(order, s)| ==>
      OrderCompare(order, SortedBy(order, s)[i], SortedBy(order, s)[j]) <= 0
    ensures Ties(Comparator(order), SortedBy(order, s), e) == Ties(Comparator(order), s, e)
  {
    ComparatorIsTotalPreorder(order);
    InsertionSortPermutes(Comparator(order), s);
    InsertionSortIsSorted(Comparator(order), s);
    InsertionSortIsStable(Comparator(order), s, e);
  }

  /** The records tying with `e` are exactly those that agree with it on every sort field. */
  lemma TiesAreSameKeys(order: Order, a: Record, e: Record)
    ensures Comparator(order)(a, e) == 0 <==> SameKeys(order, a, e)
  {
    OrderCompareZero(order, a, e);
  }

  /**
   * One pass of the sort: the records before `a[i]` that sort after it move
   * one place right, and `a[i]` goes into the gap.
   */
  method InsertInPlace(order: Order, a: array<Record>, i: nat)
    requires i < a.Length
    modifies a
    ensures a[..i + 1] == Insert(Comparator(order), old(a[..i]), old(a[i]))
    ensures a[i + 1..] == old(a[i + 1..])
  {
    ghost var prefix := a[..i];
    var x := a[i];
    var j := ShiftGap(Comparator(order), a, i, x);
    a[j] := x;
    PlacedAt(prefix, x, j, a[..i + 1]);
    InsertAtPoint(Comparator(order), prefix, x);
  }

  /** `sortRecords`: the list sorted in place by the order's comparator. */
  method SortRecords(order: Order, a: array<Record>)
    modifies a
    ensures a[..] == SortedBy(order, old(a[..]))
  {
    ghost var original := a[..];
    var i := 0;
    while i < a.Length
      invariant 0 <= i <= a.Length
      invariant a[..i] == SortedBy(order, original[..i])
      invariant a[i..] == original[i..]
    {
      InsertInPlace(order, a, i);
      InsertionSortSnoc(Comparator(order), original[..i], original[i]);
      assert original[..i] + [original[i]] == original[..i + 1];
      i := i + 1;
    }
    assert a[..] == a[..a.Length];
    assert original[..a.Length] == original;
  }
}
