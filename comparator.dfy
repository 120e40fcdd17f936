/**
 * The version 2 `KappSubmissionComparator`: records compared field by field
 * in the order of a field list, each field by its lower-cased text, the
 * first field that differs deciding.  There is no direction; a caller that
 * wants descending order reverses the comparator.
 *
 * `getValue(field).toString()` is called on each record's value before
 * `normalize` sees it, so a record whose value for a compared field is
 * `null` (or absent) makes the comparison fail, first record first.
 */
module SubmissionComparator {
  import opened Base
  import opened Strings
  import opened Records
  import opened Ordering

  /** `normalize`: `null` becomes the empty text, anything else its lower-case form. */
  function Normalize(s: Option<string>): (r: string)
    ensures s.Some? ==> |r| == |s.value|
    ensures s.None? ==> r == ""
  {
    match s
    case None => ""
    case Some(v) => AsciiLower(v)
  }

  /** The outcome of `compare(r1, r2)` over `fields`, from the first field on. */
  function FieldsCompare(fields: seq<string>, r1: Record, r2: Record): (r: Result<int>)
    ensures r.Ok? ==> -1 <= r.value <= 1
    ensures r.Err? ==> r.error == NullPointer
    decreases |fields|
  {
    if |fields| == 0 then Ok(0)
    else
      var v1 := GetValue(r1, fields[0]);
      var v2 := GetValue(r2, fields[0]);
      if v1.None? || v2.None? then Err(NullPointer)
      else
        var c := CompareStrings(Normalize(v1), Normalize(v2));
        if c != 0 then Ok(c) else FieldsCompare(fields[1..], r1, r2)
  }

  /** `compare`: the loop over the record fields with its early exit. */
  method Compare(recordFields: seq<string>, r1: Record, r2: Record) returns (result: Result<int>)
    ensures result == FieldsCompare(recordFields, r1, r2)
  {
    var comparison := 0;
    var i := 0;
    while i < |recordFields|
      invariant 0 <= i <= |recordFields|
      invariant FieldsCompare(recordFields, r1, r2) == FieldsCompare(recordFields[i..], r1, r2)
    {
      assert recordFields[i..][1..] == recordFields[i + 1..];
      var f := recordFields[i];
      var v1 := GetValue(r1, f);
      if v1.None? {
        return Err(NullPointer);
      }
      var v2 := GetValue(r2, f);
      if v2.None? {
        return Err(NullPointer);
      }
      var fieldComparison := CompareStrings(Normalize(v1), Normalize(v2));
      if fieldComparison != 0 {
        comparison := fieldComparison;
        break;
      }
      i := i + 1;
    }
    return Ok(comparison);
  }

  /** Every compared field has a value in the record. */
  predicate HasAll(fields: seq<string>, r: Record)
  {
    forall i :: 0 <= i < |fields| ==> GetValue(r, fields[i]).Some?
  }

  /** Comparing a record with itself gives 0, unless one of its compared fields is `null`. */
  lemma {:induction false} CompareReflexive(fields: seq<string>, r: Record)
    ensures FieldsCompare(fields, r, r) == if HasAll(fields, r) then Ok(0) else Err(NullPointer)
    decreases |fields|
  {
    if |fields| > 0 {
      CompareReflexive(fields[1..], r);
      assert forall i :: 1 <= i < |fields| ==> fields[1..][i - 1] == fields[i];
    }
  }

  /** Swapping the records negates the result, and fails exactly when the other order fails. */
  lemma {:induction false} CompareAntisymmetric(fields: seq<string>, a: Record, b: Record)
    ensures FieldsCompare(fields, a, b).Ok? <==> FieldsCompare(fields, b, a).Ok?
    ensures FieldsCompare(fields, a, b).Ok? ==>
      FieldsCompare(fields, b, a).value == -FieldsCompare(fields, a, b).value
    decreases |fields|
  {
    if |fields| > 0 {
      var v1, v2 := GetValue(a, fields[0]), GetValue(b, fields[0]);
      if v1.Some? && v2.Some? {
        CompareStringsAntisymmetric(Normalize(v1), Normalize(v2));
        CompareAntisymmetric(fields[1..], a, b);
      }
    }
  }

  /** Every field ascending: the order the comparator applies. */
  function Ascending(fields: seq<string>): (o: Order)
    ensures |o| == |fields|
    ensures forall i :: 0 <= i < |fields| ==> o[i] == (fields[i], Asc)
  {
    seq(|fields|, i requires 0 <= i < |fields| => (fields[i], Asc))
  }

  /** Every field descending: what the reversed comparator sorts by. */
  function Descending(fields: seq<string>): (o: Order)
    ensures |o| == |fields|
    ensures forall i :: 0 <= i < |fields| ==> o[i] == (fields[i], Desc)
  {
    seq(|fields|, i requires 0 <= i < |fields| => (fields[i], Desc))
  }

  /**
   * On records that have every compared field, the comparator is the
   * all-ascending multi-field order: sorting with it orders by the first
   * field, ties broken by the later fields in list order.
   */
  lemma {:induction false} CompareIsAscendingOrder(fields: seq<string>, a: Record, b: Record)
    requires HasAll(fields, a) && HasAll(fields, b)
    ensures FieldsCompare(fields, a, b) == Ok(OrderCompare(Ascending(fields), a, b))
    decreases |fields|
  {
    if |fields| > 0 {
      assert Ascending(fields)[1..] == Ascending(fields[1..]);
      assert forall i :: 1 <= i < |fields| ==> fields[1..][i - 1] == fields[i];
      CompareIsAscendingOrder(fields[1..], a, b);
    }
  }

  /** The reversed comparator is the all-descending order. */
  lemma {:induction false} ReversedIsDescendingOrder(fields: seq<string>, a: Record, b: Record)
    requires HasAll(fields, a) && HasAll(fields, b)
    ensures FieldsCompare(fields, b, a) == Ok(OrderCompare(Descending(fields), a, b))
    decreases |fields|
  {
    if |fields| > 0 {
      assert Descending(fields)[1..] == Descending(fields[1..]);
      assert forall i :: 1 <= i < |fields| ==> fields[1..][i - 1] == fields[i];
      ReversedIsDescendingOrder(fields[1..], a, b);
    }
  }
}
