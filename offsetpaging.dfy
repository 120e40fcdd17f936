/**
 * The result handling of the version 1 form helper and the version 1 API
 * helper: the plural array of the answer becomes records, `count` is its
 * length, `retrieve` takes its only element (or the singular member), and
 * `search` cuts a page out of the records by an offset carried in the
 * `pageToken` metadata and a `limit`.
 *
 * The page token travels Base64-encoded; here it is the decoded text, the
 * decimal form of the offset.
 */
module OffsetPaging {
  import opened Base
  import opened Strings
  import opened Json
  import opened Records
  import opened Projection

  /**
   * The record of one element of the answer's array: the cast to
   * `JSONObject` fails for anything but an object, and a `null` element
   * fails at its first field.
   */
  function ItemRecord(fields: seq<string>, item: Json): (r: Result<Record>)
    ensures item.JObj? ==> r == Project(fields, item.members)
    ensures !item.JObj? && !item.JNull? ==> r == Err(ClassCast)
  {
    match item
    case JObj(members) => Project(fields, members)
    case JNull => if |fields| == 0 then Ok([]) else Err(NullPointer)
    case _ => Err(ClassCast)
  }

  /** `createRecordsFromForms` / `createRecords` over the elements of the array, in order. */
  function ItemRecords(fields: seq<string>, items: seq<Json>): (r: Result<seq<Record>>)
    ensures r.Ok? ==> |r.value| == |items|
    decreases |items|
  {
    if |items| == 0 then Ok([])
    else
      var n := |items| - 1;
      var records :- ItemRecords(fields, items[..n]);
      var record :- ItemRecord(fields, items[n]);
      Ok(records + [record])
  }

  /** The loop of `createRecordsFromForms`, the cast of each element included. */
  method CreateItemRecords(fields: seq<string>, items: seq<Json>) returns (r: Result<seq<Record>>)
    ensures r == ItemRecords(fields, items)
  {
    var records: seq<Record> := [];
    var i := 0;
    while i < |items|
      invariant 0 <= i <= |items|
      invariant ItemRecords(fields, items[..i]) == Ok(records)
    {
      assert items[..i + 1][..i] == items[..i];
      var record := ItemRecord(fields, items[i]);
      if record.Err? {
        ItemRecordsErr(fields, items, i + 1);
        return Err(record.error);
      }
      records := records + [record.value];
      i := i + 1;
    }
    assert items[..|items|] == items;
    r := Ok(records);
  }

  /** Once the records of a prefix fail, the whole array fails the same way. */
  lemma {:induction false} ItemRecordsErr(fields: seq<string>, items: seq<Json>, k: nat)
    requires k <= |items| && ItemRecords(fields, items[..k]).Err?
    ensures ItemRecords(fields, items) == ItemRecords(fields, items[..k])
    decreases |items| - k
  {
    if k < |items| {
      assert items[..k + 1][..k] == items[..k];
      ItemRecordsErr(fields, items, k + 1);
    } else {
      assert items[..k] == items;
    }
  }

  /** An array of objects gives exactly the records of those objects. */
  lemma {:induction false} ObjectItems(fields: seq<string>, objs: seq<Object>, items: seq<Json>)
    requires |items| == |objs| && forall i :: 0 <= i < |items| ==> items[i] == JObj(objs[i])
    ensures ItemRecords(fields, items) == ProjectAll(fields, objs)
    decreases |objs|
  {
    if |objs| > 0 {
      var n := |objs| - 1;
      ObjectItems(fields, objs[..n], items[..n]);
      assert items[n] == JObj(objs[n]);
    }
  }

  /** `count`: the length of the plural array; `null` or another value cannot be counted. */
  function CountOf(response: Object, plural: string): (r: Result<nat>)
    ensures r.Ok? <==> Get(response, plural).JArr?
    ensures r.Ok? ==> r.value == |Get(response, plural).items|
  {
    match Get(response, plural)
    case JArr(items) => Ok(|items|)
    case JNull => Err(NullPointer)
    case _ => Err(ClassCast)
  }

  /**
   * `retrieve`: the only element of the plural array, or the singular
   * member when there is no plural array.  More than one element is an
   * error, and so (through `get(0)`) is none.
   */
  function RetrieveOf(response: Object, plural: string, singular: string, fields: seq<string>): (r: Result<Record>)
  {
    match Get(response, plural)
    case JNull => ItemRecord(fields, Get(response, singular))
    case JArr(items) =>
      if |items| > 1 then Err(AmbiguousRetrieve)
      else if |items| == 0 then Err(IndexOutOfBounds)
      else ItemRecord(fields, items[0])
    case _ => Err(ClassCast)
  }

  /**
   * Exactly one object in the plural array, or a singular object without a
   * plural array, gives the record of that object; two or more is the
   * ambiguity error.
   */
  lemma RetrieveCases(response: Object, plural: string, singular: string, fields: seq<string>)
    ensures Get(response, plural).JArr? && |Get(response, plural).items| > 1 ==>
      RetrieveOf(response, plural, singular, fields) == Err(AmbiguousRetrieve)
    ensures Get(response, plural).JArr? && |Get(response, plural).items| == 1 && Get(response, plural).items[0].JObj? ==>
      RetrieveOf(response, plural, singular, fields) == Project(fields, Get(response, plural).items[0].members)
    ensures Get(response, plural).JNull? && Get(response, singular).JObj? ==>
      RetrieveOf(response, plural, singular, fields) == Project(fields, Get(response, singular).members)
    ensures !HasKey(response, plural) && !HasKey(response, singular) ==>
      RetrieveOf(response, plural, singular, fields) == (if |fields| == 0 then Ok([]) else Err(NullPointer))
  {
  }

  /** The offset: 0 without a token, otherwise the token's text read as an `int`. */
  function Offset(token: Option<string>): (r: Result<int>)
    ensures r.Ok? ==> InInt32(r.value)
    ensures token.None? ==> r == Ok(0)
    ensures r.Err? ==> r.error == NumberFormat
  {
    if token.None? || token.value == "" then Ok(0)
    else
      match ParseInt32(token.value)
      case None => Err(NumberFormat)
      case Some(v) => Ok(v)
  }

  /** The limit: the `limit` metadata read as an `int`, or everything after the offset. */
  function Limit(limit: Option<string>, size: int, offset: int): (r: Result<int>)
    ensures r.Ok? ==> InInt32(r.value)
    ensures r.Err? ==> r.error == NumberFormat
  {
    if limit.None? || limit.value == "" then Ok(Wrap32(size - offset))
    else
      match ParseInt32(limit.value)
      case None => Err(NumberFormat)
      case Some(v) => Ok(v)
  }

  /** `ArrayList.subList`: a bound outside the list, or bounds the wrong way round, fail. */
  function SubList<T>(s: seq<T>, from: int, to: int): (r: Result<seq<T>>)
    ensures r.Ok? <==> 0 <= from <= to <= |s|
    ensures r.Ok? ==> r.value == s[from..to]
    ensures r.Err? ==> r.error == (if from < 0 || to > |s| then IndexOutOfBounds else IllegalArgument)
  {
    if from < 0 || to > |s| then Err(IndexOutOfBounds)
    else if from > to then Err(IllegalArgument)
    else Ok(s[from..to])
  }

  /** A page of records and the metadata `LinkedHashMap` of `size` and `pageToken`. */
  datatype Window<T> = Window(items: seq<T>, metadata: seq<(string, Option<string>)>)

  /**
   * The paging of `search`, with `int` arithmetic: the next token is the
   * end of this page when records remain after it, the page runs from the
   * offset to that end (or to the last record), and `size` is the limit.
   */
  function Page<T>(records: seq<T>, token: Option<string>, limit: Option<string>): Result<Window<T>>
    requires |records| <= MaxInt32
  {
    var offset :- Offset(token);
    var count :- Limit(limit, |records|, offset);
    var end := Wrap32(offset + count);
    var next := if end < |records| then Some(DecimalText(end)) else None;
    var items :- SubList(records, offset, if end > |records| then |records| else end);
    Ok(Window(items, [("size", Some(DecimalText(count))), ("pageToken", next)]))
  }

  /**
   * The page is the records from the offset to the offset plus the limit,
   * cut at the end of the list; a next token exists exactly when records
   * remain, and it names where they start.
   */
  lemma PageWindow<T>(records: seq<T>, token: Option<string>, limit: Option<string>, offset: int, count: int)
    requires |records| <= MaxInt32
    requires Offset(token) == Ok(offset) && Limit(limit, |records|, offset) == Ok(count)
    requires 0 <= offset <= |records| && 0 <= count && offset + count <= MaxInt32
    ensures Page(records, token, limit).Ok?
    ensures var w := Page(records, token, limit).value;
      var end := if offset + count < |records| then offset + count else |records|;
      && w.items == records[offset..end]
      && Lookup(w.metadata, "size") == Some(Some(DecimalText(count)))
      && (Lookup(w.metadata, "pageToken").value.Some? <==> offset + count < |records|)
      && (offset + count < |records| ==> Lookup(w.metadata, "pageToken").value == Some(DecimalText(offset + count)))
  {
    var next := if offset + count < |records| then Some(DecimalText(offset + count)) else None;
    var md := [("size", Some(DecimalText(count))), ("pageToken", next)];
    assert md[1..] == [("pageToken", next)];
    assert Lookup(md, "pageToken") == Some(next);
  }

  /** The items part of the window alone. */
  lemma PageItems<T>(records: seq<T>, token: Option<string>, limit: Option<string>, offset: int, count: int)
    requires |records| <= MaxInt32
    requires Offset(token) == Ok(offset) && Limit(limit, |records|, offset) == Ok(count)
    requires 0 <= offset <= |records| && 0 <= count && offset + count <= MaxInt32
    ensures Page(records, token, limit).Ok?
    ensures Page(records, token, limit).value.items ==
      records[offset..if offset + count < |records| then offset + count else |records|]
  {
  }

  /** Without a token or a limit the page is the whole list and there is no next page. */
  lemma WholeList<T>(records: seq<T>)
    requires |records| <= MaxInt32
    ensures Page(records, None, None) ==
      Ok(Window(records, [("size", Some(DecimalText(|records|))), ("pageToken", None)]))
  {
    assert records[0..|records|] == records;
  }

  /**
   * Asking again with the next token and the same limit gives the records
   * right after this page: the two pages together are one longer window,
   * with nothing skipped and nothing repeated.
   */
  lemma NextPageContinues<T>(records: seq<T>, token: Option<string>, limit: string, offset: int, count: int)
    requires |records| <= MaxInt32
    requires Offset(token) == Ok(offset) && limit != "" && ParseInt32(limit) == Some(count)
    requires 0 <= offset && 0 <= count && offset + count < |records| && offset + count + count <= MaxInt32
    ensures Page(records, token, Some(limit)).Ok?
    ensures var next := Some(DecimalText(offset + count));
      && Offset(next) == Ok(offset + count)
      && Page(records, next, Some(limit)).Ok?
      && Page(records, token, Some(limit)).value.items + Page(records, next, Some(limit)).value.items ==
         records[offset..if offset + count + count < |records| then offset + count + count else |records|]
  {
    var start := offset + count;
    var next := Some(DecimalText(start));
    NextOffset(start);
    assert Limit(Some(limit), |records|, offset) == Ok(count);
    assert Limit(Some(limit), |records|, start) == Ok(count);
    PageItems(records, token, Some(limit), offset, count);
    PageItems(records, next, Some(limit), start, count);
    var end := if start + count < |records| then start + count else |records|;
    SliceJoin(records, offset, start, end);
  }

  lemma SliceJoin<T>(s: seq<T>, i: nat, j: nat, k: nat)
    requires i <= j <= k <= |s|
    ensures s[i..j] + s[j..k] == s[i..k]
  {
  }

  /** The next token, read back, is the offset it was made from. */
  lemma NextOffset(start: int)
    requires 0 <= start <= MaxInt32
    ensures Offset(Some(DecimalText(start))) == Ok(start)
  {
    DecimalRoundTrip(start);
    assert |NatText(start)| >= 1;
  }

  /** A negative offset is outside the list. */
  lemma NegativeOffset<T>(records: seq<T>, token: Option<string>, limit: Option<string>)
    requires |records| <= MaxInt32
    requires Offset(token).Ok? && Offset(token).value < 0
    requires Limit(limit, |records|, Offset(token).value).Ok?
    ensures Page(records, token, limit) == Err(IndexOutOfBounds)
  {
  }

  /**
   * An offset past the end without a limit makes the limit negative, so the
   * page's bounds are the wrong way round.
   */
  lemma OffsetPastEnd<T>(records: seq<T>, token: Option<string>)
    requires |records| <= MaxInt32
    requires Offset(token).Ok? && Offset(token).value > |records|
    ensures Page(records, token, None) == Err(IllegalArgument)
  {
  }

  /** `search`: the records of the plural array, then the page of them. */
  function SearchOf(response: Object, plural: string, fields: seq<string>,
                    token: Option<string>, limit: Option<string>): (r: Result<Window<Record>>)
    requires Get(response, plural).JArr? ==> |Get(response, plural).items| <= MaxInt32
  {
    match Get(response, plural)
    case JArr(items) =>
      var records :- ItemRecords(fields, items);
      Page(records, token, limit)
    case JNull => Err(NullPointer)
    case _ => Err(ClassCast)
  }

  /** A search without paging metadata returns a record for every element of the array. */
  lemma SearchAll(response: Object, plural: string, fields: seq<string>)
    requires Get(response, plural).JArr? && |Get(response, plural).items| <= MaxInt32
    requires ItemRecords(fields, Get(response, plural).items).Ok?
    ensures SearchOf(response, plural, fields, None, None).Ok?
    ensures SearchOf(response, plural, fields, None, None).value.items ==
      ItemRecords(fields, Get(response, plural).items).value
  {
    WholeList(ItemRecords(fields, Get(response, plural).items).value);
  }
}
