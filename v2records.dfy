/**
 * `createRecord`, `createRecords` and the two `extract` overloads shared by
 * the version 2 API helper and the version 2 adapter (the two copies are
 * the same code): each returned item becomes a record with one value per
 * requested field.  A field that is exactly `property[key]` reads the
 * item's `property`: in an array, the `values` of the first entry named
 * `key`; in an object, the member `key`.  Any other field reads the item's
 * member of that name.  Values are written as text, `null` stays `null`.
 */
module V2Records {
  import opened Base
  import opened Strings
  import opened Json
  import opened Records
  import opened Brackets

  /**
   * `extract(JSONObject, String)`: `null` for a missing object or a missing
   * (or `null`) member, the JSON text of an object or an array, and
   * `toString()` of anything else.
   */
  function Extract(obj: Option<Object>, field: string): (r: Option<string>)
    ensures obj.None? ==> r.None?
    ensures obj.Some? ==> r == Stringify(Get(obj.value, field))
  {
    var value := if obj.None? then JNull else Get(obj.value, field);
    if value == JNull then None
    else if value.JObj? || value.JArr? then Some(JsonText(value))
    else if value.JStr? then Some(value.s)
    else Some(JsonText(value))
  }

  /** An array entry the lookup accepts: an object with both `name` and `values`, whose `name` is the string `key`. */
  predicate Named(item: Json, key: string)
  {
    item.JObj? && HasKey(item.members, "name") && HasKey(item.members, "values")
    && Get(item.members, "name") == JStr(key)
  }

  /** The stream's `findFirst`: the first entry of `items` that is `Named(key)`. */
  function FirstNamed(items: seq<Json>, key: string): (r: Option<Object>)
    ensures r.None? <==> forall i :: 0 <= i < |items| ==> !Named(items[i], key)
    ensures r.Some? ==>
      (exists i :: 0 <= i < |items| && items[i] == JObj(r.value) && Named(items[i], key)
        && forall j :: 0 <= j < i ==> !Named(items[j], key))
    decreases |items|
  {
    if |items| == 0 then None
    else if Named(items[0], key) then Some(items[0].members)
    else
      var r := FirstNamed(items[1..], key);
      assert forall i :: 1 <= i < |items| ==> items[1..][i - 1] == items[i];
      r
  }

  /** `extract(JSONArray, String)`: the `values` of the first entry named `key`, `null` when there is none. */
  function ExtractNamed(items: seq<Json>, key: string): (r: Option<string>)
    ensures (forall i :: 0 <= i < |items| ==> !Named(items[i], key)) ==> r.None?
  {
    Extract(FirstNamed(items, key), "values")
  }

  /**
   * The value of one requested field of `item` (`None` is a `null` item).
   * A bracketed field reads the item's property, so a `null` item fails
   * there, and so does a property that is neither an array nor an object.
   */
  function FieldValue(field: string, item: Option<Object>): (r: Result<Option<string>>)
    ensures MatchBracket(field).None? ==> r == Ok(Extract(item, field))
    ensures r.Err? ==> MatchBracket(field).Some?
  {
    match MatchBracket(field)
    case Some(g) =>
      if item.None? then Err(NullPointer)
      else
        (match Get(item.value, g.0)
         case JArr(items) => Ok(ExtractNamed(items, g.1))
         case JObj(members) => Ok(Extract(Some(members), g.1))
         case _ => Err(UnexpectedNestedType(field)))
    case None => Ok(Extract(item, field))
  }

  /** Each requested field's record value in one item. */
  function Values(item: Option<Object>): string -> Result<Option<string>>
  {
    f => FieldValue(f, item)
  }

  /** `createRecord`: the fields put into a `LinkedHashMap` in request order; the first failure stops it. */
  function CreateRecord(fields: seq<string>, item: Option<Object>): Result<Record>
  {
    Build(fields, Values(item))
  }

  /** The record of an array entry: the `(JSONObject)` cast fails on anything but an object. */
  function ItemRecord(fields: seq<string>, item: Json): Result<Record>
  {
    match item
    case JObj(members) => CreateRecord(fields, Some(members))
    case JNull => CreateRecord(fields, None)
    case _ => Err(ClassCast)
  }

  /** `createRecords`: one record per array entry, in order; the first failure stops the stream. */
  function CreateRecords(fields: seq<string>, items: seq<Json>): (r: Result<seq<Record>>)
    ensures r.Ok? ==> |r.value| == |items|
    decreases |items|
  {
    if |items| == 0 then Ok([])
    else
      var n := |items| - 1;
      var records :- CreateRecords(fields, items[..n]);
      var record :- ItemRecord(fields, items[n]);
      Ok(records + [record])
  }

  /** `createRecord` as the `forEach` over the fields filling the map. */
  method BuildRecord(fields: seq<string>, item: Option<Object>) returns (r: Result<Record>)
    ensures r == CreateRecord(fields, item)
  {
    var record: Record := [];
    var j := 0;
    while j < |fields|
      invariant 0 <= j <= |fields|
      invariant CreateRecord(fields[..j], item) == Ok(record)
    {
      var value := FieldValue(fields[j], item);
      assert Values(item)(fields[j]) == value;
      if value.Err? {
        BuildErr(fields, Values(item), j);
        return Err(value.error);
      }
      BuildStep(fields, Values(item), j);
      record := Put(record, fields[j], value.value);
      j := j + 1;
    }
    assert fields[..j] == fields;
    r := Ok(record);
  }

  /** `createRecords` as the stream over the array entries. */
  method BuildRecords(fields: seq<string>, items: seq<Json>) returns (r: Result<seq<Record>>)
    ensures r == CreateRecords(fields, items)
  {
    var records: seq<Record> := [];
    var i := 0;
    while i < |items|
      invariant 0 <= i <= |items|
      invariant CreateRecords(fields, items[..i]) == Ok(records)
    {
      assert items[..i + 1][..i] == items[..i];
      var record: Result<Record>;
      if items[i].JObj? {
        record := BuildRecord(fields, Some(items[i].members));
      } else if items[i].JNull? {
        record := BuildRecord(fields, None);
      } else {
        record := Err(ClassCast);
      }
      assert record == ItemRecord(fields, items[i]);
      if record.Err? {
        assert CreateRecords(fields, items[..i + 1]) == Err(record.error);
        CreateRecordsErr(fields, items, i + 1);
        return Err(record.error);
      }
      records := records + [record.value];
      i := i + 1;
    }
    assert items[..i] == items;
    r := Ok(records);
  }

  /** Once a prefix of the entries fails, the whole list fails with the same error. */
  lemma {:induction false} CreateRecordsErr(fields: seq<string>, items: seq<Json>, k: nat)
    requires k <= |items| && CreateRecords(fields, items[..k]).Err?
    ensures CreateRecords(fields, items) == CreateRecords(fields, items[..k])
    decreases |items| - k
  {
    if k < |items| {
      assert items[..k + 1][..k] == items[..k];
      assert CreateRecords(fields, items[..k + 1]) == CreateRecords(fields, items[..k]);
      CreateRecordsErr(fields, items, k + 1);
    } else {
      assert items[..k] == items;
    }
  }

  /**
   * A record that is built holds exactly the requested fields, in request
   * order (a repeated field once, where it first appears), and the value of
   * each field is that field's value in the item.
   */
  lemma CreateRecordFacts(fields: seq<string>, item: Option<Object>)
    requires CreateRecord(fields, item).Ok?
    ensures Keys(CreateRecord(fields, item).value) == AddAll([], fields)
    ensures forall f :: f in fields ==>
      FieldValue(f, item).Ok? && Lookup(CreateRecord(fields, item).value, f) == Some(FieldValue(f, item).value)
  {
    BuildFacts(fields, Values(item));
    forall f | f in fields
      ensures Values(item)(f) == FieldValue(f, item)
    {
    }
  }

  /** Distinct requested fields become exactly the record's keys, in request order. */
  lemma DistinctFieldsAreKeys(fields: seq<string>, item: Option<Object>)
    requires CreateRecord(fields, item).Ok? && Distinct(fields)
    ensures Keys(CreateRecord(fields, item).value) == fields
  {
    CreateRecordFacts(fields, item);
    assert [] + fields == fields;
    AddAllKeepsDistinct([], fields);
  }

  /** A record fails only on a bracketed field: plain fields never fail. */
  lemma PlainFieldsSucceed(fields: seq<string>, item: Option<Object>)
    requires forall i :: 0 <= i < |fields| ==> MatchBracket(fields[i]).None?
    ensures CreateRecord(fields, item).Ok?
  {
    forall i | 0 <= i < |fields|
      ensures Values(item)(fields[i]).Ok?
    {
      assert FieldValue(fields[i], item).Ok?;
    }
    BuildOk(fields, Values(item));
  }

  /** For an array property, `c[k]` is the text of the `values` of the first entry named `k`. */
  lemma ArrayProperty(property: string, key: string, members: Object, items: seq<Json>)
    requires '[' !in property && ']' !in key && NoBreak(property) && NoBreak(key)
    requires Get(members, property) == JArr(items)
    ensures FieldValue(property + "[" + key + "]", Some(members)) ==
      match FirstNamed(items, key)
      case None => Ok(None)
      case Some(entry) => Ok(Stringify(Get(entry, "values")))
  {
    MatchBracketField(property, key);
  }

  /** For an object property, `c[k]` is the text of its member `k`, `null` when there is none. */
  lemma ObjectProperty(property: string, key: string, members: Object, inner: Object)
    requires '[' !in property && ']' !in key && NoBreak(property) && NoBreak(key)
    requires Get(members, property) == JObj(inner)
    ensures FieldValue(property + "[" + key + "]", Some(members)) == Ok(Stringify(Get(inner, key)))
  {
    MatchBracketField(property, key);
  }

  /** A bracketed field on a property that is missing, `null` or a scalar fails with a `RuntimeException`. */
  lemma ScalarProperty(property: string, key: string, members: Object)
    requires '[' !in property && ']' !in key && NoBreak(property) && NoBreak(key)
    requires !Get(members, property).JArr? && !Get(members, property).JObj?
    ensures FieldValue(property + "[" + key + "]", Some(members)) ==
      Err(UnexpectedNestedType(property + "[" + key + "]"))
  {
    MatchBracketField(property, key);
  }

  /** A `null` item gives `null` for every plain field and fails on a bracketed one. */
  lemma NullItem(field: string)
    ensures FieldValue(field, None) == if MatchBracket(field).Some? then Err(NullPointer) else Ok(None)
  {
  }
}
