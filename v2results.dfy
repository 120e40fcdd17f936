/**
 * How the version 2 API helper and the version 2 adapter read a Kinetic
 * Core response: the plural array (`submissions`, `forms`, ...) or the
 * singular object (`submission`, `form`, ...) named by the structure's
 * mapping, and the `nextPageToken`, kept as `String.valueOf` text (so an
 * absent token is the four letters `null`).
 *
 * The helper lets each failure escape as it is; the adapter wraps its
 * reading of the response in a catch-all that turns any failure into one
 * "error parsing the response".
 */
module V2Results {
  import opened Base
  import opened Json
  import opened Records
  import opened V2Records
  import opened V2Adapter

  /** A `Count`: the number and the metadata. */
  datatype Count = Count(count: nat, metadata: seq<(string, string)>)

  /** A `RecordList` as the helper returns it: the records and the metadata. */
  datatype RecordList = RecordList(records: seq<Record>, metadata: seq<(string, string)>)

  /** `(JSONObject)JSONValue.parse(response)`: an object, `null` (failing at its first use) or the wrong type. */
  function ResponseObject(response: Json): (r: Result<Object>)
    ensures r.Ok? <==> response.JObj?
    ensures r.Ok? ==> response == JObj(r.value)
  {
    match response
    case JObj(members) => Ok(members)
    case JNull => Err(NullPointer)
    case _ => Err(ClassCast)
  }

  /** `(JSONArray)json.get(plural)`: `null` when absent or `null`, a cast failure for anything but an array. */
  function PluralArray(json: Object, plural: string): (r: Result<Option<seq<Json>>>)
    ensures r == Ok(None) <==> Get(json, plural) == JNull
    ensures r.Ok? && r.value.Some? <==> Get(json, plural).JArr?
  {
    match Get(json, plural)
    case JNull => Ok(None)
    case JArr(items) => Ok(Some(items))
    case _ => Err(ClassCast)
  }

  /** `(JSONObject)json.get(singular)`: `null` when absent or `null`, a cast failure for anything but an object. */
  function SingularObject(json: Object, singular: string): (r: Result<Option<Object>>)
    ensures r == Ok(None) <==> Get(json, singular) == JNull
    ensures r.Ok? && r.value.Some? <==> Get(json, singular).JObj?
  {
    match Get(json, singular)
    case JNull => Ok(None)
    case JObj(members) => Ok(Some(members))
    case _ => Err(ClassCast)
  }

  /** `String.valueOf(json.getOrDefault("nextPageToken", null))`: the token's text, or `null` as text. */
  function PageToken(json: Object): (t: string)
    ensures Get(json, "nextPageToken") == JNull ==> t == "null"
    ensures Get(json, "nextPageToken").JStr? ==> t == Get(json, "nextPageToken").s
  {
    match Stringify(Get(json, "nextPageToken"))
    case None => "null"
    case Some(text) => text
  }

  /**
   * The item a retrieve reads: the only entry of the plural array cast to
   * an object or, without the array, the singular object.  An array of
   * more than one entry is ambiguous, and an empty one has no first entry.
   */
  function RetrieveItem(response: Json, mapping: Mapping): (r: Result<Option<Object>>)
    ensures r.Ok? ==> response.JObj?
    ensures response.JObj? && Get(response.members, mapping.plural).JArr? ==>
      (r == Err(AmbiguousRetrieve) <==> |Get(response.members, mapping.plural).items| > 1) &&
      (r == Err(IndexOutOfBounds) <==> |Get(response.members, mapping.plural).items| == 0)
  {
    var json :- ResponseObject(response);
    var plural :- PluralArray(json, mapping.plural);
    if plural.None? then SingularObject(json, mapping.singular)
    else if |plural.value| > 1 then Err(AmbiguousRetrieve)
    else if |plural.value| == 0 then Err(IndexOutOfBounds)
    else if plural.value[0].JObj? then Ok(Some(plural.value[0].members))
    else if plural.value[0].JNull? then Ok(None)
    else Err(ClassCast)
  }

  /*
   * The version 2 API helper.
   */

  /** `count`: the size of the plural array (a missing array is a `NullPointerException`) and the page token. */
  function HelperCount(response: Json, mapping: Mapping): (r: Result<Count>)
    ensures r.Ok? ==> response.JObj? && r.value.metadata == [("pageToken", PageToken(response.members))]
  {
    var json :- ResponseObject(response);
    var plural :- PluralArray(json, mapping.plural);
    if plural.None? then Err(NullPointer)
    else Ok(Count(|plural.value|, [("pageToken", PageToken(json))]))
  }

  /** `retrieve`: the record of the single item; more than one array entry is ambiguous. */
  function HelperRetrieve(fields: seq<string>, response: Json, mapping: Mapping): Result<Record>
  {
    var found :- RetrieveItem(response, mapping);
    CreateRecord(fields, found)
  }

  /** `search`: one record per array entry (none without the array) and the page token. */
  function HelperSearch(fields: seq<string>, response: Json, mapping: Mapping): (r: Result<RecordList>)
    ensures r.Ok? ==> response.JObj? && r.value.metadata == [("pageToken", PageToken(response.members))]
  {
    var json :- ResponseObject(response);
    var plural :- PluralArray(json, mapping.plural);
    var records :- if plural.None? then Ok([]) else CreateRecords(fields, plural.value);
    Ok(RecordList(records, [("pageToken", PageToken(json))]))
  }

  /**
   * A count and a search of the same response agree: the count is the
   * number of records the search builds, with the same page token.
   */
  lemma CountIsSearchSize(fields: seq<string>, response: Json, mapping: Mapping)
    requires HelperCount(response, mapping).Ok? && HelperSearch(fields, response, mapping).Ok?
    ensures HelperCount(response, mapping).value.count == |HelperSearch(fields, response, mapping).value.records|
    ensures HelperCount(response, mapping).value.metadata == HelperSearch(fields, response, mapping).value.metadata
  {
  }

  /** A count fails exactly when the response is not an object or has no plural array. */
  lemma HelperCountOk(response: Json, mapping: Mapping)
    ensures HelperCount(response, mapping).Ok? <==>
      response.JObj? && Get(response.members, mapping.plural).JArr?
  {
  }

  /** A retrieve of a one-entry array is the only record a search of the same response builds. */
  lemma RetrieveIsOnlySearchRecord(fields: seq<string>, response: Json, mapping: Mapping)
    requires response.JObj? && Get(response.members, mapping.plural).JArr?
    requires |Get(response.members, mapping.plural).items| == 1
    requires HelperSearch(fields, response, mapping).Ok?
    ensures HelperRetrieve(fields, response, mapping) == Ok(HelperSearch(fields, response, mapping).value.records[0])
  {
    var items := Get(response.members, mapping.plural).items;
    assert items[..0] == [];
  }

  /** Without the plural array a search finds no records, and a retrieve reads the singular object. */
  lemma NoPluralArray(fields: seq<string>, json: Object, mapping: Mapping)
    requires Get(json, mapping.plural) == JNull
    ensures HelperSearch(fields, JObj(json), mapping) == Ok(RecordList([], [("pageToken", PageToken(json))]))
    ensures SingularObject(json, mapping.singular).Err? ==>
      HelperRetrieve(fields, JObj(json), mapping) == Err(SingularObject(json, mapping.singular).error)
    ensures SingularObject(json, mapping.singular).Ok? ==>
      HelperRetrieve(fields, JObj(json), mapping) == CreateRecord(fields, SingularObject(json, mapping.singular).value)
  {
  }

  /*
   * The version 2 adapter, whose reading of the response is wrapped in a
   * catch-all.
   */

  /** The catch-all: any failure inside the `try` becomes a parse error. */
  function Caught<T>(r: Result<T>): (c: Result<T>)
    ensures c.Ok? <==> r.Ok?
    ensures c.Ok? ==> c.value == r.value
    ensures c.Err? ==> c.error == ResponseParseError
  {
    if r.Ok? then r else Err(ResponseParseError)
  }

  /** The body of the adapter's `count` inside its `try`: the array's size, else 1 for a singular object, else 0. */
  function CountBody(response: Json, mapping: Mapping): Result<Count>
  {
    var json :- ResponseObject(response);
    var plural :- PluralArray(json, mapping.plural);
    var count :-
      if plural.Some? then Ok(|plural.value|)
      else
        var single :- SingularObject(json, mapping.singular);
        Ok(if single.Some? then 1 else 0);
    Ok(Count(count, [("pageToken", PageToken(json))]))
  }

  /** The adapter's `count`. */
  function AdapterCount(response: Json, mapping: Mapping): (r: Result<Count>)
    ensures r.Err? ==> r.error == ResponseParseError
    ensures r.Ok? ==> response.JObj? && (r.value.count <= 1 || Get(response.members, mapping.plural).JArr?)
  {
    Caught(CountBody(response, mapping))
  }

  /**
   * The adapter counts like the helper whenever the plural array is there;
   * without it, it counts a singular object as one and nothing as zero
   * where the helper fails.
   */
  lemma AdapterCountAgainstHelper(response: Json, mapping: Mapping)
    ensures HelperCount(response, mapping).Ok? ==> AdapterCount(response, mapping) == HelperCount(response, mapping)
    ensures response.JObj? && Get(response.members, mapping.plural) == JNull ==>
      AdapterCount(response, mapping) ==
        if SingularObject(response.members, mapping.singular).Err? then Err(ResponseParseError)
        else Ok(Count(if SingularObject(response.members, mapping.singular).value.Some? then 1 else 0,
                      [("pageToken", PageToken(response.members))]))
  {
  }

  /**
   * The adapter's `retrieve`: finding the item is inside the `try` (so an
   * ambiguous result is reported as a parse error), building the record is
   * not.
   */
  function AdapterRetrieve(fields: seq<string>, response: Json, mapping: Mapping): (r: Result<Record>)
    ensures r.Ok? <==> HelperRetrieve(fields, response, mapping).Ok?
    ensures r.Ok? ==> r == HelperRetrieve(fields, response, mapping)
  {
    var found :- Caught(RetrieveItem(response, mapping));
    CreateRecord(fields, found)
  }

  /** The body of the adapter's `search` inside its `try`: the records and the metadata with the page token put in. */
  function SearchBody(fields: seq<string>, response: Json, mapping: Mapping,
                      metadata: Option<seq<(string, string)>>): Result<RecordList>
  {
    var json :- ResponseObject(response);
    var plural :- PluralArray(json, mapping.plural);
    var records :- if plural.None? then Ok([]) else CreateRecords(fields, plural.value);
    var base := if metadata.Some? then metadata.value else [];
    Ok(RecordList(records, Put(base, "pageToken", PageToken(json))))
  }

  /**
   * The adapter's reading of a `search` response: the records and the
   * request's metadata (or a new map) with the page token put in.  The
   * bridge-side ordering that may follow is not part of this model.
   */
  function AdapterSearch(fields: seq<string>, response: Json, mapping: Mapping,
                         metadata: Option<seq<(string, string)>>): (r: Result<RecordList>)
    ensures r.Err? ==> r.error == ResponseParseError
    ensures r.Ok? ==> response.JObj? && Lookup(r.value.metadata, "pageToken") == Some(PageToken(response.members))
  {
    Caught(SearchBody(fields, response, mapping, metadata))
  }

  /**
   * The adapter and the helper read the same records from a response and
   * fail on the same responses; the adapter keeps the caller's metadata
   * entries other than the page token.
   */
  lemma AdapterSearchAgainstHelper(fields: seq<string>, response: Json, mapping: Mapping,
                                   metadata: Option<seq<(string, string)>>, key: string)
    ensures AdapterSearch(fields, response, mapping, metadata).Ok? <==> HelperSearch(fields, response, mapping).Ok?
    ensures AdapterSearch(fields, response, mapping, metadata).Ok? ==>
      AdapterSearch(fields, response, mapping, metadata).value.records == HelperSearch(fields, response, mapping).value.records
    ensures AdapterSearch(fields, response, mapping, metadata).Ok? && metadata.Some? && key != "pageToken" ==>
      Lookup(AdapterSearch(fields, response, mapping, metadata).value.metadata, key) == Lookup(metadata.value, key)
  {
    var body := SearchBody(fields, response, mapping, metadata);
    var helper := HelperSearch(fields, response, mapping);
    assert body.Ok? <==> helper.Ok?;
    if body.Ok? {
      assert body.value.records == helper.value.records;
      if metadata.Some? && key != "pageToken" {
        PutOther(metadata.value, "pageToken", PageToken(response.members), key);
      }
    }
  }
}
