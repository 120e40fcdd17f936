/**
 * Attribute lookups of the version 1 helpers.  Kinetic Core returns
 * attributes as a list of `{ "name": ..., "values": [...] }` objects under a
 * container key such as `attributes` or `profileAttributes`.
 *
 * `getAttributeValues` (user, form and API helpers) insists that the
 * container is such a list; `getChildValues` (submission helper) also
 * accepts an object container, looked up by key, and returns anything else
 * as it is.  Both fail when the container key is absent, and both let the
 * Java casts fail on malformed entries.
 */
module Attributes {
  import opened Base
  import opened Json

  /** `(List)` applied to an attribute's `values`: `null` passes, a non-list fails. */
  function AsList(v: Json): (r: Result<Json>)
    ensures r.Ok? <==> v.JNull? || v.JArr?
    ensures r.Ok? ==> r.value == v
    ensures r.Err? ==> r.error == ClassCast
  {
    if v.JNull? || v.JArr? then Ok(v) else Err(ClassCast)
  }

  /**
   * The scan over an attribute list: the `values` of the first attribute
   * whose name equals `name`, or an empty list.  A `null` entry or name
   * fails with a null pointer, any other non-object entry or non-string
   * name with a failed cast.
   */
  function FindAttribute(items: seq<Json>, name: string): (r: Result<Json>)
    ensures r.Ok? ==> r.value.JNull? || r.value.JArr?
    ensures r.Err? ==> r.error == NullPointer || r.error == ClassCast
    decreases |items|
  {
    if |items| == 0 then Ok(JArr([]))
    else match items[0]
      case JNull => Err(NullPointer)
      case JObj(ms) =>
        (match Get(ms, "name")
         case JNull => Err(NullPointer)
         case JStr(n) => if n == name then AsList(Get(ms, "values")) else FindAttribute(items[1..], name)
         case _ => Err(ClassCast))
      case _ => Err(ClassCast)
  }

  /** The scan as the source runs it: a loop that returns at the first matching name. */
  method ScanAttributes(items: seq<Json>, name: string) returns (r: Result<Json>)
    ensures r == FindAttribute(items, name)
  {
    var i := 0;
    while i < |items|
      invariant 0 <= i <= |items|
      invariant FindAttribute(items, name) == FindAttribute(items[i..], name)
    {
      assert items[i..][1..] == items[i + 1..];
      var entry := items[i];
      if entry.JNull? {
        return Err(NullPointer);
      } else if !entry.JObj? {
        return Err(ClassCast);
      }
      var n := Get(entry.members, "name");
      if n.JNull? {
        return Err(NullPointer);
      } else if !n.JStr? {
        return Err(ClassCast);
      }
      if n.s == name {
        return AsList(Get(entry.members, "values"));
      }
      i := i + 1;
    }
    return Ok(JArr([]));
  }

  /** `getAttributeValues(type, name, object)`. */
  function AttributeValues(container: string, name: string, obj: Object): (r: Result<Json>)
    ensures !HasKey(obj, container) ==> r == Err(MissingContainer(container))
    ensures r.Ok? ==> r.value.JNull? || r.value.JArr?
  {
    if !HasKey(obj, container) then Err(MissingContainer(container))
    else match Get(obj, container)
      case JArr(items) => FindAttribute(items, name)
      case JNull => Err(NullPointer)
      case _ => Err(ClassCast)
  }

  method GetAttributeValues(container: string, name: string, obj: Object) returns (r: Result<Json>)
    ensures r == AttributeValues(container, name, obj)
  {
    if !HasKey(obj, container) {
      return Err(MissingContainer(container));
    }
    match Get(obj, container)
    case JArr(items) => r := ScanAttributes(items, name);
    case JNull => r := Err(NullPointer);
    case _ => r := Err(ClassCast);
  }

  /**
   * `getChildValues(type, name, submission)`: an attribute list is scanned
   * as above, an object is looked up by `name`, anything else (also `null`)
   * is the value itself.
   */
  function ChildValues(container: string, name: string, obj: Object): (r: Result<Json>)
    ensures !HasKey(obj, container) ==> r == Err(MissingContainer(container))
    ensures HasKey(obj, container) && Get(obj, container).JObj? ==> r == Ok(Get(Get(obj, container).members, name))
  {
    if !HasKey(obj, container) then Err(MissingContainer(container))
    else match Get(obj, container)
      case JArr(items) => FindAttribute(items, name)
      case JObj(ms) => Ok(Get(ms, name))
      case child => Ok(child)
  }

  method GetChildValues(container: string, name: string, obj: Object) returns (r: Result<Json>)
    ensures r == ChildValues(container, name, obj)
  {
    if !HasKey(obj, container) {
      return Err(MissingContainer(container));
    }
    var child := Get(obj, container);
    if child.JArr? {
      r := ScanAttributes(child.items, name);
    } else if child.JObj? {
      r := Ok(Get(child.members, name));
    } else {
      r := Ok(child);
    }
  }

  /** The name of a well-formed attribute entry. */
  function NameOf(entry: Json): string
  {
    if entry.JObj? && Get(entry.members, "name").JStr? then Get(entry.members, "name").s else ""
  }

  /** An attribute list as Kinetic Core returns it: objects with a string name and a list (or `null`) of values. */
  predicate WellFormed(items: seq<Json>)
  {
    forall i :: 0 <= i < |items| ==> Entry(items[i])
  }

  /** One attribute entry: an object with a string name and a list (or `null`) of values. */
  predicate Entry(entry: Json)
  {
    entry.JObj? && Get(entry.members, "name").JStr? &&
    (Get(entry.members, "values").JNull? || Get(entry.members, "values").JArr?)
  }

  /** On a well-formed list, the scan yields the values of the first attribute with the name. */
  lemma {:induction false} AttributeFound(items: seq<Json>, name: string, k: nat)
    requires WellFormed(items) && k < |items| && NameOf(items[k]) == name
    requires forall j :: 0 <= j < k ==> NameOf(items[j]) != name
    ensures FindAttribute(items, name) == Ok(Get(items[k].members, "values"))
    decreases k
  {
    assert Entry(items[0]);
    if k == 0 {
      HereAttribute(items, name);
    } else {
      var rest := items[1..];
      forall i | 0 <= i < |rest|
        ensures Entry(rest[i]) && (i < k - 1 ==> NameOf(rest[i]) != name)
      {
        assert rest[i] == items[i + 1];
      }
      assert FindAttribute(items, name) == FindAttribute(rest, name) by {
        SkipAttribute(items, name);
      }
      AttributeFound(rest, name, k - 1);
    }
  }

  /** A well-formed entry with another name is passed over. */
  lemma SkipAttribute(items: seq<Json>, name: string)
    requires |items| > 0 && Entry(items[0]) && NameOf(items[0]) != name
    ensures FindAttribute(items, name) == FindAttribute(items[1..], name)
  {
  }

  /** A well-formed entry with the name yields its values. */
  lemma HereAttribute(items: seq<Json>, name: string)
    requires |items| > 0 && Entry(items[0]) && NameOf(items[0]) == name
    ensures FindAttribute(items, name) == Ok(Get(items[0].members, "values"))
  {
  }

  /** On a well-formed list without the name, the scan yields the empty list. */
  lemma {:induction false} AttributeAbsent(items: seq<Json>, name: string)
    requires WellFormed(items)
    requires forall j :: 0 <= j < |items| ==> NameOf(items[j]) != name
    ensures FindAttribute(items, name) == Ok(JArr([]))
    decreases |items|
  {
    if |items| > 0 {
      assert forall j :: 0 <= j < |items| - 1 ==> items[1..][j] == items[j + 1];
      AttributeAbsent(items[1..], name);
    }
  }
}
