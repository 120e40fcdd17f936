/**
 * `createRecordsFromUsers`, `createRecordsFromForms` and the version 1 API
 * helper's `createRecords`: each returned object becomes a record holding
 * one value per requested field.  A field containing `container[key]`
 * (found anywhere in the name) takes the attribute's value list written as
 * JSON text; any other field takes the object's value, a string as it is
 * and anything else as JSON text; `null` and absent values stay `null`.
 */
module Projection {
  import opened Base
  import opened Strings
  import opened Json
  import opened Records
  import opened Brackets
  import opened Attributes

  /** The record value of one requested field. */
  function FieldValue(field: string, obj: Object): (r: Result<Option<string>>)
    ensures FindBracket(field).None? ==> r == Ok(Stringify(Get(obj, field)))
  {
    match FindBracket(field)
    case Some(g) =>
      var values :- AttributeValues(g.0, g.1, obj);
      Ok(Stringify(values))
    case None => Ok(Stringify(Get(obj, field)))
  }

  /** Each requested field's record value in one object. */
  function Values(obj: Object): string -> Result<Option<string>>
  {
    f => FieldValue(f, obj)
  }

  /** The record of one object: the fields put into a `LinkedHashMap` in request order. */
  function Project(fields: seq<string>, obj: Object): Result<Record>
  {
    Build(fields, Values(obj))
  }

  /** The records of all objects, in order; the first failure stops the whole call. */
  function ProjectAll(fields: seq<string>, objs: seq<Object>): (r: Result<seq<Record>>)
    ensures r.Ok? ==> |r.value| == |objs|
    decreases |objs|
  {
    if |objs| == 0 then Ok([])
    else
      var n := |objs| - 1;
      var records :- ProjectAll(fields, objs[..n]);
      var record :- Project(fields, objs[n]);
      Ok(records + [record])
  }

  /** The loops of `createRecords`: over the objects, and for each over the fields. */
  method CreateRecords(fields: seq<string>, objs: seq<Object>) returns (r: Result<seq<Record>>)
    ensures r == ProjectAll(fields, objs)
  {
    var records: seq<Record> := [];
    var i := 0;
    while i < |objs|
      invariant 0 <= i <= |objs|
      invariant ProjectAll(fields, objs[..i]) == Ok(records)
    {
      ProjectAllStep(fields, objs, i);
      var record := ProjectObject(fields, objs[i]);
      if record.Err? {
        return Err(record.error);
      }
      records := records + [record.value];
      i := i + 1;
    }
    assert objs[..|objs|] == objs;
    return Ok(records);
  }

  /** One more object: its record is appended, or its failure ends the call. */
  lemma ProjectAllStep(fields: seq<string>, objs: seq<Object>, i: nat)
    requires i < |objs| && ProjectAll(fields, objs[..i]).Ok?
    ensures Project(fields, objs[i]).Err? ==> ProjectAll(fields, objs) == Err(Project(fields, objs[i]).error)
    ensures Project(fields, objs[i]).Ok? ==>
      ProjectAll(fields, objs[..i + 1]) == Ok(ProjectAll(fields, objs[..i]).value + [Project(fields, objs[i]).value])
  {
    assert objs[..i + 1][..i] == objs[..i];
    assert objs[..i + 1][i] == objs[i];
    if Project(fields, objs[i]).Err? {
      PrefixErr(fields, objs, i + 1);
    }
  }

  /** The inner loop of `createRecords`: the fields of one object put into its record in order. */
  method ProjectObject(fields: seq<string>, obj: Object) returns (r: Result<Record>)
    ensures r == Project(fields, obj)
  {
    var record: Record := [];
    var j := 0;
    while j < |fields|
      invariant 0 <= j <= |fields|
      invariant Project(fields[..j], obj) == Ok(record)
    {
      var value: Option<string>;
      var g := FindBracket(fields[j]);
      if g.Some? {
        var values := GetAttributeValues(g.value.0, g.value.1, obj);
        if values.Err? {
          ProjectErr(fields, j, obj);
          return Err(values.error);
        }
        value := Stringify(values.value);
      } else {
        value := Stringify(Get(obj, fields[j]));
      }
      assert Values(obj)(fields[j]) == Ok(value);
      BuildStep(fields, Values(obj), j);
      record := Put(record, fields[j], value);
      j := j + 1;
    }
    assert fields[..|fields|] == fields;
    return Ok(record);
  }

  /** A field whose value fails makes the whole record fail, with that field's error. */
  lemma ProjectErr(fields: seq<string>, j: nat, obj: Object)
    requires j < |fields| && Project(fields[..j], obj).Ok? && FieldValue(fields[j], obj).Err?
    ensures Project(fields, obj) == Err(FieldValue(fields[j], obj).error)
  {
    assert Values(obj)(fields[j]) == FieldValue(fields[j], obj);
    BuildErr(fields, Values(obj), j);
  }

  /** Once a prefix of the objects fails, the whole call fails with the same error. */
  lemma {:induction false} PrefixErr(fields: seq<string>, objs: seq<Object>, k: nat)
    requires k <= |objs| && ProjectAll(fields, objs[..k]).Err?
    ensures ProjectAll(fields, objs) == ProjectAll(fields, objs[..k])
    decreases |objs| - k
  {
    if k < |objs| {
      assert objs[..k + 1][..k] == objs[..k];
      assert ProjectAll(fields, objs[..k + 1]) == ProjectAll(fields, objs[..k]);
      PrefixErr(fields, objs, k + 1);
    } else {
      assert objs[..k] == objs;
    }
  }

  /**
   * A record's keys are exactly the requested fields, each once, in the
   * order of their first request, and each holds its own field's value.
   */
  lemma ProjectFacts(fields: seq<string>, obj: Object)
    requires Project(fields, obj).Ok?
    ensures Keys(Project(fields, obj).value) == AddAll([], fields)
    ensures forall f :: f in fields ==>
      FieldValue(f, obj).Ok? && Lookup(Project(fields, obj).value, f) == Some(FieldValue(f, obj).value)
  {
    BuildFacts(fields, Values(obj));
    forall f | f in fields
      ensures Values(obj)(f) == FieldValue(f, obj)
    {
    }
  }

  /** The record fails only when some field's value fails. */
  lemma ProjectOk(fields: seq<string>, obj: Object)
    requires forall f :: f in fields ==> FieldValue(f, obj).Ok?
    ensures Project(fields, obj).Ok?
  {
    forall i | 0 <= i < |fields|
      ensures Values(obj)(fields[i]).Ok?
    {
      assert fields[i] in fields;
    }
    BuildOk(fields, Values(obj));
  }

  /** The i-th record is the i-th object's record. */
  lemma {:induction false} ProjectAllAt(fields: seq<string>, objs: seq<Object>, i: nat)
    requires ProjectAll(fields, objs).Ok? && i < |objs|
    ensures Project(fields, objs[i]).Ok?
    ensures ProjectAll(fields, objs).value[i] == Project(fields, objs[i]).value
    decreases |objs|
  {
    var n := |objs| - 1;
    ProjectAllSnoc(fields, objs);
    var init := ProjectAll(fields, objs[..n]).value;
    assert ProjectAll(fields, objs).value == init + [Project(fields, objs[n]).value];
    if i < n {
      assert objs[..n][i] == objs[i];
      ProjectAllAt(fields, objs[..n], i);
      assert (init + [Project(fields, objs[n]).value])[i] == init[i];
      assert Project(fields, objs[..n][i]).Ok?;
    } else {
      assert i == n;
    }
  }

  /** A successful projection is the projection of all but the last object, then the last object's record. */
  lemma ProjectAllSnoc(fields: seq<string>, objs: seq<Object>)
    requires ProjectAll(fields, objs).Ok? && |objs| > 0
    ensures ProjectAll(fields, objs[..|objs| - 1]).Ok? && Project(fields, objs[|objs| - 1]).Ok?
    ensures ProjectAll(fields, objs).value ==
      ProjectAll(fields, objs[..|objs| - 1]).value + [Project(fields, objs[|objs| - 1]).value]
  {
  }

  /** `container[key]` takes the attribute's value list as JSON text, `null` when the list is `null`. */
  lemma AttributeFieldValue(container: string, key: string, obj: Object)
    requires '[' !in container && ']' !in key && NoBreak(container) && NoBreak(key)
    ensures var field := container + "[" + key + "]";
      FieldValue(field, obj) ==
        match AttributeValues(container, key, obj)
        case Ok(v) => Ok(if v.JNull? then None else Some(JsonText(v)))
        case Err(e) => Err(e)
  {
    FindBracketField(container, key);
  }

  /** A field without `[` takes the object's own value. */
  lemma PlainFieldValue(field: string, obj: Object)
    requires '[' !in field
    ensures FieldValue(field, obj) == Ok(Stringify(Get(obj, field)))
  {
    PlainField(field);
  }
}
