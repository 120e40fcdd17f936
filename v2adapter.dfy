/**
 * The version 2 adapter's structure table and the decisions it makes
 * before a request: which Kinetic Core resource a bridge structure names
 * (its plural and singular keys, implicit includes and pagination fields),
 * the `include` parameter it adds, and whether the server can page a
 * result in the order the caller asked for.
 */
module V2Adapter {
  import opened Base
  import opened Strings
  import opened Records
  import opened QueryBuilder

  /**
   * A `Mapping`: the implicit includes are kept as a `LinkedHashSet`, the
   * pagination fields as a list that may be `null`.
   */
  datatype Mapping = Mapping(
    structure: string,
    plural: string,
    singular: string,
    implicitIncludes: seq<string>,
    paginationFields: Option<seq<string>>)

  /** The constructors: the implicit includes are copied into a `LinkedHashSet`. */
  function NewMapping(structure: string, plural: string, singular: string,
                      implicitIncludes: seq<string>, paginationFields: Option<seq<string>>): (m: Mapping)
    ensures Distinct(m.implicitIncludes)
    ensures forall x :: x in m.implicitIncludes <==> x in implicitIncludes
    ensures Distinct(implicitIncludes) ==> m.implicitIncludes == implicitIncludes
  {
    var m := Mapping(structure, plural, singular, AddAll([], implicitIncludes), paginationFields);
    assert Distinct(implicitIncludes) ==> m.implicitIncludes == implicitIncludes by {
      if Distinct(implicitIncludes) {
        assert [] + implicitIncludes == implicitIncludes;
        AddAllKeepsDistinct([], implicitIncludes);
      }
    }
    m
  }

  /**
   * `MAPPINGS`: the seven structures and their resources.  No implicit
   * include list repeats a name, so the constructors' set copy keeps each
   * list as written.
   */
  const MAPPINGS: map<string, Mapping> := map[
    "Submissions" := Mapping("Submissions", "submissions", "submission",
      ["values", "details"], Some(["closedAt", "createdAt", "submittedAt", "updatedAt"])),
    "Forms" := Mapping("Forms", "forms", "form",
      ["details", "attributes"], Some(["category", "createdAt", "name", "slug", "updatedAt", "status", "type"])),
    "Users" := Mapping("Users", "users", "user",
      ["attributes", "profileAttributes"], Some(["createdAt", "displayName", "email", "updatedAt", "username"])),
    "Teams" := Mapping("Teams", "teams", "team",
      ["attributes", "memberships", "details"], Some(["created", "localName", "name", "updatedAt"])),
    "Kapps" := Mapping("Kapps", "kapps", "kapp",
      ["details", "attributes"], Some(["createdAt", "name", "slug", "updateAt"])),
    "Datastore Forms" := Mapping("Datastore Forms", "forms", "form",
      ["values", "details"], Some(["createdAt", "name", "slug", "updatedAt", "status"])),
    "Datastore Submissions" := Mapping("Datastore Submissions", "submissions", "submission",
      ["details", "attributes"], None)
  ]

  /** `getMapping`: the table entry, or a `BridgeError` naming an unknown structure. */
  function GetMapping(structure: string): (r: Result<Mapping>)
    ensures r.Ok? <==> structure in MAPPINGS
    ensures r.Err? ==> r.error == UnknownStructure(structure)
    ensures r.Ok? ==> r.value == MAPPINGS[structure]
    ensures r.Ok? ==> r.value.structure == structure && Distinct(r.value.implicitIncludes)
    ensures r.Ok? ==> (r.value.paginationFields.None? <==> structure == "Datastore Submissions")
  {
    MappingsFacts(structure);
    if structure in MAPPINGS then Ok(MAPPINGS[structure]) else Err(UnknownStructure(structure))
  }

  /**
   * The table knows exactly the seven structures, each entry names its own
   * structure, and only "Datastore Submissions" has no pagination fields.
   */
  lemma MappingsFacts(structure: string)
    ensures MAPPINGS.Keys ==
      {"Submissions", "Forms", "Users", "Teams", "Kapps", "Datastore Forms", "Datastore Submissions"}
    ensures structure in MAPPINGS ==> MAPPINGS[structure].structure == structure
    ensures structure in MAPPINGS ==>
      (MAPPINGS[structure].paginationFields.None? <==> structure == "Datastore Submissions")
    ensures structure in MAPPINGS ==> Distinct(MAPPINGS[structure].implicitIncludes)
    ensures structure in MAPPINGS ==> MAPPINGS[structure] == NewMapping(structure, MAPPINGS[structure].plural,
      MAPPINGS[structure].singular, MAPPINGS[structure].implicitIncludes, MAPPINGS[structure].paginationFields)
  {
  }

  /*
   * `addImplicitIncludes`.  When the caller gave an `include`, the source
   * builds the union of its items and the implicit includes in a local set
   * and then drops it: the parameters come back unchanged.
   * `AddImplicitIncludes` is that code as written; `AddImplicitIncludesMerged`
   * stores the union, as the version 2 `buildQuery` does.
   */

  /** `addImplicitIncludes` as written. */
  function AddImplicitIncludes(params: Params, implicit: seq<string>): (r: Params)
    ensures "include" in Keys(params) ==> r == params
    ensures "include" !in Keys(params) ==> Keys(r) == Keys(params) + ["include"]
  {
    if "include" in Keys(params) then params
    else Put(params, "include", Join(implicit, ","))
  }

  /** `addImplicitIncludes` with the merged set stored back into the parameters. */
  function AddImplicitIncludesMerged(params: Params, implicit: seq<string>): (r: Params)
    ensures Keys(r) == if "include" in Keys(params) then Keys(params) else Keys(params) + ["include"]
  {
    match Lookup(params, "include")
    case Some(v) => Put(params, "include", MergedInclude(v, implicit))
    case None => Put(params, "include", Join(implicit, ","))
  }

  /**
   * As written, a caller's `include` is sent as given, and a missing one
   * becomes the implicit includes; every other parameter is unchanged.
   */
  lemma AddImplicitIncludesFacts(params: Params, implicit: seq<string>, name: string)
    ensures Lookup(AddImplicitIncludes(params, implicit), "include") ==
      if "include" in Keys(params) then Lookup(params, "include") else Some(Join(implicit, ","))
    ensures name != "include" ==> Lookup(AddImplicitIncludes(params, implicit), name) == Lookup(params, name)
  {
    if name != "include" && "include" !in Keys(params) {
      PutOther(params, "include", Join(implicit, ","), name);
    }
  }

  /** As written, the implicit includes are lost when the caller names any include. */
  lemma ImplicitIncludesDropped()
    ensures AddImplicitIncludes([("include", "fields")], ["details", "attributes"]) == [("include", "fields")]
    ensures MergedInclude("fields", ["details", "attributes"]) == "fields,details,attributes"
  {
    var params: Params := [("include", "fields")];
    assert Keys(params) == ["include"];
    MergedIncludeExamples();
  }

  /**
   * With the union stored, the adapter's `include` is the one the version 2
   * `buildQuery` sends for the same parameters, and nothing else changes.
   */
  lemma MergedIncludeMatchesQuery(params: Params, implicit: seq<string>, defaultLimit: bool, name: string)
    requires Distinct(Keys(params))
    ensures Query(params, implicit, defaultLimit).Ok?
    ensures Lookup(AddImplicitIncludesMerged(params, implicit), "include") ==
      Lookup(Query(params, implicit, defaultLimit).value, "include")
    ensures name != "include" ==> Lookup(AddImplicitIncludesMerged(params, implicit), name) == Lookup(params, name)
  {
    QueryInclude(params, implicit, defaultLimit);
    if name != "include" {
      match Lookup(params, "include")
      case Some(v) => PutOther(params, "include", MergedInclude(v, implicit), name);
      case None => PutOther(params, "include", Join(implicit, ","), name);
    }
  }

  /*
   * The three `paginationSupported` overloads.  Each reads the mapping's
   * pagination fields, passed here as `fields`.
   */

  /** The lower-cased directions of the order items: the stream's `collect(toSet())`. */
  function DirectionSet(items: seq<(string, string)>): set<string>
  {
    set i | 0 <= i < |items| :: AsciiLower(items[i].1)
  }

  /** All order items have the same direction, ignoring case. */
  predicate SameDirection(items: seq<(string, string)>)
  {
    forall i, j :: 0 <= i < |items| && 0 <= j < |items| ==> EqualsIgnoreCase(items[i].1, items[j].1)
  }

  /** The set of lower-cased directions has at most one member exactly when every direction agrees. */
  lemma DirectionSetSize(items: seq<(string, string)>)
    ensures |DirectionSet(items)| <= 1 <==> SameDirection(items)
  {
    var d := DirectionSet(items);
    if SameDirection(items) && |items| > 0 {
      assert d == {AsciiLower(items[0].1)} by {
        forall x | x in d ensures x == AsciiLower(items[0].1) {
          var i :| 0 <= i < |items| && x == AsciiLower(items[i].1);
          assert EqualsIgnoreCase(items[i].1, items[0].1);
        }
        assert AsciiLower(items[0].1) in d;
      }
    } else if SameDirection(items) {
      assert d == {};
    } else {
      var i, j :| 0 <= i < |items| && 0 <= j < |items| && !EqualsIgnoreCase(items[i].1, items[j].1);
      var x, y := AsciiLower(items[i].1), AsciiLower(items[j].1);
      assert x in d && y in d && x != y;
      assert {x, y} <= d;
      assert |{x, y}| == 2;
      SubsetSize({x, y}, d);
    }
  }

  lemma SubsetSize<T>(a: set<T>, b: set<T>)
    requires a <= b
    ensures |a| <= |b|
  {
    assert b == a + (b - a);
  }

  /** The order's fields are the pagination fields, position by position, ignoring case. */
  predicate FieldsMatch(fields: seq<string>, items: seq<(string, string)>)
  {
    |items| == |fields| && forall i :: 0 <= i < |fields| ==> EqualsIgnoreCase(fields[i], items[i].0)
  }

  /**
   * `paginationSupported(mapping, sortOrderItems)`: one direction for all
   * items, and the ordered fields are the pagination fields in the same
   * order and number, ignoring case.
   */
  method PaginationSupportedByOrder(fields: seq<string>, items: seq<(string, string)>) returns (supported: bool)
    ensures supported <==> SameDirection(items) && FieldsMatch(fields, items)
  {
    supported := |DirectionSet(items)| <= 1;
    DirectionSetSize(items);
    if |items| == |fields| && supported {
      var idx := 0;
      while idx < |items|
        invariant 0 <= idx <= |items|
        invariant forall i :: 0 <= i < idx ==> EqualsIgnoreCase(fields[i], items[i].0)
      {
        if !EqualsIgnoreCase(fields[idx], items[idx].0) {
          supported := false;
          break;
        }
        idx := idx + 1;
      }
    } else {
      supported := false;
    }
  }

  /** How many of the pagination fields (counted by position) occur in the query text. */
  function Hits(fields: seq<string>, query: string): nat
    decreases |fields|
  {
    if |fields| == 0 then 0
    else Hits(fields[..|fields| - 1], query) + (if Contains(query, fields[|fields| - 1]) then 1 else 0)
  }

  /** No field occurs in the query exactly when the count is zero. */
  lemma {:induction false} HitsZero(fields: seq<string>, query: string)
    ensures Hits(fields, query) == 0 <==> forall i :: 0 <= i < |fields| ==> !Contains(query, fields[i])
    decreases |fields|
  {
    if |fields| > 0 {
      var n := |fields| - 1;
      HitsZero(fields[..n], query);
      assert forall i :: 0 <= i < n ==> fields[..n][i] == fields[i];
    }
  }

  /** The count is one exactly when a single position holds a field that occurs in the query. */
  lemma HitsOne(fields: seq<string>, query: string)
    ensures Hits(fields, query) == 1 <==>
      exists i :: 0 <= i < |fields| && Contains(query, fields[i]) &&
        forall j :: 0 <= j < |fields| && j != i ==> !Contains(query, fields[j])
  {
    if Hits(fields, query) == 1 {
      var i := OneHitAt(fields, query);
      assert OnlyHit(fields, query, i);
    } else {
      forall i | 0 <= i < |fields| && Contains(query, fields[i])
        ensures exists j :: 0 <= j < |fields| && j != i && Contains(query, fields[j])
      {
        if OnlyHit(fields, query, i) {
          OnlyHitCounts(fields, query, i);
        }
      }
    }
  }

  /** Position `i` holds the only field that occurs in the query. */
  predicate OnlyHit(fields: seq<string>, query: string, i: int)
  {
    0 <= i < |fields| && Contains(query, fields[i]) &&
    forall j :: 0 <= j < |fields| && j != i ==> !Contains(query, fields[j])
  }

  /** A count of one has its hit at some position. */
  lemma {:induction false} OneHitAt(fields: seq<string>, query: string) returns (i: int)
    requires Hits(fields, query) == 1
    ensures OnlyHit(fields, query, i)
    decreases |fields|
  {
    var n := |fields| - 1;
    var init := fields[..n];
    assert forall j :: 0 <= j < n ==> init[j] == fields[j];
    if Contains(query, fields[n]) {
      HitsZero(init, query);
      i := n;
    } else {
      i := OneHitAt(init, query);
    }
  }

  /** A single hit counts one. */
  lemma {:induction false} OnlyHitCounts(fields: seq<string>, query: string, i: int)
    requires OnlyHit(fields, query, i)
    ensures Hits(fields, query) == 1
    decreases |fields|
  {
    var n := |fields| - 1;
    var init := fields[..n];
    assert forall j :: 0 <= j < n ==> init[j] == fields[j];
    if i == n {
      HitsZero(init, query);
    } else {
      assert OnlyHit(init, query, i);
      OnlyHitCounts(init, query, i);
    }
  }

  /** The count over a prefix never exceeds the count over the whole list. */
  lemma {:induction false} HitsPrefix(fields: seq<string>, k: nat, query: string)
    requires k <= |fields|
    ensures Hits(fields[..k], query) <= Hits(fields, query)
    decreases |fields| - k
  {
    if k < |fields| {
      var n := |fields| - 1;
      assert fields[..n][..k] == fields[..k];
      HitsPrefix(fields[..n], k, query);
    } else {
      assert fields[..k] == fields;
    }
  }

  /**
   * `paginationSupported(mapping, queryString, paginationField)`: exactly one
   * pagination field occurs in the query.  The `field` argument is not read.
   */
  method PaginationSupportedForField(fields: seq<string>, query: string, field: string) returns (supported: bool)
    ensures supported <==>
      exists i :: 0 <= i < |fields| && Contains(query, fields[i]) &&
        forall j :: 0 <= j < |fields| && j != i ==> !Contains(query, fields[j])
  {
    supported := false;
    var k := 0;
    while k < |fields|
      invariant 0 <= k <= |fields|
      invariant supported <==> Hits(fields[..k], query) == 1
      invariant !supported ==> Hits(fields[..k], query) == 0
    {
      assert fields[..k + 1][..k] == fields[..k];
      if supported && Contains(query, fields[k]) {
        supported := false;
        HitsPrefix(fields, k + 1, query);
        assert Hits(fields, query) >= 2;
        break;
      } else if Contains(query, fields[k]) {
        supported := true;
      }
      k := k + 1;
    }
    if k == |fields| {
      assert fields[..k] == fields;
    }
    HitsOne(fields, query);
  }

  /** `paginationSupported(mapping, queryString)`: some pagination field occurs in the query. */
  method PaginationSupportedForQuery(fields: seq<string>, query: string) returns (supported: bool)
    ensures supported <==> exists i :: 0 <= i < |fields| && Contains(query, fields[i])
  {
    supported := false;
    var k := 0;
    while k < |fields|
      invariant 0 <= k <= |fields|
      invariant supported <==> exists i :: 0 <= i < k && Contains(query, fields[i])
    {
      if Contains(query, fields[k]) {
        supported := true;
      }
      k := k + 1;
    }
  }

  /** An occurrence at a known position is an occurrence. */
  lemma {:induction false} ContainsAt(s: string, p: string, k: nat)
    requires k + |p| <= |s| && s[k..k + |p|] == p
    ensures Contains(s, p)
    decreases k
  {
    if k > 0 {
      assert s[1..][k - 1..k - 1 + |p|] == s[k..k + |p|];
      ContainsAt(s[1..], p, k - 1);
    }
  }

  /** Every character of an occurring text occurs in the text it occurs in. */
  lemma {:induction false} ContainsChar(s: string, p: string, i: nat)
    requires Contains(s, p) && i < |p|
    ensures p[i] in s
    decreases |s|
  {
    if IsPrefix(p, s) {
      assert s[i] == p[i];
    } else {
      ContainsChar(s[1..], p, i);
    }
  }

  /** A text occurs in anything that has it between two other texts. */
  lemma ContainsInfix(a: string, p: string, b: string)
    ensures Contains(a + p + b, p)
  {
    var s := a + p + b;
    assert s[|a|..|a| + |p|] == p;
    ContainsAt(s, p, |a|);
  }

  /**
   * The helper test's order cases: matching fields in one direction are
   * supported; mixed directions, a different number of fields and a
   * different field order are not.
   */
  lemma OrderExamples()
    ensures SameDirection([("values[Status]", "ASC")])
    ensures FieldsMatch(["values[Status]"], [("values[Status]", "ASC")])
    ensures SameDirection([("values[Status]", "ASC"), ("values[Related Id]", "ASC")])
    ensures FieldsMatch(["values[Status]", "values[Related Id]"], [("values[Status]", "ASC"), ("values[Related Id]", "ASC")])
    ensures !SameDirection([("values[Status]", "ASC"), ("values[Related Id]", "DESC")])
    ensures !FieldsMatch(["values[Status]", "values[Related Id]"], [("values[Status]", "ASC")])
    ensures !FieldsMatch(["values[Status]", "values[Related Id]"], [("values[Related Id]", "ASC"), ("values[Status]", "ASC")])
  {
    var mixed := [("values[Status]", "ASC"), ("values[Related Id]", "DESC")];
    assert !EqualsIgnoreCase(mixed[0].1, mixed[1].1) by {
      assert |AsciiLower("ASC")| != |AsciiLower("DESC")|;
    }
    var swapped := [("values[Related Id]", "ASC"), ("values[Status]", "ASC")];
    assert !EqualsIgnoreCase("values[Status]", swapped[0].0) by {
      assert |AsciiLower("values[Status]")| != |AsciiLower("values[Related Id]")|;
    }
  }

  /** The helper test's query cases: a field named in the query is found, and a query without one finds none. */
  lemma QueryFieldExamples()
    ensures Hits(["createdAt"], "kapps/services/submissions?timeline=createdAt&direction=DESC") == 1
    ensures Hits(["createdAt"], "kapps/services/submissions") == 0
  {
    HitsSingle("createdAt", "kapps/services/submissions?timeline=createdAt&direction=DESC");
    HitsSingle("createdAt", "kapps/services/submissions");
    QueryWithTimeline();
    QueryWithoutTimeline();
  }

  lemma HitsSingle(field: string, query: string)
    ensures Hits([field], query) == if Contains(query, field) then 1 else 0
  {
    assert [field][..0] == [];
  }

  lemma QueryWithTimeline()
    ensures Contains("kapps/services/submissions?timeline=createdAt&direction=DESC", "createdAt")
  {
    var before, after := "kapps/services/submissions?timeline=", "&direction=DESC";
    ContainsInfix(before, "createdAt", after);
    assert before + "createdAt" + after == "kapps/services/submissions?timeline=createdAt&direction=DESC";
  }

  lemma QueryWithoutTimeline()
    ensures !Contains("kapps/services/submissions", "createdAt")
  {
    var short := "kapps/services/submissions";
    assert "createdAt"[7] == 'A' && 'A' !in short;
    if Contains(short, "createdAt") {
      ContainsChar(short, "createdAt", 7);
      assert false;
    }
  }

  /**
   * For "Datastore Submissions" the pagination fields are the `index`
   * parameter split on commas, white space around each comma dropped; a
   * missing `index` is a `NullPointerException`.
   */
  function IndexFields(params: Params): (r: Result<seq<string>>)
    ensures r.Err? <==> "index" !in Keys(params)
    ensures r.Err? ==> r.error == NullPointer
    ensures r.Ok? ==> forall i :: 0 <= i < |r.value| ==> ',' !in r.value[i]
  {
    match Lookup(params, "index")
    case None => Err(NullPointer)
    case Some(v) => Ok(SplitCommaList(v))
  }

  /** An index written as plain names joined by commas gives those names back. */
  lemma IndexFieldsJoin(params: Params, names: seq<string>)
    requires |names| >= 1 && PlainItems(names)
    requires Lookup(params, "index") == Some(Join(names, ","))
    ensures IndexFields(params) == Ok(names)
  {
    SplitCommaListJoin(names);
  }
}
