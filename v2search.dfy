/**
 * The parameters the version 2 adapter sends for `count`, `retrieve` and
 * `search`, and the `search` decision whether the server can honour the
 * requested order (`paginationSupported`).  When it cannot, or when the
 * caller gave no `limit`, the caller's limit is remembered and the request
 * asks for 1000 results.
 *
 * The order is the already-parsed `order` metadata: its fields with their
 * directions, in order.
 */
module V2Search {
  import opened Base
  import opened Strings
  import opened Records
  import opened QueryBuilder
  import opened V2Adapter

  /** What `search` sends and remembers: the parameters, the caller's limit and whether the server pages in order. */
  datatype Plan = Plan(params: Params, limit: Option<string>, supported: bool)

  /** The structures whose order is checked against the query's own ordering field. */
  predicate Timeline(structure: string)
  {
    structure == "Submissions" || structure == "Users" || structure == "Teams"
  }

  /**
   * The server honours the order, as written: for "Datastore Submissions"
   * the order must be the `index` fields; for a timeline structure the
   * query is checked only when the order does NOT have exactly one item
   * (and an empty order has no first item); for any other structure some
   * pagination field must occur in the query.
   */
  function SupportedAsWritten(structure: string, mapping: Mapping, params: Params, query: string,
                              order: Option<seq<(string, string)>>): (r: Result<bool>)
    ensures order.None? ==> r == Ok(false)
    ensures order.Some? && Timeline(structure) && |order.value| == 1 ==> r == Ok(false)
  {
    match order
    case None => Ok(false)
    case Some(items) =>
      if structure == "Datastore Submissions" then
        var fields :- IndexFields(params);
        Ok(SameDirection(items) && FieldsMatch(fields, items))
      else if Timeline(structure) then
        if |items| == 1 then Ok(false)
        else if |items| == 0 then Err(NoSuchElement)
        else if mapping.paginationFields.None? then Err(NullPointer)
        else Ok(Hits(mapping.paginationFields.value, query) == 1)
      else if mapping.paginationFields.None? then Err(NullPointer)
      else Ok(Hits(mapping.paginationFields.value, query) >= 1)
  }

  /**
   * The same decision with the timeline guard the other way round: the
   * query is checked for the order's only item, and an order of any other
   * length is not supported.
   */
  function Supported(structure: string, mapping: Mapping, params: Params, query: string,
                     order: Option<seq<(string, string)>>): (r: Result<bool>)
    ensures order.None? ==> r == Ok(false)
    ensures order.Some? && Timeline(structure) && |order.value| != 1 ==> r == Ok(false)
    ensures order.Some? && structure != "Datastore Submissions" && !Timeline(structure) ==>
      r == SupportedAsWritten(structure, mapping, params, query, order)
  {
    match order
    case None => Ok(false)
    case Some(items) =>
      if structure == "Datastore Submissions" then
        var fields :- IndexFields(params);
        Ok(SameDirection(items) && FieldsMatch(fields, items))
      else if Timeline(structure) then
        if |items| != 1 then Ok(false)
        else if mapping.paginationFields.None? then Err(NullPointer)
        else Ok(Hits(mapping.paginationFields.value, query) == 1)
      else if mapping.paginationFields.None? then Err(NullPointer)
      else Ok(Hits(mapping.paginationFields.value, query) >= 1)
  }

  /**
   * For the structures of the table, the decision fails only when a
   * "Datastore Submissions" order comes without an `index`, and it is the
   * matching rule of that structure otherwise.
   */
  lemma SupportedFacts(structure: string, params: Params, query: string, items: seq<(string, string)>)
    requires structure in MAPPINGS
    ensures var r := Supported(structure, MAPPINGS[structure], params, query, Some(items));
      && (r.Err? <==> structure == "Datastore Submissions" && "index" !in Keys(params))
      && (structure == "Datastore Submissions" && r.Ok? ==>
            (r.value <==> SameDirection(items) && FieldsMatch(IndexFields(params).value, items)))
      && (Timeline(structure) ==>
            (r == Ok(true) <==> |items| == 1 && Hits(MAPPINGS[structure].paginationFields.value, query) == 1))
      && (structure != "Datastore Submissions" && !Timeline(structure) ==>
            (r == Ok(true) <==> Hits(MAPPINGS[structure].paginationFields.value, query) >= 1))
  {
    MappingsFacts(structure);
  }

  /**
   * The as-written guard: a one-item order on a timeline structure is never
   * checked against the query, even when the query names exactly that
   * field, and an empty order fails.
   */
  lemma TimelineGuardInverted(query: string)
    requires Contains(query, "createdAt")
    requires forall f :: f in ["closedAt", "submittedAt", "updatedAt"] ==> !Contains(query, f)
    ensures SupportedAsWritten("Submissions", MAPPINGS["Submissions"], [], query, Some([("createdAt", "ASC")])) == Ok(false)
    ensures Supported("Submissions", MAPPINGS["Submissions"], [], query, Some([("createdAt", "ASC")])) == Ok(true)
    ensures SupportedAsWritten("Submissions", MAPPINGS["Submissions"], [], query, Some([])).Err?
  {
    var fields := ["closedAt", "createdAt", "submittedAt", "updatedAt"];
    assert MAPPINGS["Submissions"].paginationFields == Some(fields);
    assert Hits(fields, query) == 1 by {
      HitsOne(fields, query);
      assert forall j :: 0 <= j < |fields| && j != 1 ==> fields[j] in ["closedAt", "submittedAt", "updatedAt"];
    }
  }

  /**
   * `search`: the server's decision, then `limit` set to 1000 unless the
   * server pages in order and the caller gave a limit (the caller's limit
   * is remembered whenever it is replaced), then the implicit includes.
   */
  function SearchPlan(structure: string, params: Params, query: string,
                      order: Option<seq<(string, string)>>): (r: Result<Plan>)
    ensures r.Err? ==> structure !in MAPPINGS || (structure == "Datastore Submissions" && order.Some?)
  {
    var mapping :- GetMapping(structure);
    var supported :- Supported(structure, mapping, params, query, order);
    var replace := !supported || "limit" !in Keys(params);
    var limit := if replace then Lookup(params, "limit") else None;
    var limited := if replace then Put(params, "limit", DefaultLimit) else params;
    Ok(Plan(AddImplicitIncludesMerged(limited, mapping.implicitIncludes), limit, supported))
  }

  /**
   * The limit sent is the caller's only when the server pages in order and
   * the caller gave one, and 1000 otherwise; the remembered limit is the
   * caller's (possibly `null`) exactly when it was replaced.
   */
  lemma SearchPlanLimit(structure: string, params: Params, query: string, order: Option<seq<(string, string)>>)
    requires SearchPlan(structure, params, query, order).Ok?
    ensures var p := SearchPlan(structure, params, query, order).value;
      && Lookup(p.params, "limit") ==
           (if p.supported && "limit" in Keys(params) then Lookup(params, "limit") else Some(DefaultLimit))
      && p.limit == (if p.supported && "limit" in Keys(params) then None else Lookup(params, "limit"))
  {
    var mapping := GetMapping(structure).value;
    var p := SearchPlan(structure, params, query, order).value;
    var replace := !p.supported || "limit" !in Keys(params);
    var limited := if replace then Put(params, "limit", DefaultLimit) else params;
    IncludeLeavesOthers(limited, mapping.implicitIncludes, "limit");
  }

  /** Without an order the server is never asked to page in order, so 1000 results are requested. */
  lemma SearchWithoutOrder(structure: string, params: Params, query: string)
    requires structure in MAPPINGS
    ensures SearchPlan(structure, params, query, None).Ok?
    ensures !SearchPlan(structure, params, query, None).value.supported
    ensures Lookup(SearchPlan(structure, params, query, None).value.params, "limit") == Some(DefaultLimit)
  {
    SearchPlanLimit(structure, params, query, None);
  }

  /** Every parameter other than `limit` and `include` is sent as the caller wrote it. */
  lemma SearchPlanPassThrough(structure: string, params: Params, query: string,
                              order: Option<seq<(string, string)>>, name: string)
    requires SearchPlan(structure, params, query, order).Ok?
    requires name != "limit" && name != "include"
    ensures Lookup(SearchPlan(structure, params, query, order).value.params, name) == Lookup(params, name)
  {
    var mapping := GetMapping(structure).value;
    var p := SearchPlan(structure, params, query, order).value;
    var replace := !p.supported || "limit" !in Keys(params);
    var limited := if replace then Put(params, "limit", DefaultLimit) else params;
    IncludeLeavesOthers(limited, mapping.implicitIncludes, name);
    if replace {
      PutOther(params, "limit", DefaultLimit, name);
    }
  }

  /** Storing the merged `include` changes no other parameter. */
  lemma IncludeLeavesOthers(params: Params, implicit: seq<string>, name: string)
    requires name != "include"
    ensures Lookup(AddImplicitIncludesMerged(params, implicit), name) == Lookup(params, name)
  {
    match Lookup(params, "include")
    case Some(v) => PutOther(params, "include", MergedInclude(v, implicit), name);
    case None => PutOther(params, "include", Join(implicit, ","), name);
  }

  /** `count`: `limit` is 1000 unless the caller gave one; nothing else changes. */
  function CountParams(params: Params): (r: Params)
    ensures Keys(r) == if "limit" in Keys(params) then Keys(params) else Keys(params) + ["limit"]
    ensures Lookup(r, "limit") == if "limit" in Keys(params) then Lookup(params, "limit") else Some(DefaultLimit)
  {
    if "limit" in Keys(params) then params else Put(params, "limit", DefaultLimit)
  }

  /** `count` leaves every parameter other than `limit` alone. */
  lemma CountParamsPassThrough(params: Params, name: string)
    requires name != "limit"
    ensures Lookup(CountParams(params), name) == Lookup(params, name)
  {
    if "limit" !in Keys(params) {
      PutOther(params, "limit", DefaultLimit, name);
    }
  }

  /** `retrieve`: the structure's mapping, then its implicit includes. */
  function RetrieveParams(structure: string, params: Params): (r: Result<Params>)
    ensures r.Ok? <==> structure in MAPPINGS
    ensures r.Ok? ==> Keys(r.value) == if "include" in Keys(params) then Keys(params) else Keys(params) + ["include"]
  {
    var mapping :- GetMapping(structure);
    Ok(AddImplicitIncludesMerged(params, mapping.implicitIncludes))
  }
}
