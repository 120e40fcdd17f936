/**
 * What the version 1 submission, datastore record and user helpers do with
 * the records of a search once the server has answered: sort them locally
 * when every result came back on one page (by the requested `order`, or by
 * every requested field ascending), otherwise leave them in server order
 * and say so in a `warning`; and, for users, which `include` the request
 * asks for so that the projected fields are present in the answer.
 */
module V1Search {
  import opened Base
  import opened Strings
  import opened Json
  import opened Records
  import opened Sorting
  import opened Ordering
  import opened Brackets
  import opened Projection

  /**
   * The order used when the request has no `order` metadata: each field put
   * into a `LinkedHashMap` with `ASC`, so a repeated field keeps its first place.
   */
  function DefaultOrder(fields: seq<string>): (order: Order)
    decreases |fields|
  {
    if |fields| == 0 then []
    else
      var n := |fields| - 1;
      Put(DefaultOrder(fields[..n]), fields[n], Asc)
  }

  /** Every entry of a `Put`-built map of directions is ascending when all puts were. */
  lemma {:induction false} DefaultOrderFacts(fields: seq<string>)
    ensures Keys(DefaultOrder(fields)) == AddAll([], fields)
    ensures forall i :: 0 <= i < |DefaultOrder(fields)| ==> DefaultOrder(fields)[i].1 == Asc
    decreases |fields|
  {
    if |fields| > 0 {
      var n := |fields| - 1;
      var init := fields[..n];
      var prev := DefaultOrder(init);
      assert DefaultOrder(fields) == Put(prev, fields[n], Asc);
      assert Keys(prev) == AddAll([], init) && forall i :: 0 <= i < |prev| ==> prev[i].1 == Asc by {
        DefaultOrderFacts(init);
      }
      AddAllLast(fields);
      PutAscending(prev, fields[n]);
    }
  }

  /** Putting an ascending entry into an all-ascending order keeps it all-ascending. */
  lemma {:induction false} PutAscending(order: Order, f: string)
    requires forall i :: 0 <= i < |order| ==> order[i].1 == Asc
    ensures forall i :: 0 <= i < |Put(order, f, Asc)| ==> Put(order, f, Asc)[i].1 == Asc
    decreases |order|
  {
    if |order| > 0 && order[0].0 != f {
      PutAscending(order[1..], f);
      var rest := Put(order[1..], f, Asc);
      assert Put(order, f, Asc) == [order[0]] + rest;
    }
  }

  /** The loop of `search` that fills `defaultOrder`. */
  method BuildDefaultOrder(fields: seq<string>) returns (order: Order)
    ensures order == DefaultOrder(fields)
    ensures Keys(order) == AddAll([], fields)
  {
    order := [];
    var i := 0;
    while i < |fields|
      invariant 0 <= i <= |fields|
      invariant order == DefaultOrder(fields[..i])
    {
      assert fields[..i + 1][..i] == fields[..i];
      order := Put(order, fields[i], Asc);
      i := i + 1;
    }
    assert fields[..|fields|] == fields;
    DefaultOrderFacts(fields);
  }

  /** Some field of the order is not among the requested fields. */
  predicate Missing(fields: seq<string>, order: Order)
  {
    exists i :: 0 <= i < |order| && order[i].0 !in fields
  }

  /** The loop over the order's keys that stops at the first one not requested. */
  method FindMissing(fields: seq<string>, order: Order) returns (missing: bool)
    ensures missing <==> Missing(fields, order)
  {
    missing := false;
    var i := 0;
    while i < |order|
      invariant 0 <= i <= |order|
      invariant forall j :: 0 <= j < i ==> order[j].0 in fields
    {
      if order[i].0 !in fields {
        missing := true;
        break;
      }
      i := i + 1;
    }
  }

  /**
   * The fields of the re-projection: the requested fields and the order's
   * keys in one `HashSet`, whose iteration order is fixed here as first
   * appearance.
   */
  function SortFields(fields: seq<string>, order: Order): (all: seq<string>)
    ensures Distinct(all)
    ensures forall f :: f in all <==> f in fields || f in Keys(order)
  {
    AddAll([], fields + Keys(order))
  }

  /** `Collections.sort` on the record list: the list copied into an array and sorted there. */
  method SortList(order: Order, records: seq<Record>) returns (sorted: seq<Record>)
    ensures sorted == SortedBy(order, records)
    ensures multiset(sorted) == multiset(records)
  {
    var a := new Record[|records|](i requires 0 <= i < |records| => records[i]);
    assert a[..] == records;
    SortRecords(order, a);
    sorted := a[..];
    ghost var e: Record := [];
    SortedByFacts(order, records, e);
  }

  /** The text put under `warning` when the answer spans several pages. */
  const Warning := "Records won't be ordered because there is more than one page of results returned."

  /** One page of a search answer: the returned items and the server's `nextPageToken`. */
  datatype Answer<T> = Answer(items: seq<T>, nextPageToken: Option<string>)

  /** A `RecordList`: the records and the metadata `LinkedHashMap`. */
  datatype Listing = Listing(records: seq<Record>, metadata: seq<(string, Option<string>)>)

  /**
   * The result of `search` in the submission helper (`reproject`) and the
   * datastore record helper (no re-projection).  `project` is the helper's
   * record creation over the answer's items; it may fail.
   */
  function SortOrWarn<T>(fields: seq<string>, order: Option<Order>, answer: Answer<T>,
                         project: (seq<string>, seq<T>) -> Result<seq<Record>>,
                         reproject: bool): Result<Listing>
  {
    var records :- project(fields, answer.items);
    var tail := [("size", Some(DecimalText(if reproject then |answer.items| else |records|))), ("nextPageToken", answer.nextPageToken)];
    if answer.nextPageToken.None? && order.None? then
      Ok(Listing(SortedBy(DefaultOrder(fields), records), tail))
    else if answer.nextPageToken.None? then
      var sortable :- if reproject && Missing(fields, order.value)
        then project(SortFields(fields, order.value), answer.items)
        else Ok(records);
      Ok(Listing(SortedBy(order.value, sortable), tail))
    else
      Ok(Listing(records, [("warning", Some(Warning))] + tail))
  }

  /** `search` of the submission and datastore record helpers, after the fetch. */
  method Search<T>(fields: seq<string>, order: Option<Order>, answer: Answer<T>,
                   project: (seq<string>, seq<T>) -> Result<seq<Record>>,
                   reproject: bool) returns (r: Result<Listing>)
    ensures r == SortOrWarn(fields, order, answer, project, reproject)
  {
    var created := project(fields, answer.items);
    if created.Err? {
      return Err(created.error);
    }
    var records := created.value;
    var size := if reproject then |answer.items| else |records|;
    var warning: seq<(string, Option<string>)> := [];
    if answer.nextPageToken.None? && order.None? {
      var defaultOrder := BuildDefaultOrder(fields);
      records := SortList(defaultOrder, records);
    } else if answer.nextPageToken.None? {
      var missing := false;
      if reproject {
        missing := FindMissing(fields, order.value);
      }
      if missing {
        var again := project(SortFields(fields, order.value), answer.items);
        if again.Err? {
          return Err(again.error);
        }
        records := again.value;
      }
      records := SortList(order.value, records);
    } else {
      warning := [("warning", Some(Warning))];
    }
    var tail := [("size", Some(DecimalText(size))), ("nextPageToken", answer.nextPageToken)];
    assert [] + tail == tail;
    r := Ok(Listing(records, warning + tail));
  }

  /**
   * The decision of `search`: a `warning` exactly when there is a further
   * page, `size` is the number of items the server returned (submission
   * helper) or the number of records listed (datastore record helper), and
   * the server's token is passed on as it came.
   */
  lemma WarnsIffMorePages<T>(fields: seq<string>, order: Option<Order>, answer: Answer<T>,
                             project: (seq<string>, seq<T>) -> Result<seq<Record>>, reproject: bool)
    requires SortOrWarn(fields, order, answer, project, reproject).Ok?
    ensures var md := SortOrWarn(fields, order, answer, project, reproject).value.metadata;
      && (Lookup(md, "warning").Some? <==> answer.nextPageToken.Some?)
      && Lookup(md, "size") == Some(Some(DecimalText(
           if reproject then |answer.items| else |SortOrWarn(fields, order, answer, project, reproject).value.records|)))
      && Lookup(md, "nextPageToken") == Some(answer.nextPageToken)
  {
    var md := SortOrWarn(fields, order, answer, project, reproject).value.metadata;
    var records := project(fields, answer.items).value;
    var size := ("size", Some(DecimalText(if reproject then |answer.items| else |records|)));
    var token := ("nextPageToken", answer.nextPageToken);
    var tail := [size, token];
    assert tail[1..] == [token];
    assert Lookup([token], "nextPageToken") == Some(answer.nextPageToken);
    assert Lookup(tail, "nextPageToken") == Some(answer.nextPageToken);
    assert Lookup(tail, "size") == Some(size.1);
    assert Lookup([token], "warning").None?;
    assert Lookup(tail, "warning").None?;
    if answer.nextPageToken.Some? {
      var warned := [("warning", Some(Warning))] + tail;
      assert md == warned;
      assert warned[1..] == tail;
    } else {
      assert md == tail;
    }
  }

  /** The projection gives one record per item, whatever fields it is asked for. */
  ghost predicate KeepsCount<T>(project: (seq<string>, seq<T>) -> Result<seq<Record>>, items: seq<T>)
  {
    forall fs :: project(fs, items).Ok? ==> |project(fs, items).value| == |items|
  }

  /**
   * With a projection that gives one record per item, as both helpers'
   * record creation does, the two helpers' `size` agree: it is the number
   * of items and the number of records listed.
   */
  lemma SizeIsRecordCount<T>(fields: seq<string>, order: Option<Order>, answer: Answer<T>,
                             project: (seq<string>, seq<T>) -> Result<seq<Record>>, reproject: bool)
    requires SortOrWarn(fields, order, answer, project, reproject).Ok? && KeepsCount(project, answer.items)
    ensures var listing := SortOrWarn(fields, order, answer, project, reproject).value;
      && |listing.records| == |answer.items|
      && Lookup(listing.metadata, "size") == Some(Some(DecimalText(|listing.records|)))
  {
    WarnsIffMorePages(fields, order, answer, project, reproject);
    assert project(fields, answer.items).Ok?;
    if order.Some? && answer.nextPageToken.None? && reproject && Missing(fields, order.value) {
      assert project(SortFields(fields, order.value), answer.items).Ok?;
    }
  }

  /** Several pages: the records are exactly the projection, in server order. */
  lemma UnsortedWhenMorePages<T>(fields: seq<string>, order: Option<Order>, answer: Answer<T>,
                                 project: (seq<string>, seq<T>) -> Result<seq<Record>>, reproject: bool)
    requires answer.nextPageToken.Some?
    ensures SortOrWarn(fields, order, answer, project, reproject).Ok? <==> project(fields, answer.items).Ok?
    ensures project(fields, answer.items).Ok? ==>
      SortOrWarn(fields, order, answer, project, reproject).value.records == project(fields, answer.items).value
  {
  }

  /**
   * One page and no `order`: the records are the projection rearranged so
   * that every requested field ascends, the earlier fields deciding first.
   */
  lemma SortedByAllFields<T>(fields: seq<string>, answer: Answer<T>,
                             project: (seq<string>, seq<T>) -> Result<seq<Record>>, reproject: bool)
    requires answer.nextPageToken.None? && project(fields, answer.items).Ok?
    ensures var rs := SortOrWarn(fields, None, answer, project, reproject).value.records;
      var order := DefaultOrder(fields);
      && multiset(rs) == multiset(project(fields, answer.items).value)
      && (forall i, j :: 0 <= i < j < |rs| ==> OrderCompare(order, rs[i], rs[j]) <= 0)
      && Keys(order) == AddAll([], fields)
      && (forall k :: 0 <= k < |order| ==> order[k].1 == Asc)
  {
    ghost var e: Record := [];
    SortedByFacts(DefaultOrder(fields), project(fields, answer.items).value, e);
    DefaultOrderFacts(fields);
  }

  /**
   * One page and an `order`: the records are sorted by it, and they come
   * from a projection that holds every requested field and, in the
   * submission helper, every field the order sorts on.
   */
  lemma SortedByOrder<T>(fields: seq<string>, order: Order, answer: Answer<T>,
                         project: (seq<string>, seq<T>) -> Result<seq<Record>>, reproject: bool)
    requires answer.nextPageToken.None?
    requires SortOrWarn(fields, Some(order), answer, project, reproject).Ok?
    ensures var rs := SortOrWarn(fields, Some(order), answer, project, reproject).value.records;
      && (forall i, j :: 0 <= i < j < |rs| ==> OrderCompare(order, rs[i], rs[j]) <= 0)
      && exists used: seq<string> ::
        && (forall f :: f in fields ==> f in used)
        && (reproject ==> forall k :: 0 <= k < |order| ==> order[k].0 in used)
        && project(used, answer.items).Ok?
        && multiset(rs) == multiset(project(used, answer.items).value)
  {
    var used := if reproject && Missing(fields, order) then SortFields(fields, order) else fields;
    var source := project(used, answer.items).value;
    ghost var e: Record := [];
    SortedByFacts(order, source, e);
    if reproject && !Missing(fields, order) {
      forall k | 0 <= k < |order| ensures order[k].0 in used {
      }
    }
    if reproject && Missing(fields, order) {
      forall k | 0 <= k < |order| ensures order[k].0 in used {
        assert order[k].0 in Keys(order);
      }
    }
  }

  /**
   * `search` of the user helper: the users' records are always sorted, all
   * results being on one page; by the `order`, or every field ascending.
   */
  function UserListing(fields: seq<string>, order: Option<Order>, users: seq<Object>): (r: Result<seq<Record>>)
    ensures r.Ok? <==> ProjectAll(fields, users).Ok?
  {
    var records :- ProjectAll(fields, users);
    match order
    case None => Ok(SortedBy(DefaultOrder(fields), records))
    case Some(o) => Ok(SortedBy(o, records))
  }

  /** The user helper's `search` after the users have been fetched and filtered. */
  method UserSearch(fields: seq<string>, order: Option<Order>, users: seq<Object>) returns (r: Result<seq<Record>>)
    ensures r == UserListing(fields, order, users)
  {
    var created := CreateRecords(fields, users);
    if created.Err? {
      return Err(created.error);
    }
    var sortOrder: Order;
    if order.None? {
      sortOrder := BuildDefaultOrder(fields);
    } else {
      sortOrder := order.value;
    }
    var sorted := SortList(sortOrder, created.value);
    r := Ok(sorted);
  }

  /** The user listing is one record per user, sorted, and a rearrangement of the projection. */
  lemma UserListingSorted(fields: seq<string>, order: Option<Order>, users: seq<Object>)
    requires ProjectAll(fields, users).Ok?
    ensures var rs := UserListing(fields, order, users).value;
      var o := if order.None? then DefaultOrder(fields) else order.value;
      && |rs| == |users|
      && multiset(rs) == multiset(ProjectAll(fields, users).value)
      && (forall i, j :: 0 <= i < j < |rs| ==> OrderCompare(o, rs[i], rs[j]) <= 0)
  {
    var o := if order.None? then DefaultOrder(fields) else order.value;
    ghost var e: Record := [];
    var records := ProjectAll(fields, users).value;
    SortedByFacts(o, records, e);
    assert |multiset(UserListing(fields, order, users).value)| == |multiset(records)|;
  }

  /** The user fields that need the server's details to be present. */
  const UserDetailFields: seq<string> := ["createdAt", "createdBy", "updatedAt", "updatedBy"]

  /**
   * A field needs the attribute list `kind`: it is named so, or it is a
   * whole-field `kind[name]` reference.
   */
  predicate Needs(field: string, kind: string)
  {
    field == kind || (MatchBracket(field).Some? && MatchBracket(field).value.0 == kind)
  }

  /** Some requested field needs the list `kind`. */
  predicate AnyNeeds(fields: seq<string>, kind: string)
  {
    exists i :: 0 <= i < |fields| && Needs(fields[i], kind)
  }

  /** Some requested field is one of the detail fields. */
  predicate AnyDetail(fields: seq<string>)
  {
    exists j :: 0 <= j < |UserDetailFields| && UserDetailFields[j] in fields
  }

  /** The lists to include, in the order they are named in the parameter. */
  function IncludeNames(attributes: bool, profile: bool, details: bool): seq<string>
  {
    (if attributes then ["attributes"] else [])
      + (if profile then ["profileAttributes"] else [])
      + (if details then ["details"] else [])
  }

  /**
   * The `include` parameter of the user search: `attributes`, then
   * `profileAttributes`, then `details`, each when some field needs it;
   * no parameter when none is needed.
   */
  function UserInclude(fields: seq<string>): Option<string>
  {
    IncludeParam(IncludeNames(AnyNeeds(fields, "attributes"), AnyNeeds(fields, "profileAttributes"), AnyDetail(fields)))
  }

  /** The field loop of `searchUsers`, which stops once both attribute lists are wanted. */
  method ScanKinds(fields: seq<string>) returns (attributes: bool, profile: bool)
    ensures attributes <==> AnyNeeds(fields, "attributes")
    ensures profile <==> AnyNeeds(fields, "profileAttributes")
  {
    attributes := false;
    profile := false;
    var i := 0;
    while i < |fields|
      invariant 0 <= i <= |fields|
      invariant attributes ==> AnyNeeds(fields, "attributes")
      invariant profile ==> AnyNeeds(fields, "profileAttributes")
      invariant !attributes ==> forall j :: 0 <= j < i ==> !Needs(fields[j], "attributes")
      invariant !profile ==> forall j :: 0 <= j < i ==> !Needs(fields[j], "profileAttributes")
    {
      var field := fields[i];
      var kind := MatchBracket(field);
      ghost var before := (attributes, profile);
      NeedsCases(field);
      if field == "attributes" {
        attributes := true;
      } else if field == "profileAttributes" {
        profile := true;
      } else if kind.Some? {
        if kind.value.0 == "attributes" {
          attributes := true;
        } else if kind.value.0 == "profileAttributes" {
          profile := true;
        }
      }
      assert attributes == (before.0 || Needs(field, "attributes"));
      assert profile == (before.1 || Needs(field, "profileAttributes"));
      if attributes && profile {
        break;
      }
      forall j | 0 <= j <= i
        ensures !attributes ==> !Needs(fields[j], "attributes")
        ensures !profile ==> !Needs(fields[j], "profileAttributes")
      {
        if j == i {
          assert fields[j] == field;
        }
      }
      i := i + 1;
    }
  }

  /** The branches of the field loop: a field needs at most one of the two lists. */
  lemma NeedsCases(field: string)
    ensures Needs(field, "attributes") <==> (field == "attributes" ||
      (field != "profileAttributes" && MatchBracket(field).Some? && MatchBracket(field).value.0 == "attributes"))
    ensures Needs(field, "profileAttributes") <==> (field == "profileAttributes" ||
      (field != "attributes" && MatchBracket(field).Some? && MatchBracket(field).value.0 == "profileAttributes"))
  {
    assert "attributes"[|"attributes"| - 1] != ']';
    assert "profileAttributes"[|"profileAttributes"| - 1] != ']';
  }

  /** `Collections.disjoint` of the detail fields and the requested fields, negated. */
  method HasDetailField(fields: seq<string>) returns (details: bool)
    ensures details <==> AnyDetail(fields)
  {
    details := false;
    var k := 0;
    while k < |UserDetailFields|
      invariant 0 <= k <= |UserDetailFields|
      invariant details <==> exists j :: 0 <= j < k && UserDetailFields[j] in fields
    {
      if UserDetailFields[k] in fields {
        details := true;
      }
      k := k + 1;
    }
  }

  /** The parameter text, built by appending to `include=` as `searchUsers` does. */
  method ComputeUserInclude(fields: seq<string>) returns (param: Option<string>)
    ensures param == UserInclude(fields)
  {
    var attributes, profile := ScanKinds(fields);
    var details := HasDetailField(fields);
    param := BuildInclude(attributes, profile, details);
  }

  /** The three appends of `searchUsers`, each made when its list is wanted. */
  method BuildInclude(attributes: bool, profile: bool, details: bool) returns (param: Option<string>)
    ensures param == IncludeParam(IncludeNames(attributes, profile, details))
  {
    param := None;
    if attributes {
      param := AppendInclude(param, "attributes");
    }
    FirstIncluded(attributes);
    if profile {
      AppendIncluded(IncludeNames(attributes, false, false), "profileAttributes", param);
      param := AppendInclude(param, "profileAttributes");
    }
    assert IncludeNames(attributes, profile, false) ==
      IncludeNames(attributes, false, false) + (if profile then ["profileAttributes"] else []);
    if details {
      AppendIncluded(IncludeNames(attributes, profile, false), "details", param);
      param := AppendInclude(param, "details");
    }
    assert IncludeNames(attributes, profile, details) ==
      IncludeNames(attributes, profile, false) + (if details then ["details"] else []);
  }

  /** `includeParam == null ? "include=" + name : includeParam + "," + name`. */
  function AppendInclude(param: Option<string>, name: string): (next: Option<string>)
    ensures next.Some? && |next.value| > |name|
    ensures next.value[|next.value| - |name|..] == name
  {
    if param.None? then Some("include=" + name) else Some(param.value + "," + name)
  }

  /** The text after the first step: `include=attributes`, or nothing yet. */
  lemma FirstIncluded(attributes: bool)
    ensures IncludeParam(IncludeNames(attributes, false, false)) ==
      if attributes then AppendInclude(None, "attributes") else None
  {
    if attributes {
      assert IncludeNames(attributes, false, false) == ["attributes"];
    }
  }

  /** The parameter text of a list of names to include. */
  function IncludeParam(names: seq<string>): Option<string>
  {
    if |names| == 0 then None else Some("include=" + Join(names, ","))
  }

  /** One more name appended after a comma, or after `include=` when it is the first. */
  lemma AppendIncluded(names: seq<string>, x: string, param: Option<string>)
    requires param == IncludeParam(names)
    ensures IncludeParam(names + [x]) == AppendInclude(param, x)
  {
    if |names| == 0 {
      assert names + [x] == [x];
    } else {
      JoinSnoc(names, x, ",");
      var joined := Join(names, ",");
      assert ("include=" + joined) + "," + x == "include=" + (joined + "," + x);
    }
  }

  /** Joining one more part adds the separator and the part at the end. */
  lemma {:induction false} JoinSnoc(parts: seq<string>, x: string, sep: string)
    requires |parts| > 0
    ensures Join(parts + [x], sep) == Join(parts, sep) + sep + x
    decreases |parts|
  {
    if |parts| == 1 {
      assert (parts + [x])[1..] == [x];
    } else {
      assert (parts + [x])[1..] == parts[1..] + [x];
      JoinSnoc(parts[1..], x, sep);
    }
  }

  /** A field written as `attributes[...]` makes the request include the attributes. */
  lemma AttributeFieldIncluded(fields: seq<string>, i: nat, name: string)
    requires i < |fields| && fields[i] == "attributes[" + name + "]" && NoBreak(fields[i])
    ensures UserInclude(fields).Some?
    ensures var t := UserInclude(fields).value;
      |t| >= 18 && t[..18] == "include=attributes"
  {
    assert AnyNeeds(fields, "attributes") by {
      NeedsAttributes(fields[i], name);
    }
    IncludeAttributesFirst(AnyNeeds(fields, "profileAttributes"), AnyDetail(fields));
  }

  /** With the attributes wanted, the parameter starts with them. */
  lemma IncludeAttributesFirst(profile: bool, details: bool)
    ensures IncludeParam(IncludeNames(true, profile, details)).Some?
    ensures var t := IncludeParam(IncludeNames(true, profile, details)).value;
      |t| >= 18 && t[..18] == "include=attributes"
  {
    var names := IncludeNames(true, profile, details);
    assert names[0] == "attributes";
    JoinHead(names, ",");
    var joined := Join(names, ",");
    var t := "include=" + joined;
    assert t[..8] == "include=" && t[8..18] == joined[..10];
    assert t[..18] == t[..8] + t[8..18];
  }

  /** `attributes[name]` is a field that needs the attributes. */
  lemma NeedsAttributes(f: string, name: string)
    requires f == "attributes[" + name + "]" && NoBreak(f)
    ensures Needs(f, "attributes")
  {
    assert f[|f| - 1] == ']';
    assert f[..10] == "attributes";
    assert IndexOf(f, '[') == 10 by {
      assert f[10] == '[';
      assert '[' !in f[..10];
    }
  }

  /** A joined list starts with its first item. */
  lemma JoinHead(xs: seq<string>, sep: string)
    requires |xs| >= 1
    ensures |Join(xs, sep)| >= |xs[0]| && Join(xs, sep)[..|xs[0]|] == xs[0]
  {
    if |xs| > 1 {
      assert Join(xs, sep) == xs[0] + (sep + Join(xs[1..], sep));
    }
  }

  /** A requested detail field makes the parameter end with `details`. */
  lemma DetailFieldIncluded(fields: seq<string>, i: nat)
    requires i < |fields| && fields[i] in UserDetailFields
    ensures UserInclude(fields).Some?
    ensures var t := UserInclude(fields).value;
      |t| > 7 && t[|t| - 7..] == "details"
  {
    var j :| 0 <= j < |UserDetailFields| && UserDetailFields[j] == fields[i];
    assert AnyDetail(fields);
    var before := IncludeNames(AnyNeeds(fields, "attributes"), AnyNeeds(fields, "profileAttributes"), false);
    assert IncludeNames(AnyNeeds(fields, "attributes"), AnyNeeds(fields, "profileAttributes"), true) == before + ["details"];
    AppendIncluded(before, "details", IncludeParam(before));
  }
}
