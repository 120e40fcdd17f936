/**
 * `buildQuery` of the two API helpers: the caller's parameters with the
 * `include` parameter widened by the structure's implicit includes, an
 * `include` added when the caller gave none and, in the v2 helper, a default
 * `limit=1000`.  The parameters are gathered into a map keyed by name, so a
 * name given twice is an error.  The result is the list of name/value pairs
 * in map order (first insertion), before URL encoding.
 */
module QueryBuilder {
  import opened Base
  import opened Strings
  import opened Records

  type Params = seq<(string, string)>

  const DefaultLimit := "1000"

  /** The new value of an `include` parameter: its items, then the implicit ones not already listed. */
  function MergedInclude(value: string, implicit: seq<string>): string
  {
    Join(OrderedUnion(SplitCommaList(value), implicit), ",")
  }

  /** The mapping step applied to each parameter: only `include` is rewritten. */
  function Processed(p: (string, string), implicit: seq<string>): (q: (string, string))
    ensures q.0 == p.0
    ensures p.0 != "include" ==> q == p
    ensures p.0 == "include" ==> q.1 == MergedInclude(p.1, implicit)
  {
    if p.0 == "include" then ("include", MergedInclude(p.1, implicit)) else p
  }

  /** Every parameter through `Processed`, in order. */
  function ProcessAll(ps: Params, implicit: seq<string>): (r: Params)
    ensures |r| == |ps|
    ensures Keys(r) == Keys(ps)
    ensures forall i :: 0 <= i < |ps| ==> r[i] == Processed(ps[i], implicit)
    decreases |ps|
  {
    if |ps| == 0 then [] else [Processed(ps[0], implicit)] + ProcessAll(ps[1..], implicit)
  }

  /**
   * `Collectors.toMap` over the processed parameters, continuing from the
   * entries `acc` already gathered: the first name met a second time stops
   * the collection.
   */
  function Collect(acc: Params, ps: Params, implicit: seq<string>): Result<Params>
    decreases |ps|
  {
    if |ps| == 0 then Ok(acc)
    else
      var p := Processed(ps[0], implicit);
      if p.0 in Keys(acc) then Err(DuplicateParameter(p.0))
      else Collect(acc + [p], ps[1..], implicit)
  }

  /**
   * The parameters `buildQuery` sends: the collected map, then `include`
   * (the implicit includes joined with `,`) if the caller gave none, then,
   * when `defaultLimit` holds (the v2 helper), `limit=1000` if the caller
   * gave no limit.
   */
  function Query(params: Params, implicit: seq<string>, defaultLimit: bool): Result<Params>
  {
    var collected :- Collect([], params, implicit);
    Ok(Completed(collected, implicit, defaultLimit))
  }

  /** The collected map with the default `include` and, when `defaultLimit` holds, the default `limit` added. */
  function Completed(collected: Params, implicit: seq<string>, defaultLimit: bool): Params
  {
    var withInclude :=
      if "include" in Keys(collected) then collected
      else collected + [("include", Join(implicit, ","))];
    if defaultLimit && "limit" !in Keys(withInclude) then withInclude + [("limit", DefaultLimit)]
    else withInclude
  }

  /** `buildQuery`: the stream over the parameters as a loop filling the map. */
  method BuildQuery(params: Params, implicit: seq<string>, defaultLimit: bool) returns (r: Result<Params>)
    ensures r == Query(params, implicit, defaultLimit)
  {
    var collected: Params := [];
    var i := 0;
    while i < |params|
      invariant 0 <= i <= |params|
      invariant Collect([], params, implicit) == Collect(collected, params[i..], implicit)
    {
      assert params[i..][1..] == params[i + 1..];
      var p := Processed(params[i], implicit);
      if p.0 in Keys(collected) {
        return Err(DuplicateParameter(p.0));
      }
      collected := collected + [p];
      i := i + 1;
    }
    assert params[i..] == [];
    if "include" !in Keys(collected) {
      collected := collected + [("include", Join(implicit, ","))];
    }
    if defaultLimit && "limit" !in Keys(collected) {
      collected := collected + [("limit", DefaultLimit)];
    }
    r := Ok(collected);
  }

  /** A name list stays free of repeats when a new name is added at the end. */
  lemma DistinctSnoc(xs: seq<string>, x: string)
    requires Distinct(xs) && x !in xs
    ensures Distinct(xs + [x])
  {
    forall i, j | 0 <= i < j < |xs| + 1 ensures (xs + [x])[i] != (xs + [x])[j] {
      if j == |xs| {
        assert (xs + [x])[i] == xs[i];
      }
    }
  }

  /** A name list with `x` in the middle is free of repeats when `x` is new and the list stays free of repeats. */
  lemma DistinctSplit(a: seq<string>, x: string, b: seq<string>)
    ensures Distinct(a + ([x] + b)) <==> x !in a && Distinct((a + [x]) + b)
  {
    assert a + ([x] + b) == (a + [x]) + b;
    if x in a {
      var k :| 0 <= k < |a| && a[k] == x;
      assert (a + ([x] + b))[k] == (a + ([x] + b))[|a|];
    }
  }

  /** Collecting succeeds exactly when no name repeats. */
  lemma {:induction false} CollectOk(acc: Params, ps: Params, implicit: seq<string>)
    requires Distinct(Keys(acc))
    ensures Collect(acc, ps, implicit).Ok? <==> Distinct(Keys(acc) + Keys(ps))
    decreases |ps|
  {
    if |ps| == 0 {
      assert Keys(acc) + Keys(ps) == Keys(acc);
    } else {
      var p := Processed(ps[0], implicit);
      assert Keys(ps) == [p.0] + Keys(ps[1..]);
      DistinctSplit(Keys(acc), p.0, Keys(ps[1..]));
      if p.0 !in Keys(acc) {
        var next := acc + [p];
        assert Keys(next) == Keys(acc) + [p.0];
        DistinctSnoc(Keys(acc), p.0);
        CollectOk(next, ps[1..], implicit);
      }
    }
  }

  /** When collecting succeeds, the map is the gathered entries followed by the processed parameters in order. */
  lemma {:induction false} CollectValue(acc: Params, ps: Params, implicit: seq<string>)
    requires Collect(acc, ps, implicit).Ok?
    ensures Collect(acc, ps, implicit) == Ok(acc + ProcessAll(ps, implicit))
    decreases |ps|
  {
    if |ps| == 0 {
      assert acc + ProcessAll(ps, implicit) == acc;
    } else {
      var p := Processed(ps[0], implicit);
      var next := acc + [p];
      CollectValue(next, ps[1..], implicit);
      var rest := ProcessAll(ps[1..], implicit);
      assert ProcessAll(ps, implicit) == [p] + rest;
      assert next + rest == acc + ([p] + rest);
    }
  }

  /** `n` occurs at least twice in `names`. */
  predicate Repeated(names: seq<string>, n: string)
  {
    exists i, j :: 0 <= i < j < |names| && names[i] == n && names[j] == n
  }

  /** A name already listed occurs twice once it is met again. */
  lemma RepeatedAt(a: seq<string>, x: string, b: seq<string>)
    requires x in a
    ensures Repeated(a + ([x] + b), x)
  {
    var k :| 0 <= k < |a| && a[k] == x;
    var all := a + ([x] + b);
    assert all[k] == all[|a|] == x;
  }

  /** The first repeated name is reported, and it does occur twice among the names. */
  lemma {:induction false} CollectErr(acc: Params, ps: Params, implicit: seq<string>)
    requires Collect(acc, ps, implicit).Err?
    ensures Collect(acc, ps, implicit).error.DuplicateParameter?
    ensures Repeated(Keys(acc) + Keys(ps), Collect(acc, ps, implicit).error.name)
    decreases |ps|
  {
    var p := Processed(ps[0], implicit);
    var rest := Keys(ps[1..]);
    assert Keys(ps) == [p.0] + rest;
    if p.0 in Keys(acc) {
      assert Collect(acc, ps, implicit) == Err(DuplicateParameter(p.0));
      RepeatedAt(Keys(acc), p.0, rest);
    } else {
      var next := acc + [p];
      assert Collect(acc, ps, implicit) == Collect(next, ps[1..], implicit);
      assert Keys(next) + rest == Keys(acc) + ([p.0] + rest) by {
        KeysAppend(acc, p.0, p.1);
      }
      CollectErr(next, ps[1..], implicit);
    }
  }

  /** Looking a name up among the processed parameters. */
  lemma {:induction false} LookupProcessAll(ps: Params, implicit: seq<string>, name: string)
    ensures Lookup(ProcessAll(ps, implicit), name) ==
      match Lookup(ps, name)
      case None => None
      case Some(v) => Some(Processed((name, v), implicit).1)
    decreases |ps|
  {
    if |ps| > 0 {
      assert ProcessAll(ps, implicit)[1..] == ProcessAll(ps[1..], implicit);
      LookupProcessAll(ps[1..], implicit, name);
    }
  }

  /** `buildQuery` fails exactly when a parameter name is given twice, and names that name. */
  lemma QueryOk(params: Params, implicit: seq<string>, defaultLimit: bool)
    ensures Query(params, implicit, defaultLimit).Ok? <==> Distinct(Keys(params))
    ensures Query(params, implicit, defaultLimit).Err? ==>
      Query(params, implicit, defaultLimit).error.DuplicateParameter? &&
      Repeated(Keys(params), Query(params, implicit, defaultLimit).error.name)
  {
    var none: Params := [];
    assert Keys(none) + Keys(params) == Keys(params);
    CollectOk(none, params, implicit);
    if Collect(none, params, implicit).Err? {
      CollectErr(none, params, implicit);
    }
  }

  /** The collected map of a query whose names are all different. */
  lemma Collected(params: Params, implicit: seq<string>)
    requires Distinct(Keys(params))
    ensures Collect([], params, implicit) == Ok(ProcessAll(params, implicit))
  {
    var none: Params := [];
    var all := ProcessAll(params, implicit);
    assert Collect(none, params, implicit).Ok? by {
      assert Keys(none) + Keys(params) == Keys(params);
      CollectOk(none, params, implicit);
    }
    assert Collect(none, params, implicit) == Ok(none + all) by {
      CollectValue(none, params, implicit);
    }
    assert none + all == all;
  }

  /**
   * The names sent: the caller's, in their order, then `include` if the
   * caller gave none, then `limit` if the v2 default applies.
   */
  lemma QueryKeys(params: Params, implicit: seq<string>, defaultLimit: bool)
    requires Distinct(Keys(params))
    ensures Query(params, implicit, defaultLimit).Ok?
    ensures Keys(Query(params, implicit, defaultLimit).value) ==
      Keys(params)
      + (if "include" in Keys(params) then [] else ["include"])
      + (if defaultLimit && "limit" !in Keys(params) then ["limit"] else [])
  {
    Collected(params, implicit);
    var c := ProcessAll(params, implicit);
    assert Query(params, implicit, defaultLimit) == Ok(Completed(c, implicit, defaultLimit));
    var inc := ("include", Join(implicit, ","));
    var w := if "include" in Keys(c) then c else c + [inc];
    var extra: seq<string> := if "include" in Keys(params) then [] else ["include"];
    assert Keys(w) == Keys(params) + extra by {
      KeysAppend(c, inc.0, inc.1);
    }
    assert "limit" in Keys(w) <==> "limit" in Keys(params);
    KeysAppend(w, "limit", DefaultLimit);
  }

  /**
   * The `include` sent: the caller's items followed by the implicit includes
   * not already listed, or the implicit includes alone when the caller gave
   * no `include`.
   */
  lemma QueryInclude(params: Params, implicit: seq<string>, defaultLimit: bool)
    requires Distinct(Keys(params))
    ensures Query(params, implicit, defaultLimit).Ok?
    ensures Lookup(Query(params, implicit, defaultLimit).value, "include") ==
      match Lookup(params, "include")
      case None => Some(Join(implicit, ","))
      case Some(v) => Some(MergedInclude(v, implicit))
  {
    Collected(params, implicit);
    var c := ProcessAll(params, implicit);
    assert Query(params, implicit, defaultLimit) == Ok(Completed(c, implicit, defaultLimit));
    LookupProcessAll(params, implicit, "include");
    var inc := ("include", Join(implicit, ","));
    var w := if "include" in Keys(c) then c else c + [inc];
    LookupAppend(c, inc.0, inc.1, "include");
    LookupAppend(w, "limit", DefaultLimit, "include");
  }

  /**
   * The `limit` sent: the caller's if given; otherwise `1000` in the v2
   * helper and none in the v1 helper.
   */
  lemma QueryLimit(params: Params, implicit: seq<string>, defaultLimit: bool)
    requires Distinct(Keys(params))
    ensures Query(params, implicit, defaultLimit).Ok?
    ensures Lookup(Query(params, implicit, defaultLimit).value, "limit") ==
      if "limit" in Keys(params) then Lookup(params, "limit")
      else if defaultLimit then Some(DefaultLimit)
      else None
  {
    Collected(params, implicit);
    var c := ProcessAll(params, implicit);
    assert Query(params, implicit, defaultLimit) == Ok(Completed(c, implicit, defaultLimit));
    LookupProcessAll(params, implicit, "limit");
    var inc := ("include", Join(implicit, ","));
    var w := if "include" in Keys(c) then c else c + [inc];
    LookupAppend(c, inc.0, inc.1, "limit");
    LookupAppend(w, "limit", DefaultLimit, "limit");
  }

  /** Every parameter other than `include` and `limit` is sent as given. */
  lemma QueryPassThrough(params: Params, implicit: seq<string>, defaultLimit: bool, name: string)
    requires Distinct(Keys(params))
    requires name != "include" && name != "limit"
    ensures Query(params, implicit, defaultLimit).Ok?
    ensures Lookup(Query(params, implicit, defaultLimit).value, name) == Lookup(params, name)
  {
    Collected(params, implicit);
    var c := ProcessAll(params, implicit);
    assert Query(params, implicit, defaultLimit) == Ok(Completed(c, implicit, defaultLimit));
    LookupProcessAll(params, implicit, name);
    var inc := ("include", Join(implicit, ","));
    var w := if "include" in Keys(c) then c else c + [inc];
    LookupAppend(c, inc.0, inc.1, name);
    LookupAppend(w, "limit", DefaultLimit, name);
  }

  /**
   * When the caller's includes are plain items and none of the implicit
   * includes repeats one of them, the merged value is the caller's list
   * extended by the implicit one; with no implicit includes the caller's
   * `include` is sent unchanged.
   */
  lemma MergedIncludeAppends(xs: seq<string>, implicit: seq<string>)
    requires |xs| >= 1 && PlainItems(xs) && Distinct(xs + implicit)
    ensures MergedInclude(Join(xs, ","), implicit) == Join(xs + implicit, ",")
    ensures implicit == [] ==> MergedInclude(Join(xs, ","), implicit) == Join(xs, ",")
  {
    SplitCommaListJoin(xs);
    OrderedUnionFacts(xs, implicit);
    assert xs + [] == xs;
  }

  /** A query whose only parameter is `include`. */
  lemma QueryIncludeOnly(v: string, implicit: seq<string>)
    ensures Query([("include", v)], implicit, false) == Ok([("include", MergedInclude(v, implicit))])
    ensures Query([("include", v)], implicit, true)
      == Ok([("include", MergedInclude(v, implicit)), ("limit", DefaultLimit)])
  {
    var ps := [("include", v)];
    assert Keys(ps) == ["include"];
    Collected(ps, implicit);
    var c := ProcessAll(ps, implicit);
    var inc := ("include", MergedInclude(v, implicit));
    assert c == [inc];
    assert Keys(c) == ["include"];
    assert "limit" !in Keys(c);
    assert c + [("limit", DefaultLimit)] == [inc, ("limit", DefaultLimit)];
  }

  /** A query with no parameters. */
  lemma QueryEmpty(implicit: seq<string>)
    ensures Query([], implicit, false) == Ok([("include", Join(implicit, ","))])
    ensures Query([], implicit, true) == Ok([("include", Join(implicit, ",")), ("limit", DefaultLimit)])
  {
    var none: Params := [];
    var inc := ("include", Join(implicit, ","));
    assert Collect(none, [], implicit) == Ok(none);
    assert Keys(none) == [];
    assert none + [inc] == [inc];
    assert Keys([inc]) == ["include"];
    assert "limit" !in Keys([inc]);
    assert [inc] + [("limit", DefaultLimit)] == [inc, ("limit", DefaultLimit)];
  }

  /** Widening `fields` by `details` and `attributes`. */
  lemma MergedIncludeExamples()
    ensures MergedInclude("fields", ["details", "attributes"]) == "fields,details,attributes"
    ensures MergedInclude("fields", []) == "fields"
    ensures Join(["details", "attributes"], ",") == "details,attributes"
  {
    JoinExample();
    MergedWidenExample();
    MergedKeepExample();
  }

  lemma JoinExample()
    ensures Join(["details", "attributes"], ",") == "details,attributes"
  {
    assert Join(["details", "attributes"], ",") == "details" + "," + "attributes";
  }

  /** `fields` widened by `details` and `attributes`. */
  lemma MergedWidenExample()
    ensures MergedInclude("fields", ["details", "attributes"]) == "fields,details,attributes"
  {
    var implicit := ["details", "attributes"];
    var xs := ["fields"];
    var all := ["fields", "details", "attributes"];
    JoinAllExample();
    assert Join(xs, ",") == "fields";
    assert xs + implicit == all;
    assert PlainItems(xs) by {
      assert ',' !in xs[0];
    }
    assert Distinct(all) by {
      assert all[0][0] == 'f' && all[1][0] == 'd' && all[2][0] == 'a';
    }
    MergedIncludeAppends(xs, implicit);
  }

  lemma JoinAllExample()
    ensures Join(["fields", "details", "attributes"], ",") == "fields,details,attributes"
  {
    var all := ["fields", "details", "attributes"];
    JoinExample();
    assert all[1..] == ["details", "attributes"];
    assert Join(all, ",") == "fields" + "," + "details,attributes";
  }

  /** `fields` kept as it is when there is nothing to add. */
  lemma MergedKeepExample()
    ensures MergedInclude("fields", []) == "fields"
  {
    var xs := ["fields"];
    assert Join(xs, ",") == "fields";
    assert xs + [] == xs;
    assert PlainItems(xs) by {
      assert ',' !in xs[0];
    }
    MergedIncludeAppends(xs, []);
  }

  /**
   * The v1 helper's documented cases: an `include` widened by the implicit
   * includes, an `include` supplied when absent, and an `include` kept when
   * there are no implicit includes.
   */
  lemma QueryExamplesV1()
    ensures Query([("include", "fields")], ["details", "attributes"], false)
      == Ok([("include", "fields,details,attributes")])
    ensures Query([], ["details", "attributes"], false) == Ok([("include", "details,attributes")])
    ensures Query([("include", "fields")], [], false) == Ok([("include", "fields")])
  {
    MergedIncludeExamples();
    QueryIncludeOnly("fields", ["details", "attributes"]);
    QueryIncludeOnly("fields", []);
    QueryEmpty(["details", "attributes"]);
  }

  /** The v2 helper's documented cases: the same, each with `limit=1000` added. */
  lemma QueryExamplesV2()
    ensures Query([("include", "fields")], ["details", "attributes"], true)
      == Ok([("include", "fields,details,attributes"), ("limit", "1000")])
    ensures Query([], ["details", "attributes"], true)
      == Ok([("include", "details,attributes"), ("limit", "1000")])
    ensures Query([("include", "fields")], [], true) == Ok([("include", "fields"), ("limit", "1000")])
  {
    MergedIncludeExamples();
    QueryIncludeOnly("fields", ["details", "attributes"]);
    QueryIncludeOnly("fields", []);
    QueryEmpty(["details", "attributes"]);
  }
}
