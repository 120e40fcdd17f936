/**
 * How the version 1 submission and datastore record helpers turn a bridge
 * query into a Kinetic Core request, and how they count and retrieve.
 *
 * A search splits the query at every `&` that is followed by `key=` and
 * each part at `=`: the name is the trimmed first piece, the value the
 * remaining pieces joined by `=`.  The slug fields (`kappSlug`, `formSlug`,
 * `parent`; `datastoreSlug`) and `limit` are taken out (the last one given
 * wins); every other pair is passed on with its value trimmed, followed by
 * `include=values,details`, the page size and the page token.  A count
 * splits at every `&`, takes only the first piece after the name as the
 * value, drops `limit`, asks for pages of 1000, and adds up the page sizes
 * in a Java `int` until the server sends no next page token.
 *
 * The outgoing parameters are kept as name/value pairs; the text of a
 * request is those pairs joined before URL encoding.
 */
module V1Query {
  import opened Base
  import opened Strings
  import opened Json
  import opened Records
  import opened QualificationParser
  import opened Qualifiers
  import opened SubmissionFilter

  type Params = seq<(string, string)>

  /** One part of a search query: the trimmed name and the rest of the pieces joined by `=` (not trimmed). */
  function SearchPair(part: string): (r: Result<(string, string)>)
    ensures r.Err? <==> JavaSplit(part, '=') == []
    ensures r.Err? ==> r.error == IndexOutOfBounds
  {
    var sp := JavaSplit(part, '=');
    if |sp| == 0 then Err(IndexOutOfBounds)
    else Ok((Trim(sp[0]), Join(sp[1..], "=")))
  }

  /** The names a helper takes out of its query, and whether it reads a search (or a count) query. */
  datatype Reader = Reader(search: bool, special: set<string>)

  /** The values taken out by name (the last one given wins), and the parameters passed on. */
  datatype Scan = Scan(slugs: seq<(string, string)>, params: Params)

  /** The pair of a part as the reader splits it. */
  function PairOf(rd: Reader, part: string): Result<(string, string)>
  {
    if rd.search then SearchPair(part) else ParsePart(part)
  }

  /** The value passed on for a parameter: a search trims it (a count has trimmed it already). */
  function PassedValue(rd: Reader, value: string): string
  {
    if rd.search then Trim(value) else value
  }

  /** A count drops `limit`; a search takes it out as a special name. */
  predicate Dropped(rd: Reader, name: string)
  {
    !rd.search && name == "limit"
  }

  /** The parameter a pair passes on: none for a taken-out or dropped name. */
  function PassedOf(rd: Reader, pair: (string, string)): Params
  {
    if pair.0 in rd.special || Dropped(rd, pair.0) then [] else [(pair.0, PassedValue(rd, pair.1))]
  }

  function ReadPart(rd: Reader, st: Scan, part: string): Result<Scan>
  {
    var pair :- PairOf(rd, part);
    if pair.0 in rd.special then Ok(st.(slugs := Put(st.slugs, pair.0, pair.1)))
    else Ok(st.(params := st.params + PassedOf(rd, pair)))
  }

  function ReadParts(rd: Reader, st: Scan, parts: seq<string>): Result<Scan>
    decreases |parts|
  {
    if |parts| == 0 then Ok(st)
    else
      var next :- ReadPart(rd, st, parts[0]);
      ReadParts(rd, next, parts[1..])
  }

  /** The parts of the query: split before `key=` for a search, at every `&` for a count. */
  function QueryParts(rd: Reader, query: string): seq<string>
  {
    if rd.search then SplitQueries(query) else JavaSplit(query, '&')
  }

  function ScanQuery(rd: Reader, query: string): Result<Scan>
  {
    ReadParts(rd, Scan([], []), QueryParts(rd, query))
  }

  /** The parts loop the helpers run over the query. */
  method ReadQuery(rd: Reader, query: string) returns (r: Result<Scan>)
    ensures r == ScanQuery(rd, query)
  {
    var parts := QueryParts(rd, query);
    var slugs: seq<(string, string)> := [];
    var params: Params := [];
    var i := 0;
    assert parts[0..] == parts;
    while i < |parts|
      invariant 0 <= i <= |parts|
      invariant ReadParts(rd, Scan([], []), parts) == ReadParts(rd, Scan(slugs, params), parts[i..])
    {
      assert parts[i..][1..] == parts[i + 1..];
      var pair := if rd.search then SearchPair(parts[i]) else ParsePart(parts[i]);
      if pair.Err? {
        return Err(pair.error);
      }
      var (field, value) := pair.value;
      if field in rd.special {
        slugs := Put(slugs, field, value);
      } else if !(!rd.search && field == "limit") {
        params := params + [(field, if rd.search then Trim(value) else value)];
      } else {
        assert params + [] == params;
      }
      i := i + 1;
    }
    return Ok(Scan(slugs, params));
  }

  // ----- the requests -----

  const SubmissionSearch := Reader(true, {"formSlug", "kappSlug", "parent", "limit"})
  const SubmissionCount := Reader(false, {"formSlug", "kappSlug", "parent"})
  const RecordSearch := Reader(true, {"datastoreSlug", "limit"})
  const RecordCount := Reader(false, {"datastoreSlug"})

  /** The request metadata a search reads. */
  datatype Metadata = Metadata(pageSize: Option<string>, pageToken: Option<string>)

  /** What a helper asks the server for. */
  datatype Call =
    | KappFetch(kapp: string, form: Option<string>, params: Params)   // a kapp's (or a form's) submissions
    | ChildFetch(parent: string, filter: string)                        // a parent's children, filtered locally
    | DatastoreFetch(datastore: string, params: Params)                 // a datastore's records

  /** `name=value` for each pair, joined by `&`. */
  function QueryText(params: Params): string
  {
    Join(PairTexts(params), "&")
  }

  function PairTexts(params: Params): (ts: seq<string>)
    ensures |ts| == |params|
    ensures forall i :: 0 <= i < |params| ==> ts[i] == params[i].0 + "=" + params[i].1
  {
    seq(|params|, i requires 0 <= i < |params| => params[i].0 + "=" + params[i].1)
  }

  /** The page size asked for: the `pageSize` metadata, else a non-empty `limit`, else 1000. */
  function PageSize(md: Metadata, limit: Option<string>): string
  {
    if md.pageSize.Some? then md.pageSize.value
    else if limit.Some? && limit.value != "" then limit.value
    else "1000"
  }

  /** The parameters a search adds after the caller's. */
  function SearchTail(md: Metadata, limit: Option<string>): Params
  {
    [("include", "values,details"), ("limit", PageSize(md, limit))] +
    (if md.pageToken.Some? then [("pageToken", md.pageToken.value)] else [])
  }

  /** `searchSubmissions(request)`: the children of `parent`, or a kapp's submissions. */
  function SubmissionSearchCall(query: string, md: Metadata): Result<Call>
  {
    var sc :- ScanQuery(SubmissionSearch, query);
    match Lookup(sc.slugs, "parent")
    case Some(parent) => Ok(ChildFetch(parent, QueryText(sc.params)))
    case None =>
      match Lookup(sc.slugs, "kappSlug")
      case None => Err(MissingSlug("kappSlug"))
      case Some(kapp) => Ok(KappFetch(kapp, Lookup(sc.slugs, "formSlug"), sc.params + SearchTail(md, Lookup(sc.slugs, "limit"))))
  }

  /** `searchDatastoreRecords(request)`. */
  function RecordSearchCall(query: string, md: Metadata): Result<Call>
  {
    var sc :- ScanQuery(RecordSearch, query);
    match Lookup(sc.slugs, "datastoreSlug")
    case None => Err(MissingSlug("datastoreSlug"))
    case Some(ds) => Ok(DatastoreFetch(ds, sc.params + SearchTail(md, Lookup(sc.slugs, "limit"))))
  }

  /** The request of `countSubmissions`: pages of 1000, or the children of `parent`. */
  function SubmissionCountCall(query: string): Result<Call>
  {
    var sc :- ScanQuery(SubmissionCount, query);
    match Lookup(sc.slugs, "parent")
    case Some(parent) => Ok(ChildFetch(parent, QueryText(sc.params)))
    case None =>
      match Lookup(sc.slugs, "kappSlug")
      case None => Err(MissingSlug("kappSlug"))
      case Some(kapp) => Ok(KappFetch(kapp, Lookup(sc.slugs, "formSlug"), sc.params + [("limit", "1000")]))
  }

  /** The request of `countDatastoreRecords`: pages of 1000. */
  function RecordCountCall(query: string): Result<Call>
  {
    var sc :- ScanQuery(RecordCount, query);
    match Lookup(sc.slugs, "datastoreSlug")
    case None => Err(MissingSlug("datastoreSlug"))
    case Some(ds) => Ok(DatastoreFetch(ds, sc.params + [("limit", "1000")]))
  }

  /** The slug checks and the parameters added after the query's own (lines 312-338). */
  method BuildSubmissionSearch(query: string, md: Metadata) returns (r: Result<Call>)
    ensures r == SubmissionSearchCall(query, md)
  {
    var sc := ReadQuery(SubmissionSearch, query);
    if sc.Err? {
      return Err(sc.error);
    }
    var slugs := sc.value.slugs;
    var params := sc.value.params;
    var parent := Lookup(slugs, "parent");
    if parent.Some? {
      return Ok(ChildFetch(parent.value, QueryText(params)));
    }
    var tail := AddedParams(md, Lookup(slugs, "limit"));
    var kapp := Lookup(slugs, "kappSlug");
    if kapp.None? {
      return Err(MissingSlug("kappSlug"));
    }
    return Ok(KappFetch(kapp.value, Lookup(slugs, "formSlug"), params + tail));
  }

  method BuildRecordSearch(query: string, md: Metadata) returns (r: Result<Call>)
    ensures r == RecordSearchCall(query, md)
  {
    var sc := ReadQuery(RecordSearch, query);
    if sc.Err? {
      return Err(sc.error);
    }
    var slugs := sc.value.slugs;
    var tail := AddedParams(md, Lookup(slugs, "limit"));
    var ds := Lookup(slugs, "datastoreSlug");
    if ds.None? {
      return Err(MissingSlug("datastoreSlug"));
    }
    return Ok(DatastoreFetch(ds.value, sc.value.params + tail));
  }

  /** The parameters a search appends, in the order the source appends them. */
  method AddedParams(md: Metadata, limit: Option<string>) returns (params: Params)
    ensures params == SearchTail(md, limit)
  {
    params := [("include", "values,details")];
    if md.pageSize.Some? {
      params := params + [("limit", md.pageSize.value)];
    } else if limit.Some? && limit.value != "" {
      params := params + [("limit", limit.value)];
    } else {
      params := params + [("limit", "1000")];
    }
    if md.pageToken.Some? {
      params := params + [("pageToken", md.pageToken.value)];
    }
  }

  // ----- counting over pages -----

  /** One page of a count as the server answers it: its number of items and its next page token. */
  datatype Page = Page(size: nat, next: Option<string>)

  /** A server conversation that ends: every page but the last carries a next page token. */
  predicate Conversation(pages: seq<Page>)
  {
    |pages| >= 1 && pages[|pages| - 1].next.None? &&
    forall i :: 0 <= i < |pages| - 1 ==> pages[i].next.Some?
  }

  /** The query of one fetch: the base query, with the token unless the token is empty. */
  function TokenQuery(base: string, token: string): string
  {
    if token == "" then base else base + "&pageToken=" + token
  }

  /** The token the i-th fetch carries: none for the first, then the previous page's. */
  function TokenBefore(pages: seq<Page>, i: nat): string
    requires i < |pages|
  {
    if i == 0 then ""
    else match pages[i - 1].next
      case Some(t) => t
      case None => ""
  }

  /** The total number of items over the pages. */
  function Total(pages: seq<Page>): nat
  {
    if |pages| == 0 then 0 else Total(pages[..|pages| - 1]) + pages[|pages| - 1].size
  }

  /** Adding in a Java `int` step by step wraps the same as wrapping the sum once. */
  lemma WrapAdd(a: int, b: int)
    ensures Wrap32(Wrap32(a) + b) == Wrap32(a + b)
  {
  }

  /**
   * The `while (nextToken != null)` loop of both count helpers: one fetch
   * per page, each with the base query and the previous page's token, and
   * the page sizes added up in a Java `int`.
   */
  method CountPages(base: string, pages: seq<Page>) returns (count: int, sent: seq<string>)
    requires Conversation(pages)
    ensures count == Wrap32(Total(pages))
    ensures |sent| == |pages|
    ensures forall i :: 0 <= i < |pages| ==> sent[i] == TokenQuery(base, TokenBefore(pages, i))
  {
    count := 0;
    sent := [];
    var next: Option<string> := Some("");
    var i := 0;
    while next.Some?
      invariant 0 <= i <= |pages|
      invariant next.Some? <==> i < |pages|
      invariant next.Some? ==> next.value == TokenBefore(pages, i)
      invariant count == Wrap32(Total(pages[..i]))
      invariant |sent| == i
      invariant forall j :: 0 <= j < i ==> sent[j] == TokenQuery(base, TokenBefore(pages, j))
      decreases |pages| - i
    {
      var query := base;
      if next.value != "" {
        query := query + "&pageToken=" + next.value;
      }
      sent := sent + [query];
      var page := pages[i];
      next := page.next;
      WrapAdd(Total(pages[..i]), page.size);
      assert pages[..i + 1][..i] == pages[..i];
      count := Wrap32(count + page.size);
      i := i + 1;
    }
    assert pages[..i] == pages;
  }

  /** The count's outcome: the children that pass the filter, or the pages' total. */
  datatype Counted = Counted(count: int, sent: seq<string>)

  /**
   * `countSubmissions`: for a parent, the number of its children (given) that
   * pass the filter; otherwise the total over the server's pages (given).
   */
  method CountSubmissions(query: string, children: seq<Object>, pages: seq<Page>) returns (r: Result<Counted>)
    requires Conversation(pages)
    ensures SubmissionCountCall(query).Err? ==> r == Err(SubmissionCountCall(query).error)
    ensures SubmissionCountCall(query).Ok? && SubmissionCountCall(query).value.ChildFetch? ==>
      r == (match Filtered(children, SubmissionCountCall(query).value.filter)
            case Ok(kept) => Ok(Counted(|kept|, []))
            case Err(e) => Err(e))
    ensures SubmissionCountCall(query).Ok? && SubmissionCountCall(query).value.KappFetch? ==>
      r.Ok? && r.value.count == Wrap32(Total(pages)) && |r.value.sent| == |pages| &&
      forall i :: 0 <= i < |pages| ==>
        r.value.sent[i] == TokenQuery(QueryText(SubmissionCountCall(query).value.params), TokenBefore(pages, i))
  {
    var call := SubmissionCountCall(query);
    if call.Err? {
      return Err(call.error);
    }
    if call.value.ChildFetch? {
      var kept := FilterSubmissions(children, call.value.filter);
      if kept.Err? {
        return Err(kept.error);
      }
      return Ok(Counted(|kept.value|, []));
    }
    var count, sent := CountPages(QueryText(call.value.params), pages);
    return Ok(Counted(count, sent));
  }

  /** `countDatastoreRecords`: the total over the server's pages (given). */
  method CountRecords(query: string, pages: seq<Page>) returns (r: Result<Counted>)
    requires Conversation(pages)
    ensures RecordCountCall(query).Err? ==> r == Err(RecordCountCall(query).error)
    ensures RecordCountCall(query).Ok? ==>
      r.Ok? && r.value.count == Wrap32(Total(pages)) && |r.value.sent| == |pages| &&
      forall i :: 0 <= i < |pages| ==>
        r.value.sent[i] == TokenQuery(QueryText(RecordCountCall(query).value.params), TokenBefore(pages, i))
  {
    var call := RecordCountCall(query);
    if call.Err? {
      return Err(call.error);
    }
    var count, sent := CountPages(QueryText(call.value.params), pages);
    return Ok(Counted(count, sent));
  }

  // ----- retrieve -----

  /** `[Ii][Dd]=` at the start of the query. */
  predicate StartsWithId(q: string)
  {
    |q| >= 3 && (q[0] == 'i' || q[0] == 'I') && (q[1] == 'd' || q[1] == 'D') && q[2] == '='
  }

  /**
   * The id a retrieve looks up directly.  The whole query must match
   * `[Ii][Dd]=.*?(?:$|&)`: `id=` (either case of each letter) followed by
   * text without line terminators.  The id then runs from there to the
   * first `&` or to the end.
   */
  function RetrieveId(q: string): (id: Option<string>)
    ensures id.Some? <==> StartsWithId(q) && NoBreak(q[3..])
    ensures id.Some? ==> '&' !in id.value && 3 + |id.value| <= |q| && q[3..3 + |id.value|] == id.value
    ensures id.Some? ==> 3 + |id.value| == |q| || q[3 + |id.value|] == '&'
  {
    if StartsWithId(q) && NoBreak(q[3..]) then
      var k := 3 + IndexOf(q[3..], '&');
      assert q[3..][..k - 3] == q[3..k];
      Some(q[3..k])
    else None
  }

  /** An id with no `&` or line terminator is found, alone or followed by more parameters. */
  lemma RetrieveIdFound(prefix: string, id: string, rest: string)
    requires |prefix| == 2 && StartsWithId(prefix + "=")
    requires '&' !in id && NoBreak(id) && NoBreak(rest)
    ensures RetrieveId(prefix + "=" + id) == Some(id)
    ensures RetrieveId(prefix + "=" + id + "&" + rest) == Some(id)
  {
    var q1 := prefix + "=" + id;
    assert (prefix + "=")[0] == q1[0] && (prefix + "=")[1] == q1[1] && q1[2] == '=';
    assert q1[3..] == id;
    assert IndexOf(id, '&') == |id|;
    assert q1[3..3 + |id|] == id;
    var q2 := prefix + "=" + id + "&" + rest;
    var t := id + "&" + rest;
    assert (prefix + "=")[0] == q2[0] && (prefix + "=")[1] == q2[1] && q2[2] == '=';
    assert q2[3..] == t;
    assert q2[3..3 + |id|] == id;
    assert t[..|id|] == id && t[|id|] == '&';
    assert NoBreak(t) by {
      forall i | 0 <= i < |t| ensures !IsLineTerminator(t[i]) {
        if i > |id| {
          assert t[i] == rest[i - |id| - 1];
        } else if i < |id| {
          assert t[i] == id[i];
        }
      }
    }
  }

  /** The record of a search-based retrieve: more than one result fails, none gives the empty record. */
  function RetrievedRecord(results: seq<Object>, project: Object -> Record): (r: Result<Record>)
    ensures |results| > 1 <==> r == Err(AmbiguousRetrieve)
    ensures |results| == 0 ==> r == Ok([])
    ensures |results| == 1 ==> r == Ok(project(results[0]))
  {
    if |results| > 1 then Err(AmbiguousRetrieve)
    else if |results| == 0 then Ok([])
    else Ok(project(results[0]))
  }

  // ----- what the requests contain -----

  /** Some part of the query has the name, as the reader splits it. */
  predicate Names(rd: Reader, parts: seq<string>, name: string)
  {
    exists j :: 0 <= j < |parts| && PairOf(rd, parts[j]).Ok? && PairOf(rd, parts[j]).value.0 == name
  }

  /** The value of the last part with the name. */
  predicate LastValue(rd: Reader, parts: seq<string>, name: string, value: string)
  {
    exists j :: 0 <= j < |parts| && PairOf(rd, parts[j]).Ok? && PairOf(rd, parts[j]).value == (name, value) &&
      forall k :: j < k < |parts| ==> PairOf(rd, parts[k]).Ok? ==> PairOf(rd, parts[k]).value.0 != name
  }

  /** The parameters passed on for parts, in order: every part whose name is not taken out or dropped. */
  function Passed(rd: Reader, parts: seq<string>): Params
    requires forall j :: 0 <= j < |parts| ==> PairOf(rd, parts[j]).Ok?
    decreases |parts|
  {
    if |parts| == 0 then []
    else
      PassedOf(rd, PairOf(rd, parts[0]).value) + Passed(rd, parts[1..])
  }

  /** Reading succeeds exactly when every part splits. */
  lemma ReadPartsOk(rd: Reader, st: Scan, parts: seq<string>)
    ensures ReadParts(rd, st, parts).Ok? <==> forall j :: 0 <= j < |parts| ==> PairOf(rd, parts[j]).Ok?
  {
    ReadPartsSplit(rd, st, parts);
    SplitAllParts(rd, parts);
  }

  /** Every part, from the first on, splits. */
  predicate SplitAll(rd: Reader, parts: seq<string>)
    decreases |parts|
  {
    |parts| == 0 || (PairOf(rd, parts[0]).Ok? && SplitAll(rd, parts[1..]))
  }

  lemma {:induction false} ReadPartsSplit(rd: Reader, st: Scan, parts: seq<string>)
    ensures ReadParts(rd, st, parts).Ok? <==> SplitAll(rd, parts)
    decreases |parts|
  {
    if |parts| > 0 && PairOf(rd, parts[0]).Ok? {
      ReadPartsSplit(rd, ReadPart(rd, st, parts[0]).value, parts[1..]);
    }
  }

  lemma {:induction false} SplitAllParts(rd: Reader, parts: seq<string>)
    ensures SplitAll(rd, parts) <==> forall j :: 0 <= j < |parts| ==> PairOf(rd, parts[j]).Ok?
    decreases |parts|
  {
    if |parts| > 0 {
      var tail := parts[1..];
      SplitAllParts(rd, tail);
      assert forall j :: 0 <= j < |tail| ==> tail[j] == parts[j + 1];
    }
  }

  /** The parameters are the passed parts in query order, after those already read. */
  lemma {:induction false} ReadPartsParams(rd: Reader, st: Scan, parts: seq<string>)
    requires forall j :: 0 <= j < |parts| ==> PairOf(rd, parts[j]).Ok?
    ensures ReadParts(rd, st, parts).Ok?
    ensures ReadParts(rd, st, parts).value.params == st.params + Passed(rd, parts)
    decreases |parts|
  {
    ReadPartsOk(rd, st, parts);
    if |parts| > 0 {
      var tail := parts[1..];
      assert forall j :: 0 <= j < |tail| ==> PairOf(rd, tail[j]).Ok? by {
        forall j | 0 <= j < |tail| ensures PairOf(rd, tail[j]).Ok? { assert tail[j] == parts[j + 1]; }
      }
      var next := ReadPart(rd, st, parts[0]).value;
      ReadPartsParams(rd, next, tail);
      var passed := PassedOf(rd, PairOf(rd, parts[0]).value);
      assert next.params == st.params + passed;
      AppendAssoc(st.params, passed, Passed(rd, tail));
    }
  }

  /** One part read: a taken-out name now holds the part's value if the part names it, and is unchanged otherwise. */
  lemma ReadPartSlug(rd: Reader, st: Scan, part: string, name: string)
    requires name in rd.special && PairOf(rd, part).Ok?
    ensures ReadPart(rd, st, part).Ok?
    ensures Lookup(ReadPart(rd, st, part).value.slugs, name) ==
      if PairOf(rd, part).value.0 == name then Some(PairOf(rd, part).value.1) else Lookup(st.slugs, name)
  {
    var pair := PairOf(rd, part).value;
    if pair.0 != name && pair.0 in rd.special {
      PutOther(st.slugs, pair.0, pair.1, name);
    }
  }

  /** A taken-out name that no part names keeps its value. */
  lemma {:induction false} ReadPartsSlugAbsent(rd: Reader, st: Scan, parts: seq<string>, name: string)
    requires name in rd.special
    requires forall j :: 0 <= j < |parts| ==> PairOf(rd, parts[j]).Ok?
    requires !Names(rd, parts, name)
    ensures ReadParts(rd, st, parts).Ok?
    ensures Lookup(ReadParts(rd, st, parts).value.slugs, name) == Lookup(st.slugs, name)
    decreases |parts|
  {
    ReadPartsOk(rd, st, parts);
    if |parts| > 0 {
      var tail := parts[1..];
      ReadPartSlug(rd, st, parts[0], name);
      forall j | 0 <= j < |tail| ensures PairOf(rd, tail[j]).Ok? && PairOf(rd, tail[j]).value.0 != name {
        assert tail[j] == parts[j + 1];
      }
      ReadPartsSlugAbsent(rd, ReadPart(rd, st, parts[0]).value, tail, name);
    }
  }

  /** A taken-out name that some part names holds the value of the last such part. */
  lemma {:induction false} ReadPartsSlugLast(rd: Reader, st: Scan, parts: seq<string>, name: string) returns (v: string)
    requires name in rd.special
    requires forall j :: 0 <= j < |parts| ==> PairOf(rd, parts[j]).Ok?
    requires Names(rd, parts, name)
    ensures ReadParts(rd, st, parts).Ok?
    ensures Lookup(ReadParts(rd, st, parts).value.slugs, name) == Some(v) && LastValue(rd, parts, name, v)
    decreases |parts|
  {
    ReadPartsOk(rd, st, parts);
    var tail := parts[1..];
    ReadPartSlug(rd, st, parts[0], name);
    var next := ReadPart(rd, st, parts[0]).value;
    forall j | 0 <= j < |tail| ensures PairOf(rd, tail[j]).Ok? {
      assert tail[j] == parts[j + 1];
    }
    if Names(rd, tail, name) {
      v := ReadPartsSlugLast(rd, next, tail, name);
      LastValueLater(rd, parts, name, v);
    } else {
      LastValueFirst(rd, parts, name);
      ReadPartsSlugAbsent(rd, next, tail, name);
      v := PairOf(rd, parts[0]).value.1;
    }
  }

  /** The last part naming `name` in the parts after the first is the last one in all of them. */
  lemma LastValueLater(rd: Reader, parts: seq<string>, name: string, v: string)
    requires |parts| > 0 && LastValue(rd, parts[1..], name, v)
    ensures LastValue(rd, parts, name, v)
  {
    var tail := parts[1..];
    var j :| 0 <= j < |tail| && PairOf(rd, tail[j]).Ok? && PairOf(rd, tail[j]).value == (name, v) &&
      forall k :: j < k < |tail| ==> PairOf(rd, tail[k]).Ok? ==> PairOf(rd, tail[k]).value.0 != name;
    assert parts[j + 1] == tail[j];
    forall k | j + 1 < k < |parts| ensures PairOf(rd, parts[k]).Ok? ==> PairOf(rd, parts[k]).value.0 != name {
      assert parts[k] == tail[k - 1];
    }
  }

  /** When only the first part names `name`, its value is the last one. */
  lemma LastValueFirst(rd: Reader, parts: seq<string>, name: string)
    requires |parts| > 0 && forall j :: 0 <= j < |parts| ==> PairOf(rd, parts[j]).Ok?
    requires Names(rd, parts, name) && !Names(rd, parts[1..], name)
    ensures PairOf(rd, parts[0]).value.0 == name
    ensures LastValue(rd, parts, name, PairOf(rd, parts[0]).value.1)
  {
    var tail := parts[1..];
    forall k | 0 < k < |parts| ensures PairOf(rd, parts[k]).Ok? ==> PairOf(rd, parts[k]).value.0 != name {
      assert parts[k] == tail[k - 1];
    }
    var j :| 0 <= j < |parts| && PairOf(rd, parts[j]).Ok? && PairOf(rd, parts[j]).value.0 == name;
    assert j == 0;
  }



  /**
   * A submission search asks for children exactly when some part names
   * `parent`; without one it fails exactly when no part names `kappSlug`,
   * and otherwise passes the caller's other parameters in order followed by
   * `include=values,details`, the page size and the page token.
   */
  lemma SubmissionSearchShape(query: string, md: Metadata)
    requires forall j :: 0 <= j < |QueryParts(SubmissionSearch, query)| ==> PairOf(SubmissionSearch, QueryParts(SubmissionSearch, query)[j]).Ok?
    ensures ScanQuery(SubmissionSearch, query).Ok?
    ensures var parts := QueryParts(SubmissionSearch, query);
      var call := SubmissionSearchCall(query, md);
      (call.Ok? && call.value.ChildFetch? <==> Names(SubmissionSearch, parts, "parent")) &&
      (call == Err(MissingSlug("kappSlug")) <==>
        !Names(SubmissionSearch, parts, "parent") && !Names(SubmissionSearch, parts, "kappSlug")) &&
      (call.Ok? && call.value.KappFetch? ==>
        call.value.params == Passed(SubmissionSearch, parts) + SearchTail(md, Lookup(ScanQuery(SubmissionSearch, query).value.slugs, "limit")))
  {
    var rd := SubmissionSearch;
    var parts := QueryParts(rd, query);
    var st := Scan([], []);
    ReadPartsParams(rd, st, parts);
    assert [] + Passed(rd, parts) == Passed(rd, parts);
    var sc := ScanQuery(rd, query).value;
    assert sc.params == Passed(rd, parts);
    SlugPresent(rd, parts, "parent");
    SlugPresent(rd, parts, "kappSlug");
  }

  /** A taken-out name has a value after reading exactly when some part names it. */
  lemma SlugPresent(rd: Reader, parts: seq<string>, name: string)
    requires name in rd.special
    requires forall j :: 0 <= j < |parts| ==> PairOf(rd, parts[j]).Ok?
    ensures ReadParts(rd, Scan([], []), parts).Ok?
    ensures Lookup(ReadParts(rd, Scan([], []), parts).value.slugs, name).Some? <==> Names(rd, parts, name)
  {
    var none: seq<(string, string)> := [];
    if Names(rd, parts, name) {
      var v := ReadPartsSlugLast(rd, Scan([], []), parts, name);
    } else {
      ReadPartsSlugAbsent(rd, Scan([], []), parts, name);
      assert Lookup(none, name).None?;
    }
  }

  /**
   * A record search fails exactly when no part names `datastoreSlug`, and
   * otherwise passes the caller's other parameters in order followed by
   * `include=values,details`, the page size and the page token.
   */
  lemma RecordSearchShape(query: string, md: Metadata)
    requires forall j :: 0 <= j < |QueryParts(RecordSearch, query)| ==> PairOf(RecordSearch, QueryParts(RecordSearch, query)[j]).Ok?
    ensures ScanQuery(RecordSearch, query).Ok?
    ensures var parts := QueryParts(RecordSearch, query);
      var call := RecordSearchCall(query, md);
      (call == Err(MissingSlug("datastoreSlug")) <==> !Names(RecordSearch, parts, "datastoreSlug")) &&
      (call.Ok? ==>
        call.value.params == Passed(RecordSearch, parts) + SearchTail(md, Lookup(ScanQuery(RecordSearch, query).value.slugs, "limit")))
  {
    var rd := RecordSearch;
    var parts := QueryParts(rd, query);
    var st := Scan([], []);
    ReadPartsParams(rd, st, parts);
    assert [] + Passed(rd, parts) == Passed(rd, parts);
    var sc := ScanQuery(rd, query).value;
    assert sc.params == Passed(rd, parts);
    if Names(rd, parts, "datastoreSlug") {
      var v := ReadPartsSlugLast(rd, st, parts, "datastoreSlug");
    } else {
      ReadPartsSlugAbsent(rd, st, parts, "datastoreSlug");
    }
  }

  /**
   * The page size of a search: the `pageSize` metadata wins, then the value
   * of the last `limit` part when it is not empty, then 1000.
   */
  lemma SearchLimit(rd: Reader, query: string, md: Metadata)
    requires rd.search && "limit" in rd.special
    requires forall j :: 0 <= j < |QueryParts(rd, query)| ==> PairOf(rd, QueryParts(rd, query)[j]).Ok?
    ensures ScanQuery(rd, query).Ok?
    ensures md.pageSize.Some? ==> PageSize(md, Lookup(ScanQuery(rd, query).value.slugs, "limit")) == md.pageSize.value
    ensures md.pageSize.None? && !Names(rd, QueryParts(rd, query), "limit") ==>
      PageSize(md, Lookup(ScanQuery(rd, query).value.slugs, "limit")) == "1000"
    ensures md.pageSize.None? ==> forall v :: LastValue(rd, QueryParts(rd, query), "limit", v) ==>
      PageSize(md, Lookup(ScanQuery(rd, query).value.slugs, "limit")) == if v == "" then "1000" else v
  {
    var parts := QueryParts(rd, query);
    var st := Scan([], []);
    ReadPartsOk(rd, st, parts);
    if Names(rd, parts, "limit") {
      var w := ReadPartsSlugLast(rd, st, parts, "limit");
      forall v | LastValue(rd, parts, "limit", v) ensures v == w {
        LastValueUnique(rd, parts, "limit", v, w);
      }
    } else {
      ReadPartsSlugAbsent(rd, st, parts, "limit");
    }
  }

  /**
   * Exactly one `limit` parameter reaches the server, right after
   * `include`: the caller's `limit` parts are taken out.
   */
  lemma SearchLimitOnce(rd: Reader, query: string, md: Metadata, limit: Option<string>)
    requires rd.search && "limit" in rd.special
    requires forall j :: 0 <= j < |QueryParts(rd, query)| ==> PairOf(rd, QueryParts(rd, query)[j]).Ok?
    ensures var ps := Passed(rd, QueryParts(rd, query)) + SearchTail(md, limit);
      var i := |Passed(rd, QueryParts(rd, query))| + 1;
      i < |ps| && ps[i] == ("limit", PageSize(md, limit)) &&
      forall k :: 0 <= k < |ps| && k != i ==> ps[k].0 != "limit"
  {
    LimitOnce(rd, QueryParts(rd, query), md, limit);
  }

  /** `SearchLimitOnce` for any list of parts that all split. */
  lemma LimitOnce(rd: Reader, parts: seq<string>, md: Metadata, limit: Option<string>)
    requires rd.search && "limit" in rd.special
    requires forall j :: 0 <= j < |parts| ==> PairOf(rd, parts[j]).Ok?
    ensures var ps := Passed(rd, parts) + SearchTail(md, limit);
      var i := |Passed(rd, parts)| + 1;
      i < |ps| && ps[i] == ("limit", PageSize(md, limit)) &&
      forall k :: 0 <= k < |ps| && k != i ==> ps[k].0 != "limit"
  {
    PassedNames(rd, parts);
    LimitAfterInclude(Passed(rd, parts), md, limit);
  }

  /** After parameters without `limit`, the search tail holds `limit` once, right after `include`. */
  lemma LimitAfterInclude(passed: Params, md: Metadata, limit: Option<string>)
    requires forall k :: 0 <= k < |passed| ==> passed[k].0 != "limit"
    ensures var ps := passed + SearchTail(md, limit);
      var i := |passed| + 1;
      i < |ps| && ps[i] == ("limit", PageSize(md, limit)) &&
      forall k :: 0 <= k < |ps| && k != i ==> ps[k].0 != "limit"
  {
    var tail := SearchTail(md, limit);
    assert "include" != "limit" && "pageToken" != "limit" by {
      assert "include"[0] != "limit"[0] && "pageToken"[0] != "limit"[0];
    }
    assert forall k :: 0 <= k < |tail| && k != 1 ==> tail[k].0 != "limit";
    var ps := passed + tail;
    forall k | 0 <= k < |ps| && k != |passed| + 1
      ensures ps[k].0 != "limit"
    {
      if k < |passed| {
        assert ps[k] == passed[k];
      } else {
        assert ps[k] == tail[k - |passed|];
      }
    }
  }

  /** No passed parameter carries a taken-out or dropped name. */
  lemma {:induction false} PassedNames(rd: Reader, parts: seq<string>)
    requires forall j :: 0 <= j < |parts| ==> PairOf(rd, parts[j]).Ok?
    ensures forall i :: 0 <= i < |Passed(rd, parts)| ==>
      Passed(rd, parts)[i].0 !in rd.special && !Dropped(rd, Passed(rd, parts)[i].0)
    decreases |parts|
  {
    if |parts| > 0 {
      assert forall j :: 0 <= j < |parts| - 1 ==> parts[1..][j] == parts[j + 1];
      PassedNames(rd, parts[1..]);
    }
  }

  /** The last value of a name is unique. */
  lemma LastValueUnique(rd: Reader, parts: seq<string>, name: string, v: string, w: string)
    requires LastValue(rd, parts, name, v) && LastValue(rd, parts, name, w)
    ensures v == w
  {
    var j :| 0 <= j < |parts| && PairOf(rd, parts[j]).Ok? && PairOf(rd, parts[j]).value == (name, v) &&
      forall k :: j < k < |parts| ==> PairOf(rd, parts[k]).Ok? ==> PairOf(rd, parts[k]).value.0 != name;
    var l :| 0 <= l < |parts| && PairOf(rd, parts[l]).Ok? && PairOf(rd, parts[l]).value == (name, w) &&
      forall k :: l < k < |parts| ==> PairOf(rd, parts[k]).Ok? ==> PairOf(rd, parts[k]).value.0 != name;
    assert j == l;
  }

  /**
   * A search part keeps every `=` after the first in its value (unless the
   * value ends with `=`), where a count part keeps only the piece up to the
   * second `=`.
   */
  lemma SearchPairValue(name: string, value: string)
    requires '=' !in name && |value| > 0 && value[|value| - 1] != '='
    ensures SearchPair(name + "=" + value) == Ok((Trim(name), value))
  {
    var part := name + "=" + value;
    assert part == Join([name] + SplitChar(value, '='), "=") by {
      assert ([name] + SplitChar(value, '='))[1..] == SplitChar(value, '=');
    }
    SplitJoinChar([name] + SplitChar(value, '='), '=');
    assert part[|name|] == '=';
    var sp := SplitChar(part, '=');
    assert sp == [name] + SplitChar(value, '=');
    SplitLastNonEmpty(value, '=');
    assert DropTrailingEmpty(sp) == sp;
    assert sp[1..] == SplitChar(value, '=');
  }

  lemma CountPairValue(name: string, first: string, more: string)
    requires '=' !in name && '=' !in first && '=' !in more && |more| > 0
    ensures ParsePart(name + "=" + first + "=" + more) == Ok((Trim(name), Trim(first)))
  {
    var part := name + "=" + first + "=" + more;
    assert [name, first, more][1..] == [first, more] && [first, more][1..] == [more];
    assert Join([first, more], "=") == first + "=" + more;
    assert part == Join([name, first, more], "=");
    SplitJoinChar([name, first, more], '=');
    assert part[|name|] == '=';
    assert DropTrailingEmpty([name, first, more]) == [name, first, more];
  }
}
