/**
 * `filterSubmissions` of the version 1 submission helper, applied to the
 * children of a parent submission.  As in the user filter, each
 * `field=value` part of the query becomes matchers, but:
 *
 *   - every part is its own entry (entries are keyed by a fresh array), so a
 *     field named twice must satisfy both parts;
 *   - `pattern=p` together with `fields=a,b,...` adds one more entry: any of
 *     the listed fields containing `p`, ignoring case; either one alone fails;
 *   - an entry with several fields keeps a submission when any field hits,
 *     and a submission already kept by the entry is not tested again;
 *   - a `container[key]` field also accepts an object container (looked up
 *     by key) and a scalar container (the value itself).
 *
 * An empty query returns the submissions unchanged.
 */
module SubmissionFilter {
  import opened Base
  import opened Strings
  import opened Json
  import opened Brackets
  import opened Attributes
  import opened Wildcard
  import opened Qualifiers

  /** One `queryMatchers` entry: the fields (any of which may hit) and their matchers. */
  datatype Entry = Entry(fields: seq<string>, ms: seq<Matcher>)

  /** The state of the parts loop: the entries so far, and the `pattern` and `fields` values when given. */
  datatype Reading = Reading(entries: seq<Entry>, pattern: Option<string>, fields: Option<seq<string>>)

  /** A part that reads and names `name`. */
  predicate NamesField(part: string, name: string)
  {
    ParsePart(part).Ok? && ParsePart(part).value.0 == name
  }

  /** A part that reads and names neither `pattern` nor `fields`: it is an entry of its own. */
  predicate Plain(part: string)
  {
    ParsePart(part).Ok? && ParsePart(part).value.0 != "pattern" && ParsePart(part).value.0 != "fields"
  }

  /** The entry of a plain part `f=v`: the one field `f` with the matchers of `v`. */
  function PartEntry(part: string): Entry
    requires Plain(part)
  {
    Entry([ParsePart(part).value.0], MatchersFor(ParsePart(part).value.1))
  }

  /**
   * One part read: `pattern` and `fields` are remembered (the last one
   * wins), any other field adds an entry; only a part that cannot be split
   * fails.
   */
  function ReadPart(st: Reading, part: string): (r: Result<Reading>)
    ensures r.Ok? <==> ParsePart(part).Ok?
    ensures r.Ok? ==> r.value.entries == st.entries + (if Plain(part) then [PartEntry(part)] else [])
    ensures r.Ok? ==> r.value.pattern == if NamesField(part, "pattern") then Some(ParsePart(part).value.1) else st.pattern
    ensures r.Ok? ==>
      r.value.fields == if NamesField(part, "fields") then Some(JavaSplit(ParsePart(part).value.1, ',')) else st.fields
  {
    var fv :- ParsePart(part);
    if fv.0 == "pattern" then Ok(st.(pattern := Some(fv.1)))
    else if fv.0 == "fields" then Ok(st.(fields := Some(JavaSplit(fv.1, ','))))
    else Ok(st.(entries := st.entries + [Entry([fv.0], MatchersFor(fv.1))]))
  }

  function ReadParts(st: Reading, parts: seq<string>): Result<Reading>
    decreases |parts|
  {
    if |parts| == 0 then Ok(st)
    else
      var next :- ReadPart(st, parts[0]);
      ReadParts(next, parts[1..])
  }

  /** The matcher built for `pattern`: `.*`, the quoted pattern, `.*`, ignoring case. */
  function ContainsPattern(p: string): seq<Token>
  {
    [Star] + (Lits(p) + [Star])
  }

  /** The entries of a query, the `pattern` entry last. */
  function Entries(query: string): Result<seq<Entry>>
  {
    var st :- ReadParts(Reading([], None, None), JavaSplit(query, '&'));
    if st.pattern.Some? && st.fields.Some? then
      Ok(st.entries + [Entry(st.fields.value, [PatternM(ContainsPattern(st.pattern.value))])])
    else if st.pattern.Some? || st.fields.Some? then Err(PatternWithoutFields)
    else Ok(st.entries)
  }

  /** The values a submission offers for a field: a list as it is, anything else (also `null`) as a one-item list. */
  function FieldValues(sub: Object, field: string): (r: Result<seq<Json>>)
    ensures FindBracket(field).None? ==> r == Ok([Get(sub, field)])
  {
    match FindBracket(field)
    case Some(g) =>
      var child :- ChildValues(g.0, g.1, sub);
      Ok(if child.JArr? then child.items else [child])
    case None => Ok([Get(sub, field)])
  }

  function Hits(sub: Object, field: string, ms: seq<Matcher>): Result<nat>
  {
    var fvs :- FieldValues(sub, field);
    ValueHits(fvs, ms)
  }

  /** One field of an entry over the submissions: each one not yet kept by the entry is appended once per hit. */
  function PassField(subs: seq<Object>, field: string, ms: seq<Matcher>, kept: seq<Object>): Result<seq<Object>>
    decreases |subs|
  {
    if |subs| == 0 then Ok(kept)
    else if subs[0] in kept then PassField(subs[1..], field, ms, kept)
    else
      var h :- Hits(subs[0], field, ms);
      PassField(subs[1..], field, ms, kept + Repeat(subs[0], h))
  }

  /** All fields of an entry, one after the other, adding to the same result. */
  function PassFields(subs: seq<Object>, fields: seq<string>, ms: seq<Matcher>, kept: seq<Object>): Result<seq<Object>>
    decreases |fields|
  {
    if |fields| == 0 then Ok(kept)
    else
      var next :- PassField(subs, fields[0], ms, kept);
      PassFields(subs, fields[1..], ms, next)
  }

  /** The entries in order, each over the previous one's result. */
  function FilterEntries(subs: seq<Object>, es: seq<Entry>): Result<seq<Object>>
    decreases |es|
  {
    if |es| == 0 then Ok(subs)
    else
      var kept :- PassFields(subs, es[0].fields, es[0].ms, []);
      FilterEntries(kept, es[1..])
  }

  /** The result of `filterSubmissions(subs, query)`. */
  function Filtered(subs: seq<Object>, query: string): Result<seq<Object>>
  {
    if query == "" then Ok(subs)
    else
      var es :- Entries(query);
      FilterEntries(subs, es)
  }

  /** The parts loop of `filterSubmissions`, then the `pattern` / `fields` check. */
  method ReadEntries(query: string) returns (r: Result<seq<Entry>>)
    ensures r == Entries(query)
  {
    var parts := JavaSplit(query, '&');
    var entries: seq<Entry> := [];
    var pattern: Option<string> := None;
    var fields: Option<seq<string>> := None;
    var i := 0;
    assert parts[0..] == parts;
    while i < |parts|
      invariant 0 <= i <= |parts|
      invariant ReadParts(Reading([], None, None), parts) == ReadParts(Reading(entries, pattern, fields), parts[i..])
    {
      assert parts[i..][1..] == parts[i + 1..];
      var fv := ParsePart(parts[i]);
      if fv.Err? {
        return Err(fv.error);
      }
      var (field, value) := fv.value;
      if field == "pattern" {
        pattern := Some(value);
      } else if field == "fields" {
        fields := Some(JavaSplit(value, ','));
      } else {
        entries := entries + [Entry([field], MatchersFor(value))];
      }
      i := i + 1;
    }
    if pattern.Some? && fields.Some? {
      entries := entries + [Entry(fields.value, [PatternM(ContainsPattern(pattern.value))])];
    } else if pattern.Some? || fields.Some? {
      return Err(PatternWithoutFields);
    }
    return Ok(entries);
  }

  /** The lookup of a submission's field values (lines 564-574). */
  method GetFieldValues(sub: Object, field: string) returns (r: Result<seq<Json>>)
    ensures r == FieldValues(sub, field)
  {
    var g := FindBracket(field);
    if g.Some? {
      var child := GetChildValues(g.value.0, g.value.1, sub);
      if child.Err? {
        return Err(child.error);
      }
      if child.value.JArr? {
        return Ok(child.value.items);
      }
      return Ok([child.value]);
    }
    return Ok([Get(sub, field)]);
  }

  /** The submissions loop for one field of an entry. */
  method PassFieldLoop(subs: seq<Object>, field: string, ms: seq<Matcher>, kept: seq<Object>) returns (r: Result<seq<Object>>)
    ensures r == PassField(subs, field, ms, kept)
  {
    var entry := kept;
    var i := 0;
    assert subs[0..] == subs;
    while i < |subs|
      invariant 0 <= i <= |subs|
      invariant PassField(subs, field, ms, kept) == PassField(subs[i..], field, ms, entry)
    {
      assert subs[i..][1..] == subs[i + 1..];
      var o := subs[i];
      if o !in entry {
        var fvs := GetFieldValues(o, field);
        if fvs.Err? {
          return Err(fvs.error);
        }
        var next := AppendValueHits(o, fvs.value, ms, entry);
        if next.Err? {
          return next;
        }
        entry := next.value;
      }
      i := i + 1;
    }
    return Ok(entry);
  }

  /** The fields loop of one entry, each field's submissions loop adding to the same list. */
  method PassFieldsLoop(subs: seq<Object>, fields: seq<string>, ms: seq<Matcher>) returns (r: Result<seq<Object>>)
    ensures r == PassFields(subs, fields, ms, [])
  {
    var entry: seq<Object> := [];
    var j := 0;
    assert fields[0..] == fields;
    while j < |fields|
      invariant 0 <= j <= |fields|
      invariant PassFields(subs, fields, ms, []) == PassFields(subs, fields[j..], ms, entry)
    {
      assert fields[j..][1..] == fields[j + 1..];
      var next := PassFieldLoop(subs, fields[j], ms, entry);
      if next.Err? {
        return Err(next.error);
      }
      entry := next.value;
      j := j + 1;
    }
    return Ok(entry);
  }

  /** `filterSubmissions`: the entries read, then for each entry the loop over its fields and the submissions. */
  method FilterSubmissions(subs: seq<Object>, query: string) returns (r: Result<seq<Object>>)
    ensures r == Filtered(subs, query)
  {
    if query == "" {
      return Ok(subs);
    }
    var read := ReadEntries(query);
    if read.Err? {
      return Err(read.error);
    }
    var es := read.value;
    var matched := subs;
    var i := 0;
    assert es[0..] == es;
    while i < |es|
      invariant 0 <= i <= |es|
      invariant FilterEntries(subs, es) == FilterEntries(matched, es[i..])
    {
      assert es[i..][1..] == es[i + 1..];
      var next := PassFieldsLoop(matched, es[i].fields, es[i].ms);
      if next.Err? {
        return Err(next.error);
      }
      var entry := next.value;
      matched := entry;
      i := i + 1;
    }
    return Ok(matched);
  }

  // ----- what the filter keeps -----

  /** The number of times a field's test appends a submission (none when the lookup fails). */
  function Weight(x: Object, field: string, ms: seq<Matcher>): nat
  {
    match Hits(x, field, ms)
    case Ok(h) => h
    case Err(_) => 0
  }

  /** Some field of the entry hits the submission. */
  predicate AnyField(x: Object, e: Entry)
  {
    exists j :: 0 <= j < |e.fields| && Weight(x, e.fields[j], e.ms) > 0
  }

  /** A field keeps what was kept before and adds the submissions it hits. */
  lemma {:induction false} PassFieldMembers(subs: seq<Object>, field: string, ms: seq<Matcher>, kept: seq<Object>, x: Object)
    requires PassField(subs, field, ms, kept).Ok?
    ensures x in PassField(subs, field, ms, kept).value <==> x in kept || (x in subs && Weight(x, field, ms) > 0)
    decreases |subs|
  {
    if |subs| > 0 {
      var s := subs[0];
      assert x in subs <==> x == s || x in subs[1..];
      if s in kept {
        PassFieldMembers(subs[1..], field, ms, kept, x);
      } else {
        var h := Hits(s, field, ms).value;
        PassFieldMembers(subs[1..], field, ms, kept + Repeat(s, h), x);
        assert x in kept + Repeat(s, h) <==> x in kept || (x == s && h > 0);
      }
    }
  }

  /** An entry's fields are ORed: it keeps the submissions that some field hits. */
  lemma {:induction false} PassFieldsMembers(subs: seq<Object>, fields: seq<string>, ms: seq<Matcher>, kept: seq<Object>, x: Object)
    requires PassFields(subs, fields, ms, kept).Ok?
    ensures x in PassFields(subs, fields, ms, kept).value <==>
      x in kept || (x in subs && exists j :: 0 <= j < |fields| && Weight(x, fields[j], ms) > 0)
    decreases |fields|
  {
    if |fields| > 0 {
      var next := PassField(subs, fields[0], ms, kept).value;
      PassFieldMembers(subs, fields[0], ms, kept, x);
      PassFieldsMembers(subs, fields[1..], ms, next, x);
      var tail := fields[1..];
      if exists j :: 0 <= j < |fields| && Weight(x, fields[j], ms) > 0 {
        var j :| 0 <= j < |fields| && Weight(x, fields[j], ms) > 0;
        if j > 0 {
          assert tail[j - 1] == fields[j];
        }
      }
      if exists j :: 0 <= j < |tail| && Weight(x, tail[j], ms) > 0 {
        var j :| 0 <= j < |tail| && Weight(x, tail[j], ms) > 0;
        assert fields[j + 1] == tail[j];
      }
    }
  }

  /** The entries are ANDed: a submission survives when every entry has a field that hits it. */
  lemma {:induction false} FilterEntriesMembers(subs: seq<Object>, es: seq<Entry>, x: Object)
    requires FilterEntries(subs, es).Ok?
    ensures x in FilterEntries(subs, es).value <==> x in subs && forall i :: 0 <= i < |es| ==> AnyField(x, es[i])
    decreases |es|
  {
    if |es| > 0 {
      var kept := PassFields(subs, es[0].fields, es[0].ms, []).value;
      PassFieldsMembers(subs, es[0].fields, es[0].ms, [], x);
      FilterEntriesMembers(kept, es[1..], x);
      var tail := es[1..];
      if forall i :: 0 <= i < |es| ==> AnyField(x, es[i]) {
        forall i | 0 <= i < |tail| ensures AnyField(x, tail[i]) {
          assert tail[i] == es[i + 1];
        }
      }
      if x in kept && forall i :: 0 <= i < |tail| ==> AnyField(x, tail[i]) {
        forall i | 0 <= i < |es| ensures AnyField(x, es[i]) {
          if i > 0 {
            assert es[i] == tail[i - 1];
          }
        }
      }
    }
  }

  /**
   * `filterSubmissions` keeps exactly the submissions for which every entry
   * of the query has a field that hits; the empty query keeps all.
   */
  lemma FilteredMembers(subs: seq<Object>, query: string, x: Object)
    requires Filtered(subs, query).Ok?
    ensures query == "" ==> Filtered(subs, query) == Ok(subs)
    ensures query != "" ==> (x in Filtered(subs, query).value <==>
      x in subs && forall i :: 0 <= i < |Entries(query).value| ==> AnyField(x, Entries(query).value[i]))
  {
    if query != "" {
      FilterEntriesMembers(subs, Entries(query).value, x);
    }
  }

  /** The `pattern` matcher hits a value whose text contains the pattern, ignoring case, on one line around it. */
  lemma PatternHit(p: string, fv: Json)
    ensures Hit(fv, PatternM(ContainsPattern(p))) <==> fv != JNull && exists k :: ContainsAt(p, JavaString(fv), k)
  {
    if fv != JNull {
      var s := JavaString(fv);
      if Matches(ContainsPattern(p), s) {
        var k := SurroundedFound(p, s);
      }
      if exists k :: ContainsAt(p, s, k) {
        var k :| ContainsAt(p, s, k);
        SurroundedAt(p, s, k);
      }
    }
  }

  /** A part names `pattern` (or `fields`). */
  predicate Names(parts: seq<string>, name: string)
  {
    exists j :: 0 <= j < |parts| && NamesField(parts[j], name)
  }

  /** After reading, `pattern` and `fields` are given exactly when some part names them. */
  lemma ReadPartsNames(st: Reading, parts: seq<string>)
    requires ReadParts(st, parts).Ok?
    ensures ReadParts(st, parts).value.pattern.Some? <==> st.pattern.Some? || Names(parts, "pattern")
    ensures ReadParts(st, parts).value.fields.Some? <==> st.fields.Some? || Names(parts, "fields")
  {
    ReadPartsNamed(st, parts);
    AnyOfExists(parts, "pattern", NamesField);
    AnyOfExists(parts, "fields", NamesField);
  }

  lemma {:induction false} ReadPartsNamed(st: Reading, parts: seq<string>)
    requires ReadParts(st, parts).Ok?
    ensures ReadParts(st, parts).value.pattern.Some? <==> st.pattern.Some? || AnyOf(parts, "pattern", NamesField)
    ensures ReadParts(st, parts).value.fields.Some? <==> st.fields.Some? || AnyOf(parts, "fields", NamesField)
    decreases |parts|
  {
    if |parts| > 0 {
      var next := ReadPart(st, parts[0]).value;
      assert ReadParts(st, parts) == ReadParts(next, parts[1..]);
      ReadPartsNamed(next, parts[1..]);
    }
  }

  /** `pattern` and `fields` must come together: a query naming only one of them fails. */
  lemma PatternNeedsFields(query: string)
    requires query != ""
    requires ReadParts(Reading([], None, None), JavaSplit(query, '&')).Ok?
    ensures var parts := JavaSplit(query, '&');
      Entries(query) == Err(PatternWithoutFields) <==> Names(parts, "pattern") != Names(parts, "fields")
  {
    ReadPartsNames(Reading([], None, None), JavaSplit(query, '&'));
  }

  // ----- what a query reads to -----

  /** The entry of a plain part, and none for any other part. */
  function PlainEntryOf(part: string): Option<Entry>
  {
    if Plain(part) then Some(PartEntry(part)) else None
  }

  /** The entries of the plain parts, in query order. */
  function PlainEntries(parts: seq<string>): seq<Entry>
  {
    Collect(parts, PlainEntryOf)
  }

  /** The value of a part that names `name`, and none for any other part. */
  function NamedValue(part: string, name: string): Option<string>
  {
    if NamesField(part, name) then Some(ParsePart(part).value.1) else None
  }

  /** The value of the last part that names `name`, if any does. */
  function LastValue(parts: seq<string>, name: string): Option<string>
  {
    LastSome(parts, name, NamedValue)
  }

  /** Reading succeeds exactly when every part can be split. */
  lemma {:induction false} ReadPartsOk(st: Reading, parts: seq<string>)
    ensures ReadParts(st, parts).Ok? <==> forall j :: 0 <= j < |parts| ==> ParsePart(parts[j]).Ok?
    decreases |parts|
  {
    if |parts| > 0 {
      var tail := parts[1..];
      if ParsePart(parts[0]).Ok? {
        ReadPartsOk(ReadPart(st, parts[0]).value, tail);
      }
      if forall j :: 0 <= j < |parts| ==> ParsePart(parts[j]).Ok? {
        forall j | 0 <= j < |tail|
          ensures ParsePart(tail[j]).Ok?
        {
          assert tail[j] == parts[j + 1];
        }
      }
      if ParsePart(parts[0]).Ok? && forall j :: 0 <= j < |tail| ==> ParsePart(tail[j]).Ok? {
        forall j | 0 <= j < |parts|
          ensures ParsePart(parts[j]).Ok?
        {
          if j > 0 {
            assert parts[j] == tail[j - 1];
          }
        }
      }
    }
  }

  /** After reading, the entries are those of the plain parts, in query order, after the earlier ones. */
  lemma {:induction false} ReadPartsEntries(st: Reading, parts: seq<string>)
    requires ReadParts(st, parts).Ok?
    ensures ReadParts(st, parts).value.entries == st.entries + PlainEntries(parts)
    decreases |parts|
  {
    if |parts| > 0 {
      var next := ReadPart(st, parts[0]).value;
      assert ReadParts(st, parts) == ReadParts(next, parts[1..]);
      ReadPartsEntries(next, parts[1..]);
      AppendAssoc(st.entries, if Plain(parts[0]) then [PartEntry(parts[0])] else [], PlainEntries(parts[1..]));
    }
  }

  /** After reading, `pattern` is the value of the last part naming it, and unchanged when none does. */
  lemma {:induction false} ReadPartsPattern(st: Reading, parts: seq<string>)
    requires ReadParts(st, parts).Ok?
    ensures ReadParts(st, parts).value.pattern ==
      if LastValue(parts, "pattern").Some? then LastValue(parts, "pattern") else st.pattern
    decreases |parts|
  {
    if |parts| > 0 {
      var next := ReadPart(st, parts[0]).value;
      assert ReadParts(st, parts) == ReadParts(next, parts[1..]);
      ReadPartsPattern(next, parts[1..]);
    }
  }

  /** After reading, `fields` is the split value of the last part naming it, and unchanged when none does. */
  lemma {:induction false} ReadPartsFields(st: Reading, parts: seq<string>)
    requires ReadParts(st, parts).Ok?
    ensures ReadParts(st, parts).value.fields ==
      match LastValue(parts, "fields")
      case Some(v) => Some(JavaSplit(v, ','))
      case None => st.fields
    decreases |parts|
  {
    if |parts| > 0 {
      var next := ReadPart(st, parts[0]).value;
      assert ReadParts(st, parts) == ReadParts(next, parts[1..]);
      ReadPartsFields(next, parts[1..]);
    }
  }

  /** The value of the last part naming `name` is what `LastValue` gives. */
  lemma LastValueAt(parts: seq<string>, name: string, i: nat)
    requires i < |parts| && NamesField(parts[i], name)
    requires forall j :: i < j < |parts| ==> !NamesField(parts[j], name)
    ensures LastValue(parts, name) == Some(ParsePart(parts[i]).value.1)
  {
    forall j | i < j < |parts|
      ensures NamedValue(parts[j], name).None?
    {
    }
    LastSomeAt(parts, name, NamedValue, i);
  }

  /** No value for `name` exactly when no part names it. */
  lemma LastValueNone(parts: seq<string>, name: string)
    ensures LastValue(parts, name).None? <==> forall j :: 0 <= j < |parts| ==> !NamesField(parts[j], name)
  {
    LastSomeNone(parts, name, NamedValue);
    assert forall j :: 0 <= j < |parts| ==> (NamedValue(parts[j], name).None? <==> !NamesField(parts[j], name));
  }

  /** Each plain part's entry is among the plain entries, and each plain entry is some plain part's. */
  lemma PlainEntriesMembers(parts: seq<string>, e: Entry)
    ensures e in PlainEntries(parts) <==> exists j :: 0 <= j < |parts| && Plain(parts[j]) && PartEntry(parts[j]) == e
  {
    if e in PlainEntries(parts) {
      CollectFrom(parts, PlainEntryOf, e);
      var j :| 0 <= j < |parts| && PlainEntryOf(parts[j]) == Some(e);
      assert Plain(parts[j]) && PartEntry(parts[j]) == e;
    }
    if exists j :: 0 <= j < |parts| && Plain(parts[j]) && PartEntry(parts[j]) == e {
      var j :| 0 <= j < |parts| && Plain(parts[j]) && PartEntry(parts[j]) == e;
      CollectHas(parts, PlainEntryOf, j);
    }
  }

  /** The `pattern` entry of the last `pattern` and `fields` values, when both are given. */
  function PatternEntries(parts: seq<string>): seq<Entry>
  {
    var p, fs := LastValue(parts, "pattern"), LastValue(parts, "fields");
    if p.Some? && fs.Some? then [Entry(JavaSplit(fs.value, ','), [PatternM(ContainsPattern(p.value))])] else []
  }

  /**
   * The entries of a query whose parts all split: one per plain part, in
   * query order, then the `pattern` entry when both `pattern` and `fields`
   * are named; naming only one of them fails.
   */
  lemma EntriesShape(query: string)
    requires forall j :: 0 <= j < |JavaSplit(query, '&')| ==> ParsePart(JavaSplit(query, '&')[j]).Ok?
    ensures var parts := JavaSplit(query, '&');
      Entries(query) ==
        if LastValue(parts, "pattern").Some? != LastValue(parts, "fields").Some? then Err(PatternWithoutFields)
        else Ok(PlainEntries(parts) + PatternEntries(parts))
  {
    var parts := JavaSplit(query, '&');
    var init := Reading([], None, None);
    ReadPartsOk(init, parts);
    ReadPartsEntries(init, parts);
    ReadPartsPattern(init, parts);
    ReadPartsFields(init, parts);
    var st := ReadParts(init, parts).value;
    assert st.pattern == LastValue(parts, "pattern");
    assert st.fields.Some? == LastValue(parts, "fields").Some?;
    assert st.entries == PlainEntries(parts);
    if st.pattern.Some? && st.fields.Some? {
      assert PatternEntries(parts) == [Entry(st.fields.value, [PatternM(ContainsPattern(st.pattern.value))])];
      assert Entries(query) == Ok(st.entries + PatternEntries(parts));
    } else if st.pattern.Some? || st.fields.Some? {
      assert Entries(query) == Err(PatternWithoutFields);
    } else {
      assert st.entries + PatternEntries(parts) == st.entries;
    }
  }

  /**
   * Every part is its own entry: a submission is kept exactly when every
   * plain part has a field that hits it (so a field named twice must
   * satisfy both parts), and, when both are named, one of the `fields`
   * contains the `pattern`.
   */
  lemma FilteredByParts(subs: seq<Object>, query: string, x: Object)
    requires query != "" && Filtered(subs, query).Ok?
    ensures var parts := JavaSplit(query, '&');
      x in Filtered(subs, query).value <==>
        && x in subs
        && (forall j :: 0 <= j < |parts| && Plain(parts[j]) ==> AnyField(x, PartEntry(parts[j])))
        && (forall k :: 0 <= k < |PatternEntries(parts)| ==> AnyField(x, PatternEntries(parts)[k]))
  {
    var parts := JavaSplit(query, '&');
    var init := Reading([], None, None);
    assert ReadParts(init, parts).Ok?;
    ReadPartsOk(init, parts);
    EntriesShape(query);
    FilteredMembers(subs, query, x);
    AllEntriesAppend(x, PlainEntries(parts), PatternEntries(parts));
    AllPlainEntries(x, parts);
  }

  /** Every entry of two lists of entries admits `x` exactly when every entry of each does. */
  lemma AllEntriesAppend(x: Object, a: seq<Entry>, b: seq<Entry>)
    ensures (forall i :: 0 <= i < |a + b| ==> AnyField(x, (a + b)[i])) <==>
      (forall i :: 0 <= i < |a| ==> AnyField(x, a[i])) && (forall i :: 0 <= i < |b| ==> AnyField(x, b[i]))
  {
    if forall i :: 0 <= i < |a + b| ==> AnyField(x, (a + b)[i]) {
      forall i | 0 <= i < |b|
        ensures AnyField(x, b[i])
      {
        assert (a + b)[|a| + i] == b[i];
      }
      forall i | 0 <= i < |a|
        ensures AnyField(x, a[i])
      {
        assert (a + b)[i] == a[i];
      }
    }
    if (forall i :: 0 <= i < |a| ==> AnyField(x, a[i])) && (forall i :: 0 <= i < |b| ==> AnyField(x, b[i])) {
      forall i | 0 <= i < |a + b|
        ensures AnyField(x, (a + b)[i])
      {
        if i < |a| {
          assert (a + b)[i] == a[i];
        } else {
          assert (a + b)[i] == b[i - |a|];
        }
      }
    }
  }

  /** Every plain entry admits `x` exactly when every plain part's entry does. */
  lemma AllPlainEntries(x: Object, parts: seq<string>)
    ensures (forall i :: 0 <= i < |PlainEntries(parts)| ==> AnyField(x, PlainEntries(parts)[i])) <==>
      (forall j :: 0 <= j < |parts| && Plain(parts[j]) ==> AnyField(x, PartEntry(parts[j])))
  {
    var plain := PlainEntries(parts);
    if forall i :: 0 <= i < |plain| ==> AnyField(x, plain[i]) {
      forall j | 0 <= j < |parts| && Plain(parts[j])
        ensures AnyField(x, PartEntry(parts[j]))
      {
        PlainEntriesMembers(parts, PartEntry(parts[j]));
      }
    }
    if forall j :: 0 <= j < |parts| && Plain(parts[j]) ==> AnyField(x, PartEntry(parts[j])) {
      forall i | 0 <= i < |plain|
        ensures AnyField(x, plain[i])
      {
        PlainEntriesMembers(parts, plain[i]);
      }
    }
  }
}
