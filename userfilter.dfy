/**
 * `filterUsers` of the version 1 user helper.  The query is cut at `&` into
 * `field=value` parts; each part puts the value's matchers under its field
 * (a later part for the same field replaces the earlier one).  Then, field
 * by field, the current list of users is rebuilt: every user is appended
 * once for every (field value, matcher) pair that hits, so a user survives
 * a field exactly when something hits, and may be appended several times.
 *
 * The field values of a user are the values of the attribute named by
 * `container[key]` (found anywhere in the field), or the one plain value
 * (`null` when absent).  An empty attribute list is instead tested against
 * the empty value.
 */
module UserFilter {
  import opened Base
  import opened Strings
  import opened Json
  import opened Records
  import opened Brackets
  import opened Attributes
  import opened Wildcard
  import opened Qualifiers

  /** The `queryMatchers` map: each field's matchers, fields in first-insertion order. */
  type Qualification = seq<(string, seq<Matcher>)>

  /** The parts read into the map after `acc`; a part that is only `=` fails. */
  function ReadParts(acc: Qualification, parts: seq<string>): Result<Qualification>
    decreases |parts|
  {
    if |parts| == 0 then Ok(acc)
    else
      var fv :- ParsePart(parts[0]);
      ReadParts(Put(acc, fv.0, MatchersFor(fv.1)), parts[1..])
  }

  /** The qualification of a query. */
  function Qualify(query: string): Result<Qualification>
  {
    ReadParts([], JavaSplit(query, '&'))
  }

  /** The values a user offers for a field; a `null` attribute value list fails at `isEmpty`. */
  function FieldValues(user: Object, field: string): (r: Result<seq<Json>>)
    ensures FindBracket(field).None? ==> r == Ok([Get(user, field)])
  {
    match FindBracket(field)
    case Some(g) =>
      var values :- AttributeValues(g.0, g.1, user);
      if values.JArr? then Ok(values.items) else Err(NullPointer)
    case None => Ok([Get(user, field)])
  }

  /** How many times the user is appended for one field. */
  function Hits(user: Object, field: string, ms: seq<Matcher>): Result<nat>
  {
    var fvs :- FieldValues(user, field);
    ValueHits(fvs, ms)
  }

  /** One field's pass over the users: each user repeated by its hits, in order; the first failure stops it. */
  function FilterEntry(users: seq<Object>, field: string, ms: seq<Matcher>): Result<seq<Object>>
    decreases |users|
  {
    if |users| == 0 then Ok([])
    else
      var h :- Hits(users[0], field, ms);
      Prepend(Repeat(users[0], h), FilterEntry(users[1..], field, ms))
  }

  /** The passes of all fields, in map order, each over the previous one's result. */
  function FilterAll(users: seq<Object>, qs: Qualification): Result<seq<Object>>
    decreases |qs|
  {
    if |qs| == 0 then Ok(users)
    else
      var kept :- FilterEntry(users, qs[0].0, qs[0].1);
      FilterAll(kept, qs[1..])
  }

  /** The result of `filterUsers(users, query)`. */
  function Filtered(users: seq<Object>, query: string): Result<seq<Object>>
  {
    var qs :- Qualify(query);
    FilterAll(users, qs)
  }

  /** The first loop of `filterUsers`: the parts put into `queryMatchers` one by one. */
  method ReadQualifiers(query: string) returns (r: Result<Qualification>)
    ensures r == Qualify(query)
  {
    var parts := JavaSplit(query, '&');
    var qs: Qualification := [];
    var i := 0;
    assert parts[0..] == parts;
    while i < |parts|
      invariant 0 <= i <= |parts|
      invariant ReadParts([], parts) == ReadParts(qs, parts[i..])
    {
      assert parts[i..][1..] == parts[i + 1..];
      var fv := ParsePart(parts[i]);
      if fv.Err? {
        return Err(fv.error);
      }
      qs := Put(qs, fv.value.0, MatchersFor(fv.value.1));
      i := i + 1;
    }
    return Ok(qs);
  }

  /** The lookup of a user's field values (line 325 and the `isEmpty` test of line 328). */
  method GetFieldValues(user: Object, field: string) returns (r: Result<seq<Json>>)
    ensures r == FieldValues(user, field)
  {
    var g := FindBracket(field);
    if g.Some? {
      var values := GetAttributeValues(g.value.0, g.value.1, user);
      if values.Err? {
        return Err(values.error);
      }
      if !values.value.JArr? {
        return Err(NullPointer);
      }
      return Ok(values.value.items);
    }
    return Ok([Get(user, field)]);
  }

  /** The body of the users loop for one user: the user appended to `matched` once per hit. */
  method MatchUser(user: Object, field: string, ms: seq<Matcher>, matched: seq<Object>) returns (r: Result<seq<Object>>)
    ensures Hits(user, field, ms).Err? ==> r == Err(Hits(user, field, ms).error)
    ensures Hits(user, field, ms).Ok? ==> r == Ok(matched + Repeat(user, Hits(user, field, ms).value))
  {
    var values := GetFieldValues(user, field);
    if values.Err? {
      return Err(values.error);
    }
    r := AppendValueHits(user, values.value, ms, matched);
  }

  /** The users loop for one field. */
  method FilterByEntry(users: seq<Object>, field: string, ms: seq<Matcher>) returns (r: Result<seq<Object>>)
    ensures r == FilterEntry(users, field, ms)
  {
    var entry: seq<Object> := [];
    var i := 0;
    assert users[0..] == users;
    assert FilterEntry(users, field, ms).Ok? ==> [] + FilterEntry(users, field, ms).value == FilterEntry(users, field, ms).value;
    while i < |users|
      invariant 0 <= i <= |users|
      invariant FilterEntry(users, field, ms) == Prepend(entry, FilterEntry(users[i..], field, ms))
    {
      FilterEntryStep(users, field, ms, entry, i);
      var next := MatchUser(users[i], field, ms, entry);
      if next.Err? {
        return next;
      }
      entry := next.value;
      i := i + 1;
    }
    assert entry + [] == entry;
    return Ok(entry);
  }

  /** One more user of the pass: its hits move from the pass still to come to the part already done. */
  lemma FilterEntryStep(users: seq<Object>, field: string, ms: seq<Matcher>, entry: seq<Object>, i: nat)
    requires i < |users|
    ensures Hits(users[i], field, ms).Err? ==>
      Prepend(entry, FilterEntry(users[i..], field, ms)) == Err(Hits(users[i], field, ms).error)
    ensures Hits(users[i], field, ms).Ok? ==>
      Prepend(entry, FilterEntry(users[i..], field, ms)) ==
      Prepend(entry + Repeat(users[i], Hits(users[i], field, ms).value), FilterEntry(users[i + 1..], field, ms))
  {
    assert users[i..][0] == users[i];
    assert users[i..][1..] == users[i + 1..];
    var rest := FilterEntry(users[i + 1..], field, ms);
    if Hits(users[i], field, ms).Ok? && rest.Ok? {
      var h := Hits(users[i], field, ms).value;
      assert entry + (Repeat(users[i], h) + rest.value) == (entry + Repeat(users[i], h)) + rest.value;
    }
  }

  /** `filterUsers`: the matchers read, then one pass per field over the survivors of the previous one. */
  method FilterUsers(users: seq<Object>, query: string) returns (r: Result<seq<Object>>)
    ensures r == Filtered(users, query)
  {
    var read := ReadQualifiers(query);
    if read.Err? {
      return Err(read.error);
    }
    var qs := read.value;
    var matched := users;
    var i := 0;
    assert qs[0..] == qs;
    while i < |qs|
      invariant 0 <= i <= |qs|
      invariant FilterAll(users, qs) == FilterAll(matched, qs[i..])
    {
      assert qs[i..][1..] == qs[i + 1..];
      var next := FilterByEntry(matched, qs[i].0, qs[i].1);
      if next.Err? {
        return Err(next.error);
      }
      matched := next.value;
      i := i + 1;
    }
    return Ok(matched);
  }

  // ----- what the filter keeps -----

  /** Every user of `users` repeated `w(user)` times, in order. */
  function Scale(users: seq<Object>, w: Object -> nat): (r: seq<Object>)
    decreases |users|
  {
    if |users| == 0 then [] else Repeat(users[0], w(users[0])) + Scale(users[1..], w)
  }

  /** The number of times one field's pass appends a user (none when the lookup fails). */
  function Weight(x: Object, field: string, ms: seq<Matcher>): nat
  {
    match Hits(x, field, ms)
    case Ok(h) => h
    case Err(_) => 0
  }

  /** The number of copies of a user that all passes together produce. */
  function Survival(x: Object, qs: Qualification): nat
    decreases |qs|
  {
    if |qs| == 0 then 1 else Times(Weight(x, qs[0].0, qs[0].1), Survival(x, qs[1..]))
  }

  function Times(a: nat, b: nat): nat
  {
    a * b
  }

  lemma {:induction false} ScaleAppend(a: seq<Object>, b: seq<Object>, w: Object -> nat)
    ensures Scale(a + b, w) == Scale(a, w) + Scale(b, w)
    decreases |a|
  {
    if |a| > 0 {
      assert (a + b)[1..] == a[1..] + b;
      ScaleAppend(a[1..], b, w);
    } else {
      assert a + b == b;
    }
  }

  lemma {:induction false} ScaleRepeat(x: Object, n: nat, w: Object -> nat)
    ensures Scale(Repeat(x, n), w) == Repeat(x, n * w(x))
    decreases n
  {
    if n > 0 {
      ScaleRepeat(x, n - 1, w);
      ScaleAppend(Repeat(x, n - 1), [x], w);
      assert Scale([x], w) == Repeat(x, w(x));
      assert n * w(x) == (n - 1) * w(x) + w(x);
      RepeatAdd(x, (n - 1) * w(x), w(x));
    }
  }

  /** Two passes in a row repeat each user by the product of their counts. */
  lemma {:induction false} ScaleScale(users: seq<Object>, w1: Object -> nat, w2: Object -> nat, w3: Object -> nat)
    requires forall x :: w3(x) == w1(x) * w2(x)
    ensures Scale(Scale(users, w1), w2) == Scale(users, w3)
    decreases |users|
  {
    if |users| > 0 {
      var u := users[0];
      ScaleAppend(Repeat(u, w1(u)), Scale(users[1..], w1), w2);
      ScaleRepeat(u, w1(u), w2);
      ScaleScale(users[1..], w1, w2, w3);
    }
  }

  /** A successful pass appends each user once per hit, in input order. */
  lemma {:induction false} FilterEntryScales(users: seq<Object>, field: string, ms: seq<Matcher>)
    requires FilterEntry(users, field, ms).Ok?
    ensures forall i :: 0 <= i < |users| ==> Hits(users[i], field, ms).Ok?
    ensures FilterEntry(users, field, ms).value == Scale(users, x => Weight(x, field, ms))
    decreases |users|
  {
    if |users| > 0 {
      FilterEntryScales(users[1..], field, ms);
      forall i | 0 < i < |users| ensures Hits(users[i], field, ms).Ok? {
        assert users[1..][i - 1] == users[i];
      }
    }
  }

  /**
   * `filterUsers` keeps the users in input order, each repeated by the
   * product over the fields of its hit counts.
   */
  lemma {:induction false} FilterAllScales(users: seq<Object>, qs: Qualification)
    requires FilterAll(users, qs).Ok?
    ensures FilterAll(users, qs).value == Scale(users, x => Survival(x, qs))
    decreases |qs|
  {
    if |qs| == 0 {
      ScaleOnce(users, x => Survival(x, qs));
    } else {
      var w1 := x => Weight(x, qs[0].0, qs[0].1);
      FilterEntryScales(users, qs[0].0, qs[0].1);
      var kept := FilterEntry(users, qs[0].0, qs[0].1).value;
      FilterAllScales(kept, qs[1..]);
      ScaleScale(users, w1, x => Survival(x, qs[1..]), x => Survival(x, qs));
    }
  }

  lemma {:induction false} ScaleOnce(users: seq<Object>, w: Object -> nat)
    requires forall x :: w(x) == 1
    ensures Scale(users, w) == users
    decreases |users|
  {
    if |users| > 0 {
      ScaleOnce(users[1..], w);
      assert Repeat(users[0], 1) == [users[0]];
    }
  }

  lemma {:induction false} ScaleMember(users: seq<Object>, w: Object -> nat, x: Object)
    ensures x in Scale(users, w) <==> x in users && w(x) > 0
    decreases |users|
  {
    if |users| > 0 {
      ScaleMember(users[1..], w, x);
      assert x in users <==> x == users[0] || x in users[1..];
    }
  }

  lemma ProductPositive(a: nat, b: nat)
    ensures a * b > 0 <==> a > 0 && b > 0
  {
    if a > 0 && b > 0 {
      assert a * b >= b;
    }
  }

  lemma {:induction false} SurvivalPositive(x: Object, qs: Qualification)
    ensures Survival(x, qs) > 0 <==> forall i :: 0 <= i < |qs| ==> Weight(x, qs[i].0, qs[i].1) > 0
    decreases |qs|
  {
    if |qs| > 0 {
      var tail := qs[1..];
      SurvivalPositive(x, tail);
      ProductPositive(Weight(x, qs[0].0, qs[0].1), Survival(x, tail));
      if forall i :: 0 <= i < |qs| ==> Weight(x, qs[i].0, qs[i].1) > 0 {
        forall i | 0 <= i < |tail| ensures Weight(x, tail[i].0, tail[i].1) > 0 {
          assert tail[i] == qs[i + 1];
        }
      }
      if Survival(x, qs) > 0 {
        forall i | 0 <= i < |qs| ensures Weight(x, qs[i].0, qs[i].1) > 0 {
          if i > 0 {
            assert qs[i] == tail[i - 1];
          }
        }
      }
    }
  }

  /**
   * The qualifications are ANDed: a user is in the result exactly when it
   * is in the input and every field hits it at least once.
   */
  lemma FilteredMembers(users: seq<Object>, query: string, x: Object)
    requires Filtered(users, query).Ok?
    ensures var qs := Qualify(query).value;
      x in Filtered(users, query).value <==>
        x in users && forall i :: 0 <= i < |qs| ==> Hits(x, qs[i].0, qs[i].1).Ok? && Hits(x, qs[i].0, qs[i].1).value > 0
  {
    var qs := Qualify(query).value;
    FilterAllScales(users, qs);
    ScaleMember(users, x => Survival(x, qs), x);
    SurvivalPositive(x, qs);
  }

  // ----- reading the query -----

  /** Reading succeeds exactly when every part does. */
  lemma ReadPartsOk(acc: Qualification, parts: seq<string>)
    ensures ReadParts(acc, parts).Ok? <==> forall j :: 0 <= j < |parts| ==> ParsePart(parts[j]).Ok?
  {
    ReadPartsReadable(acc, parts);
    ReadableParts(parts);
  }

  /** Every part, from the first on, can be read. */
  predicate Readable(parts: seq<string>)
    decreases |parts|
  {
    |parts| == 0 || (ParsePart(parts[0]).Ok? && Readable(parts[1..]))
  }

  lemma {:induction false} ReadPartsReadable(acc: Qualification, parts: seq<string>)
    ensures ReadParts(acc, parts).Ok? <==> Readable(parts)
    decreases |parts|
  {
    if |parts| > 0 && ParsePart(parts[0]).Ok? {
      var fv := ParsePart(parts[0]).value;
      ReadPartsReadable(Put(acc, fv.0, MatchersFor(fv.1)), parts[1..]);
    }
  }

  lemma {:induction false} ReadableParts(parts: seq<string>)
    ensures Readable(parts) <==> forall j :: 0 <= j < |parts| ==> ParsePart(parts[j]).Ok?
    decreases |parts|
  {
    if |parts| > 0 {
      var tail := parts[1..];
      ReadableParts(tail);
      assert forall j :: 0 <= j < |tail| ==> tail[j] == parts[j + 1];
    }
  }

  /** The field and matchers a part that can be read puts into the map. */
  function Entry(part: string): (string, seq<Matcher>)
    requires ParsePart(part).Ok?
  {
    (ParsePart(part).value.0, MatchersFor(ParsePart(part).value.1))
  }

  /** The entries of parts that can all be read, in order. */
  function Entries(parts: seq<string>): (es: Qualification)
    requires forall j :: 0 <= j < |parts| ==> ParsePart(parts[j]).Ok?
    ensures |es| == |parts|
  {
    MapAll(parts, Entry)
  }

  /** Reading parts that all succeed is putting their entries one after the other. */
  lemma {:induction false} ReadPartsPutEach(acc: Qualification, parts: seq<string>)
    requires forall j :: 0 <= j < |parts| ==> ParsePart(parts[j]).Ok?
    ensures ReadParts(acc, parts) == Ok(PutEach(acc, Entries(parts)))
    decreases |parts|
  {
    if |parts| > 0 {
      var e := Entry(parts[0]);
      var tail := parts[1..];
      forall j | 0 <= j < |tail|
        ensures ParsePart(tail[j]).Ok?
      {
        assert tail[j] == parts[j + 1];
      }
      assert Entries(parts) == [e] + Entries(tail);
      ReadPartsPutEach(Put(acc, e.0, e.1), tail);
    }
  }

  /** Every entry is the entry of its part. */
  lemma EntriesAt(parts: seq<string>)
    requires forall j :: 0 <= j < |parts| ==> ParsePart(parts[j]).Ok?
    ensures forall j :: 0 <= j < |parts| ==> Entries(parts)[j] == Entry(parts[j])
  {
    forall j | 0 <= j < |parts|
      ensures Entries(parts)[j] == Entry(parts[j])
    {
      MapAllAt(parts, Entry, j);
    }
  }

  /** A field that no part names keeps the matchers it had. */
  lemma ReadPartsKeeps(acc: Qualification, parts: seq<string>, f: string)
    requires forall j :: 0 <= j < |parts| ==> ParsePart(parts[j]).Ok? && ParsePart(parts[j]).value.0 != f
    ensures ReadParts(acc, parts).Ok?
    ensures Lookup(ReadParts(acc, parts).value, f) == Lookup(acc, f)
  {
    ReadPartsPutEach(acc, parts);
    EntriesAt(parts);
    PutEachKeeps(acc, Entries(parts), f);
  }

  /** A later part for the same field replaces the matchers: a field's matchers come from its last part. */
  lemma ReadPartsLast(acc: Qualification, parts: seq<string>, i: nat)
    requires i < |parts| && forall j :: 0 <= j < |parts| ==> ParsePart(parts[j]).Ok?
    requires forall j :: i < j < |parts| ==> ParsePart(parts[j]).value.0 != ParsePart(parts[i]).value.0
    ensures ReadParts(acc, parts).Ok?
    ensures Lookup(ReadParts(acc, parts).value, ParsePart(parts[i]).value.0) == Some(MatchersFor(ParsePart(parts[i]).value.1))
  {
    ReadPartsPutEach(acc, parts);
    EntriesAt(parts);
    PutEachLast(acc, Entries(parts), i);
  }

  /** A plain field's single value is tested against every matcher of the qualifier. */
  lemma PlainFieldHits(user: Object, field: string, value: string)
    requires '[' !in field
    ensures Hits(user, field, MatchersFor(value)) == Ok(CountHits(Get(user, field), MatchersFor(value)))
  {
    PlainField(field);
    var fvs := [Get(user, field)];
    assert fvs[..0] == [];
    assert PairHits(fvs, MatchersFor(value)) == CountHits(Get(user, field), MatchersFor(value));
  }

  /**
   * An attribute field `container[key]` hits when any one of the
   * attribute's values hits; an attribute the user lacks counts as the
   * empty list, which only the empty value hits (and `null` fails on).
   */
  lemma AttributeFieldHits(user: Object, container: string, key: string, ms: seq<Matcher>)
    requires '[' !in container && ']' !in key && NoBreak(container) && NoBreak(key)
    requires AttributeValues(container, key, user).Ok? && AttributeValues(container, key, user).value.JArr?
    ensures var items := AttributeValues(container, key, user).value.items;
      Hits(user, container + "[" + key + "]", ms) ==
        if |items| == 0 then EmptyHits(ms) else Ok(PairHits(items, ms))
    ensures var items := AttributeValues(container, key, user).value.items;
      |items| > 0 ==> (Hits(user, container + "[" + key + "]", ms).value > 0 <==>
        exists i :: 0 <= i < |items| && CountHits(items[i], ms) > 0)
  {
    FindBracketField(container, key);
    PairHitsPositive(AttributeValues(container, key, user).value.items, ms);
  }

  /**
   * Why the search only filters a non-empty query: the empty query is one
   * empty qualifier on the field "", which no user without such a key passes.
   */
  lemma EmptyQueryDropsAll(users: seq<Object>)
    requires forall i :: 0 <= i < |users| ==> !HasKey(users[i], "")
    ensures Filtered(users, "") == Ok([])
  {
    assert JavaSplit("", '&') == [""];
    assert JavaSplit("", '=') == [""];
    assert Trim("") == "";
    var qs: Qualification := [("", [EmptyM])];
    assert Qualify("") == Ok(qs);
    assert FilterAll(users, qs) == FilterEntry(users, "", [EmptyM]) by {
      if FilterEntry(users, "", [EmptyM]).Ok? {
        assert qs[1..] == [];
      }
    }
    NoneSurvive(users);
  }

  lemma {:induction false} NoneSurvive(users: seq<Object>)
    requires forall i :: 0 <= i < |users| ==> !HasKey(users[i], "")
    ensures FilterEntry(users, "", [EmptyM]) == Ok([])
    decreases |users|
  {
    if |users| > 0 {
      PlainField("");
      var ms := [EmptyM];
      var fvs := [Get(users[0], "")];
      assert !HasKey(users[0], "");
      assert fvs == [JNull];
      assert FieldValues(users[0], "") == Ok(fvs);
      assert fvs[..0] == [];
      assert ms[..0] == [];
      assert CountHits(JNull, ms) == 0;
      assert PairHits(fvs, ms) == 0;
      assert Hits(users[0], "", ms) == Ok(0);
      assert forall i :: 0 <= i < |users| - 1 ==> users[1..][i] == users[i + 1];
      NoneSurvive(users[1..]);
      assert Repeat(users[0], 0) == [];
      assert FilterEntry(users, "", ms) == Prepend([], FilterEntry(users[1..], "", ms));
      var none: seq<Object> := [];
      assert none + none == none;
      assert Prepend(none, Ok(none)) == Ok(none);
    }
  }
}
