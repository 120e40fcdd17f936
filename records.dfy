/**
 * A bridge `Record`: a `LinkedHashMap` from field names to string values
 * (or `null`), kept in insertion order.  `Put` replaces the value of a key
 * that is already present and appends a new key at the end.
 */
module Records {
  import opened Base
  import opened Strings

  type Record = seq<(string, Option<string>)>

  function Keys<V>(m: seq<(string, V)>): (ks: seq<string>)
    ensures |ks| == |m|
    ensures forall i :: 0 <= i < |m| ==> ks[i] == m[i].0
    decreases |m|
  {
    if |m| == 0 then [] else [m[0].0] + Keys(m[1..])
  }

  /** `Map.get`, telling an absent key (`None`) from a present one. */
  function Lookup<V>(m: seq<(string, V)>, k: string): (r: Option<V>)
    ensures r.None? <==> k !in Keys(m)
    decreases |m|
  {
    if |m| == 0 then None
    else if m[0].0 == k then Some(m[0].1)
    else
      Lookup(m[1..], k)
  }

  /** One key added to a `LinkedHashSet`. */
  lemma AddAllOne(acc: seq<string>, x: string)
    ensures AddAll(acc, [x]) == if x in acc then acc else acc + [x]
  {
    assert [x][1..] == [];
  }

  /** A `LinkedHashSet` of a non-empty list: the set of all but the last, with the last added. */
  lemma AddAllLast(xs: seq<string>)
    requires |xs| > 0
    ensures AddAll([], xs) ==
      var a := AddAll([], xs[..|xs| - 1]);
      if xs[|xs| - 1] in a then a else a + [xs[|xs| - 1]]
  {
    var n := |xs| - 1;
    assert xs == xs[..n] + [xs[n]];
    AddAllSnoc([], xs[..n], xs[n]);
    AddAllOne(AddAll([], xs[..n]), xs[n]);
  }

  /** `Map.put`: the key now maps to `v` and key order is insertion order. */
  function Put<V>(m: seq<(string, V)>, k: string, v: V): (r: seq<(string, V)>)
    ensures Keys(r) == if k in Keys(m) then Keys(m) else Keys(m) + [k]
    ensures Lookup(r, k) == Some(v)
    decreases |m|
  {
    if |m| == 0 then [(k, v)]
    else if m[0].0 == k then
      assert ([(k, v)] + m[1..])[1..] == m[1..];
      [(k, v)] + m[1..]
    else
      var rest := Put(m[1..], k, v);
      assert ([m[0]] + rest)[1..] == rest;
      [m[0]] + rest
  }

  /** `Map.put` leaves every other key's value alone. */
  lemma {:induction false} PutOther<V>(m: seq<(string, V)>, k: string, v: V, other: string)
    requires other != k
    ensures Lookup(Put(m, k, v), other) == Lookup(m, other)
    decreases |m|
  {
    if |m| > 0 && m[0].0 != k {
      PutOther(m[1..], k, v, other);
    }
  }

  /** After `Map.put`, the key holds the new value and every other key what it held before. */
  lemma LookupPut<V>(m: seq<(string, V)>, k: string, v: V, key: string)
    ensures Lookup(Put(m, k, v), key) == if key == k then Some(v) else Lookup(m, key)
  {
    if key != k {
      PutOther(m, k, v, key);
    }
  }

  lemma KeysAppend<V>(m: seq<(string, V)>, k: string, v: V)
    ensures Keys(m + [(k, v)]) == Keys(m) + [k]
  {
  }

  /** Looking up a key in a list with one more pair at the end. */
  lemma {:induction false} LookupAppend<V>(m: seq<(string, V)>, k: string, v: V, key: string)
    ensures Lookup(m + [(k, v)], key) ==
      if key in Keys(m) then Lookup(m, key) else if key == k then Some(v) else None
    decreases |m|
  {
    if |m| == 0 {
      assert m + [(k, v)] == [(k, v)];
    } else {
      assert (m + [(k, v)])[1..] == m[1..] + [(k, v)];
      LookupAppend(m[1..], k, v, key);
    }
  }

  /** The pairs of `kvs` put into `m` one after the other, as a loop of `Map.put` does. */
  function PutEach<V>(m: seq<(string, V)>, kvs: seq<(string, V)>): seq<(string, V)>
    decreases |kvs|
  {
    if |kvs| == 0 then m else PutEach(Put(m, kvs[0].0, kvs[0].1), kvs[1..])
  }

  /** A key no pair names keeps its value. */
  lemma {:induction false} PutEachKeeps<V>(m: seq<(string, V)>, kvs: seq<(string, V)>, k: string)
    requires forall j :: 0 <= j < |kvs| ==> kvs[j].0 != k
    ensures Lookup(PutEach(m, kvs), k) == Lookup(m, k)
    decreases |kvs|
  {
    if |kvs| > 0 {
      assert forall j :: 0 <= j < |kvs| - 1 ==> kvs[1..][j] == kvs[j + 1];
      PutEachKeeps(Put(m, kvs[0].0, kvs[0].1), kvs[1..], k);
      PutOther(m, kvs[0].0, kvs[0].1, k);
    }
  }

  /** The first pair's value stays when no later pair names its key. */
  lemma PutEachFirst<V>(m: seq<(string, V)>, kvs: seq<(string, V)>)
    requires |kvs| > 0 && forall j :: 0 < j < |kvs| ==> kvs[j].0 != kvs[0].0
    ensures Lookup(PutEach(m, kvs), kvs[0].0) == Some(kvs[0].1)
  {
    var tail := kvs[1..];
    forall j | 0 <= j < |tail|
      ensures tail[j].0 != kvs[0].0
    {
      assert tail[j] == kvs[j + 1];
    }
    PutEachKeeps(Put(m, kvs[0].0, kvs[0].1), tail, kvs[0].0);
  }

  /** Putting a list of pairs is putting a prefix of it, then the rest. */
  lemma {:induction false} PutEachSplit<V>(m: seq<(string, V)>, kvs: seq<(string, V)>, i: nat)
    requires i <= |kvs|
    ensures PutEach(m, kvs) == PutEach(PutEach(m, kvs[..i]), kvs[i..])
    decreases i
  {
    if i == 0 {
      assert kvs[i..] == kvs;
    } else {
      var tail := kvs[1..];
      assert tail[i - 1..] == kvs[i..];
      assert kvs[..i][1..] == tail[..i - 1];
      PutEachSplit(Put(m, kvs[0].0, kvs[0].1), tail, i - 1);
    }
  }

  /** A key's value comes from the last pair that names it. */
  lemma PutEachLast<V>(m: seq<(string, V)>, kvs: seq<(string, V)>, i: nat)
    requires i < |kvs| && forall j :: i < j < |kvs| ==> kvs[j].0 != kvs[i].0
    ensures Lookup(PutEach(m, kvs), kvs[i].0) == Some(kvs[i].1)
  {
    PutEachSplit(m, kvs, i);
    var rest := kvs[i..];
    forall j | 0 < j < |rest|
      ensures rest[j].0 != rest[0].0
    {
      assert rest[j] == kvs[i + j];
    }
    PutEachFirst(PutEach(m, kvs[..i]), rest);
  }

  /** `Record.getValue`: `null` both for an absent field and for a `null` value. */
  function GetValue(r: Record, f: string): (v: Option<string>)
    ensures v.Some? ==> Lookup(r, f) == Some(v)
    ensures f !in Keys(r) ==> v.None?
  {
    match Lookup(r, f)
    case None => None
    case Some(x) => x
  }

  // ----- a record built field by field -----

  /**
   * The `forEach` over the requested fields that fills a `LinkedHashMap`:
   * each field put in with its value `val(field)`, in request order; the
   * first field whose value fails stops the whole record.
   */
  function Build<V>(fields: seq<string>, val: string -> Result<V>): Result<seq<(string, V)>>
    decreases |fields|
  {
    if |fields| == 0 then Ok([])
    else
      var n := |fields| - 1;
      var m :- Build(fields[..n], val);
      var v :- val(fields[n]);
      Ok(Put(m, fields[n], v))
  }

  /** One more field read: the map so far with that field put in. */
  lemma BuildStep<V>(fields: seq<string>, val: string -> Result<V>, j: nat)
    requires j < |fields| && Build(fields[..j], val).Ok? && val(fields[j]).Ok?
    ensures Build(fields[..j + 1], val) == Ok(Put(Build(fields[..j], val).value, fields[j], val(fields[j]).value))
  {
    assert fields[..j + 1][..j] == fields[..j];
  }

  /** A failure on field `j`, after the fields before it succeeded, is the failure of the whole record. */
  lemma BuildErr<V>(fields: seq<string>, val: string -> Result<V>, j: nat)
    requires j < |fields| && Build(fields[..j], val).Ok? && val(fields[j]).Err?
    ensures Build(fields, val) == Err(val(fields[j]).error)
  {
    assert fields[..j + 1][..j] == fields[..j];
    BuildPrefixErr(fields, val, j + 1);
  }

  /** Once a prefix of the fields fails, the record fails with the same error. */
  lemma {:induction false} BuildPrefixErr<V>(fields: seq<string>, val: string -> Result<V>, k: nat)
    requires k <= |fields| && Build(fields[..k], val).Err?
    ensures Build(fields, val) == Build(fields[..k], val)
    decreases |fields| - k
  {
    if k < |fields| {
      assert fields[..k + 1][..k] == fields[..k];
      assert Build(fields[..k + 1], val) == Build(fields[..k], val);
      BuildPrefixErr(fields, val, k + 1);
    } else {
      assert fields[..k] == fields;
    }
  }

  /** The fields before the last of a built record build too, and the last one's value succeeds. */
  lemma BuildPrefixOk<V>(fields: seq<string>, val: string -> Result<V>)
    requires Build(fields, val).Ok? && |fields| > 0
    ensures Build(fields[..|fields| - 1], val).Ok? && val(fields[|fields| - 1]).Ok?
  {
  }

  /** A record that is built is the record of all but the last field, with the last field put in. */
  lemma BuildSnoc<V>(fields: seq<string>, val: string -> Result<V>)
    requires Build(fields, val).Ok? && |fields| > 0
    ensures Build(fields[..|fields| - 1], val).Ok? && val(fields[|fields| - 1]).Ok?
    ensures Build(fields, val).value ==
      Put(Build(fields[..|fields| - 1], val).value, fields[|fields| - 1], val(fields[|fields| - 1]).value)
  {
  }

  /** The keys of a built record are the requested fields, each once, in the order of first request. */
  lemma {:induction false} BuildKeys<V>(fields: seq<string>, val: string -> Result<V>)
    requires Build(fields, val).Ok?
    ensures Keys(Build(fields, val).value) == AddAll([], fields)
    decreases |fields|
  {
    if |fields| > 0 {
      BuildSnoc(fields, val);
      BuildKeys(fields[..|fields| - 1], val);
      AddAllLast(fields);
    }
  }

  /** The value a built record holds for a requested field is that field's own value. */
  lemma {:induction false} BuildLookup<V>(fields: seq<string>, val: string -> Result<V>, i: nat)
    requires Build(fields, val).Ok? && i < |fields|
    ensures val(fields[i]).Ok?
    ensures Lookup(Build(fields, val).value, fields[i]) == Some(val(fields[i]).value)
    decreases |fields|
  {
    var n := |fields| - 1;
    var prev := fields[..n];
    BuildPrefixOk(fields, val);
    if i < n {
      assert prev[i] == fields[i];
      BuildLookup(prev, val, i);
    }
    BuildSnoc(fields, val);
    LookupPut(Build(prev, val).value, fields[n], val(fields[n]).value, fields[i]);
  }

  /**
   * A built record holds exactly the requested fields, each once, in the
   * order of first request, and each holds its own value.
   */
  lemma BuildFacts<V>(fields: seq<string>, val: string -> Result<V>)
    requires Build(fields, val).Ok?
    ensures Keys(Build(fields, val).value) == AddAll([], fields)
    ensures forall f :: f in fields ==> val(f).Ok? && Lookup(Build(fields, val).value, f) == Some(val(f).value)
  {
    BuildKeys(fields, val);
    forall f | f in fields
      ensures val(f).Ok? && Lookup(Build(fields, val).value, f) == Some(val(f).value)
    {
      var i :| 0 <= i < |fields| && fields[i] == f;
      BuildLookup(fields, val, i);
    }
  }

  /** A record fails only when some field's value fails. */
  lemma {:induction false} BuildOk<V>(fields: seq<string>, val: string -> Result<V>)
    requires forall i :: 0 <= i < |fields| ==> val(fields[i]).Ok?
    ensures Build(fields, val).Ok?
    decreases |fields|
  {
    if |fields| > 0 {
      var n := |fields| - 1;
      var prev := fields[..n];
      forall i | 0 <= i < n
        ensures val(prev[i]).Ok?
      {
        assert prev[i] == fields[i];
      }
      BuildOk(prev, val);
      assert val(fields[n]).Ok?;
    }
  }
}
