/**
 * The qualifications of the version 1 client-side filters (`filterUsers`,
 * `filterSubmissions`).  A query `field=value&...` is cut at `&`, each part
 * at `=`, and each value becomes a list of matchers:
 *
 *   - `true` / `false`: the value's wildcard pattern and the boolean;
 *   - `null`: `null` itself and the pattern of the text `null`;
 *   - the empty value: the empty string;
 *   - anything else: the value's wildcard pattern.
 *
 * A field value is hit by a matcher when both are `null`, when the pattern
 * matches the value's text, or when the matcher equals the value (a boolean
 * equal to the boolean, the empty string equal to an empty string).
 */
module Qualifiers {
  import opened Base
  import opened Strings
  import opened Json
  import opened Wildcard

  datatype Matcher = PatternM(tokens: seq<Token>) | BoolM(b: bool) | NullM | EmptyM

  /** The matcher list built for a qualification value. */
  function MatchersFor(value: string): (ms: seq<Matcher>)
    ensures |ms| >= 1
    ensures NullM in ms <==> value == "null"
    ensures EmptyM in ms <==> value == ""
  {
    if value == "true" || value == "false" then [PatternM(Compile(value)), BoolM(value == "true")]
    else if value == "null" then [NullM, PatternM(Compile(value))]
    else if value == "" then [EmptyM]
    else [PatternM(Compile(value))]
  }

  /** The test of one field value against one matcher. */
  predicate Hit(fv: Json, m: Matcher)
  {
    match m
    case NullM => fv == JNull
    case PatternM(p) => fv != JNull && Matches(p, JavaString(fv))
    case BoolM(b) => fv == JBool(b)
    case EmptyM => fv == JStr("")
  }

  /** How many of the matchers hit the field value (one append each). */
  function CountHits(fv: Json, ms: seq<Matcher>): (n: nat)
    ensures n <= |ms|
    decreases |ms|
  {
    if |ms| == 0 then 0
    else CountHits(fv, ms[..|ms| - 1]) + (if Hit(fv, ms[|ms| - 1]) then 1 else 0)
  }

  /** How many (field value, matcher) pairs hit. */
  function PairHits(fvs: seq<Json>, ms: seq<Matcher>): (n: nat)
    decreases |fvs|
  {
    if |fvs| == 0 then 0
    else PairHits(fvs[..|fvs| - 1], ms) + CountHits(fvs[|fvs| - 1], ms)
  }

  /**
   * The empty field-value list: each matcher is asked `equals("")`; a `null`
   * matcher fails with a null pointer, the empty-string matcher hits.
   */
  function EmptyHits(ms: seq<Matcher>): (r: Result<nat>)
    ensures r.Err? <==> NullM in ms
    ensures r.Err? ==> r.error == NullPointer
    decreases |ms|
  {
    if |ms| == 0 then Ok(0)
    else
      var n := |ms| - 1;
      var before :- EmptyHits(ms[..n]);
      assert ms == ms[..n] + [ms[n]];
      match ms[n]
      case NullM => Err(NullPointer)
      case EmptyM => Ok(before + 1)
      case _ => Ok(before)
  }

  /**
   * How many times an item is appended for its field values: an empty list
   * is tested with `equals("")` against each matcher, any other list pair
   * by pair.
   */
  function ValueHits(fvs: seq<Json>, ms: seq<Matcher>): Result<nat>
  {
    if |fvs| == 0 then EmptyHits(ms) else Ok(PairHits(fvs, ms))
  }

  /** `part.split("=")`: the trimmed first piece and the trimmed second piece (or ""); a part of only `=` fails. */
  function ParsePart(part: string): (r: Result<(string, string)>)
    ensures r.Err? ==> r.error == IndexOutOfBounds
  {
    var sp := JavaSplit(part, '=');
    if |sp| == 0 then Err(IndexOutOfBounds)
    else Ok((Trim(sp[0]), if |sp| > 1 then Trim(sp[1]) else ""))
  }

  lemma {:induction false} CountHitsPositive(fv: Json, ms: seq<Matcher>)
    ensures CountHits(fv, ms) > 0 <==> exists i :: 0 <= i < |ms| && Hit(fv, ms[i])
    decreases |ms|
  {
    if |ms| > 0 {
      var n := |ms| - 1;
      CountHitsPositive(fv, ms[..n]);
      assert forall i :: 0 <= i < n ==> ms[..n][i] == ms[i];
    }
  }

  /** Some pair hits exactly when some field value is hit by some matcher. */
  lemma {:induction false} PairHitsPositive(fvs: seq<Json>, ms: seq<Matcher>)
    ensures PairHits(fvs, ms) > 0 <==> exists i :: 0 <= i < |fvs| && CountHits(fvs[i], ms) > 0
    decreases |fvs|
  {
    if |fvs| > 0 {
      var n := |fvs| - 1;
      PairHitsPositive(fvs[..n], ms);
      assert forall i :: 0 <= i < n ==> fvs[..n][i] == fvs[i];
    }
  }

  /** The matchers' text test is the case-insensitive comparison with the value when it holds no `%`. */
  lemma TextHit(value: string, fv: Json)
    requires '%' !in value
    ensures Hit(fv, PatternM(Compile(value))) <==> fv != JNull && EqualsIgnoreCase(value, JavaString(fv))
  {
    PlainValueMatches(value, JavaString(fv));
  }

  /**
   * What each kind of value accepts: `true` / `false` the boolean or that
   * text in any case; `null` a `null` or the text `null` in any case; the
   * empty value only an empty string; any other value the texts its
   * wildcard pattern matches.
   */
  lemma QualifierMatches(value: string, fv: Json)
    ensures CountHits(fv, MatchersFor(value)) > 0 <==>
      if value == "true" || value == "false" then
        fv == JBool(value == "true") || (fv != JNull && EqualsIgnoreCase(value, JavaString(fv)))
      else if value == "null" then
        fv == JNull || EqualsIgnoreCase("null", JavaString(fv))
      else if value == "" then
        fv == JStr("")
      else
        fv != JNull && Matches(Compile(value), JavaString(fv))
  {
    var ms := MatchersFor(value);
    if value == "true" || value == "false" {
      TextHit(value, fv);
      HitsOfTwo(fv, ms[0], ms[1]);
    } else if value == "null" {
      TextHit(value, fv);
      HitsOfTwo(fv, ms[0], ms[1]);
    } else {
      HitsOfOne(fv, ms[0]);
    }
  }

  lemma HitsOfOne(fv: Json, m: Matcher)
    ensures CountHits(fv, [m]) > 0 <==> Hit(fv, m)
  {
    assert [m][..0] == [];
  }

  lemma HitsOfTwo(fv: Json, m0: Matcher, m1: Matcher)
    ensures CountHits(fv, [m0, m1]) > 0 <==> Hit(fv, m0) || Hit(fv, m1)
  {
    assert [m0, m1][..1] == [m0];
    HitsOfOne(fv, m0);
  }

  /**
   * A boolean field queried with its own value is hit twice (by the pattern
   * and by the boolean), so the item is appended twice.
   */
  lemma BooleanHitsTwice(b: bool)
    ensures var value := if b then "true" else "false";
      CountHits(JBool(b), MatchersFor(value)) == 2
  {
    var value := if b then "true" else "false";
    TextHit(value, JBool(b));
    assert JavaString(JBool(b)) == value;
    assert AsciiLower(value) == value;
    var ms := MatchersFor(value);
    assert ms[..1][..0] == [];
    assert ms[..1] == [ms[0]];
  }

  /** An empty list of field values: the `null` query fails, the empty query hits once, others never. */
  lemma EmptyQualifier(value: string)
    ensures EmptyHits(MatchersFor(value)) ==
      if value == "null" then Err(NullPointer) else Ok(if value == "" then 1 else 0)
  {
    var ms := MatchersFor(value);
    if value == "" {
      assert ms[..0] == [];
    } else if value == "true" || value == "false" {
      assert ms[..1][..0] == [];
      assert ms[..1] == [ms[0]];
      assert EmptyHits(ms[..1]) == Ok(0);
    } else if value != "null" {
      assert ms[..0] == [];
    }
  }

  /** A part `field=value` with no other `=` gives the trimmed field and value; a part without `=` an empty value. */
  lemma ParsePartFacts(f: string, v: string)
    requires '=' !in f && '=' !in v
    ensures f != "" || v != "" ==> ParsePart(f + "=" + v) == Ok((Trim(f), Trim(v)))
    ensures ParsePart(f) == Ok((Trim(f), ""))
  {
    var s := f + "=" + v;
    assert Join([f, v], "=") == s;
    SplitJoinChar([f, v], '=');
    assert s[|f|] == '=';
    if v == "" {
      assert [f, v][..1] == [f];
      assert Trim("") == "";
      if f != "" {
        assert DropTrailingEmpty([f]) == [f];
      }
    }
  }

  /** `=` alone names no field: the split is empty and indexing it fails. */
  lemma LoneEqualsFails()
    ensures ParsePart("=") == Err(IndexOutOfBounds)
  {
    assert Join(["", ""], "=") == "=";
    SplitJoinChar(["", ""], '=');
    assert "="[0] == '=';
    assert DropTrailingEmpty(["", ""]) == [] by {
      assert ["", ""][..1] == [""];
      assert [""][..0] == [];
    }
  }

  // ----- the matching loops of the filters -----

  /** An empty value list: the item is appended for each empty matcher, and a `null` matcher fails. */
  method AppendEmptyHits(item: Object, ms: seq<Matcher>, matched: seq<Object>) returns (r: Result<seq<Object>>)
    ensures EmptyHits(ms).Err? ==> r == Err(NullPointer)
    ensures EmptyHits(ms).Ok? ==> r == Ok(matched + Repeat(item, EmptyHits(ms).value))
  {
    var entry := matched;
    var k := 0;
    while k < |ms|
      invariant 0 <= k <= |ms|
      invariant EmptyHits(ms[..k]).Ok?
      invariant entry == matched + Repeat(item, EmptyHits(ms[..k]).value)
    {
      assert ms[..k + 1][..k] == ms[..k];
      if ms[k].NullM? {
        assert NullM in ms;
        return Err(NullPointer);
      }
      if ms[k].EmptyM? {
        entry := entry + [item];
      }
      k := k + 1;
    }
    assert ms[..|ms|] == ms;
    return Ok(entry);
  }

  /** The matchers loop for one field value: the item is appended once per matcher that hits. */
  method AppendHits(item: Object, fv: Json, ms: seq<Matcher>, matched: seq<Object>) returns (entry: seq<Object>)
    ensures entry == matched + Repeat(item, CountHits(fv, ms))
  {
    entry := matched;
    var k := 0;
    while k < |ms|
      invariant 0 <= k <= |ms|
      invariant entry == matched + Repeat(item, CountHits(fv, ms[..k]))
    {
      var m := ms[k];
      if (fv == JNull && m.NullM?) ||
         (fv != JNull && !m.NullM? &&
          ((m.PatternM? && Matches(m.tokens, JavaString(fv))) || (m.BoolM? && fv == JBool(m.b)) || (m.EmptyM? && fv == JStr(""))))
      {
        entry := entry + [item];
      }
      assert ms[..k + 1][..k] == ms[..k];
      k := k + 1;
    }
    assert ms[..|ms|] == ms;
  }

  /** The loop over the field values, each tested against every matcher. */
  method AppendPairHits(item: Object, fvs: seq<Json>, ms: seq<Matcher>, matched: seq<Object>) returns (entry: seq<Object>)
    ensures entry == matched + Repeat(item, PairHits(fvs, ms))
  {
    entry := matched;
    var j := 0;
    while j < |fvs|
      invariant 0 <= j <= |fvs|
      invariant entry == matched + Repeat(item, PairHits(fvs[..j], ms))
    {
      var before := PairHits(fvs[..j], ms);
      entry := AppendHits(item, fvs[j], ms, entry);
      RepeatAdd(item, before, CountHits(fvs[j], ms));
      assert fvs[..j + 1][..j] == fvs[..j];
      j := j + 1;
    }
    assert fvs[..|fvs|] == fvs;
  }

  /** The matching of one item's field values: the item appended to `matched` once per hit. */
  method AppendValueHits(item: Object, fvs: seq<Json>, ms: seq<Matcher>, matched: seq<Object>) returns (r: Result<seq<Object>>)
    ensures ValueHits(fvs, ms).Err? ==> r == Err(ValueHits(fvs, ms).error)
    ensures ValueHits(fvs, ms).Ok? ==> r == Ok(matched + Repeat(item, ValueHits(fvs, ms).value))
  {
    if |fvs| == 0 {
      r := AppendEmptyHits(item, ms, matched);
    } else {
      var entry := AppendPairHits(item, fvs, ms, matched);
      r := Ok(entry);
    }
  }
}
