/**
 * The version 2 qualification parser: a bridge query such as
 * `kapps/services/forms?q=name=*"c"&limit=5` is cut into the API path
 * before the first `?` and the list of name/value parameters after it, and
 * a bridge parameter substituted into a query is escaped for a quoted
 * Kinetic Core search expression.
 */
module QualificationParser {
  import opened Base
  import opened Strings

  /** `parsePath`: everything before the first `?`. */
  function ParsePath(q: string): (path: string)
    ensures IsPrefix(path, q) && '?' !in path
    ensures |path| < |q| ==> q[|path|] == '?'
  {
    q[..IndexOf(q, '?')]
  }

  /**
   * The look-ahead `(?=[^&]*?=)`: an `=` comes before any `&` in `u`,
   * so that the text is the start of another `name=value` pair.
   */
  predicate KeyFollows(u: string)
    decreases |u|
  {
    |u| > 0 && u[0] != '&' && (u[0] == '=' || KeyFollows(u[1..]))
  }

  /** Position `i` of `t` is an `&` at which the parameters are split. */
  predicate IsCut(t: string, i: int)
  {
    0 <= i < |t| && t[i] == '&' && KeyFollows(t[i + 1..])
  }

  /** A piece of text with no position at which it would be split. */
  predicate Uncut(p: string)
  {
    forall j :: 0 <= j < |p| ==> !IsCut(p, j)
  }

  /** The first split position at or after `from`, or `|t|`. */
  function FirstCut(t: string, from: nat): (k: nat)
    requires from <= |t|
    ensures from <= k <= |t|
    ensures k < |t| ==> IsCut(t, k)
    ensures forall i :: from <= i < k ==> !IsCut(t, i)
    decreases |t| - from
  {
    if from == |t| then |t|
    else if IsCut(t, from) then from
    else FirstCut(t, from + 1)
  }

  /** `split("&(?=[^&]*?=)")`: the parameter texts, which joined by `&` give `t` back. */
  function SplitQueries(t: string): (parts: seq<string>)
    ensures |parts| >= 1
    ensures Join(parts, "&") == t
    decreases |t|
  {
    var k := FirstCut(t, 0);
    if k == |t| then [t]
    else
      var rest := SplitQueries(t[k + 1..]);
      assert t == t[..k] + "&" + t[k + 1..];
      [t[..k]] + rest
  }

  lemma {:induction false} KeyFollowsExtend(u: string, w: string)
    ensures KeyFollows(u) ==> KeyFollows(u + w)
    decreases |u|
  {
    if KeyFollows(u) {
      assert (u + w)[0] == u[0];
      if u[0] != '=' {
        assert (u + w)[1..] == u[1..] + w;
        KeyFollowsExtend(u[1..], w);
      }
    }
  }

  lemma {:induction false} KeyFollowsPrefix(u: string, k: nat)
    requires KeyFollows(u) && k <= |u|
    requires k < |u| ==> u[k] == '&'
    ensures KeyFollows(u[..k])
    decreases |u|
  {
    if k == |u| {
      assert u[..k] == u;
    } else {
      assert k > 0;
      assert u[..k][0] == u[0];
      if u[0] != '=' {
        assert u[..k][1..] == u[1..][..k - 1];
        KeyFollowsPrefix(u[1..], k - 1);
      }
    }
  }

  /** The text before the first split position has no split position of its own. */
  lemma PrefixUncut(t: string, k: nat)
    requires k <= |t|
    requires k < |t| ==> t[k] == '&'
    requires forall i :: 0 <= i < k ==> !IsCut(t, i)
    ensures Uncut(t[..k])
  {
    forall j | 0 <= j < k ensures !IsCut(t[..k], j) {
      assert t[..k][j] == t[j];
      assert !IsCut(t, j);
      assert t[..k][j + 1..] == t[j + 1..k];
      assert t[j + 1..k] + t[k..] == t[j + 1..];
      KeyFollowsExtend(t[j + 1..k], t[k..]);
    }
  }

  /**
   * The split is the one the look-ahead describes: no piece contains a split
   * position, and every piece after the first begins a `name=` pair.
   */
  lemma {:induction false} SplitQueriesShape(t: string)
    ensures forall i :: 0 <= i < |SplitQueries(t)| ==> Uncut(SplitQueries(t)[i])
    ensures forall i :: 1 <= i < |SplitQueries(t)| ==> KeyFollows(SplitQueries(t)[i])
    decreases |t|
  {
    var parts := SplitQueries(t);
    var k := FirstCut(t, 0);
    PrefixUncut(t, k);
    if k == |t| {
      assert t[..k] == t;
    } else {
      var u := t[k + 1..];
      SplitQueriesShape(u);
      var rest := SplitQueries(u);
      assert parts == [t[..k]] + rest;
      var k2 := FirstCut(u, 0);
      KeyFollowsPrefix(u, k2);
      assert rest[0] == u[..k2];
      assert KeyFollows(rest[0]);
      forall i | 0 <= i < |parts| ensures Uncut(parts[i]) {
        if i > 0 {
          assert parts[i] == rest[i - 1];
          assert Uncut(rest[i - 1]);
        } else {
          assert parts[0] == t[..k];
        }
      }
      forall i | 1 <= i < |parts| ensures KeyFollows(parts[i]) {
        assert parts[i] == rest[i - 1];
        if i > 1 {
          assert KeyFollows(rest[i - 1]);
        }
      }
    }
  }

  /** `query.split("=", 2)` and the trimming of both halves; no `=` is an index error. */
  function SplitPair(piece: string): (r: Result<(string, string)>)
    ensures r.Err? <==> '=' !in piece
    ensures r.Err? ==> r.error == IndexOutOfBounds
  {
    var k := IndexOf(piece, '=');
    if k == |piece| then Err(IndexOutOfBounds)
    else Ok((Trim(piece[..k]), Trim(piece[k + 1..])))
  }

  /** The parameter texts of a query: none without a `?`. */
  function QueryTexts(q: string): seq<string>
  {
    var k := IndexOf(q, '?');
    if k == |q| then [] else SplitQueries(q[k + 1..])
  }

  /**
   * The pairs of a list of parameter texts, in order; the first text without
   * an `=` makes the whole parse fail.
   */
  function PairsOf(parts: seq<string>): (r: Result<seq<(string, string)>>)
    ensures r.Err? ==> r.error == IndexOutOfBounds
    ensures r.Ok? ==> |r.value| == |parts|
  {
    var r := MapOk(parts, SplitPair);
    if r.Err? then MapOkErr(parts, SplitPair); r else r
  }

  /** The parse succeeds exactly when every parameter text has an `=`. */
  lemma PairsOfOk(parts: seq<string>)
    ensures PairsOf(parts).Ok? <==> forall i :: 0 <= i < |parts| ==> '=' in parts[i]
  {
    if PairsOf(parts).Ok? {
      forall i | 0 <= i < |parts|
        ensures '=' in parts[i]
      {
        MapOkAt(parts, SplitPair, i);
      }
    }
    if forall i :: 0 <= i < |parts| ==> '=' in parts[i] {
      forall i | 0 <= i < |parts|
        ensures SplitPair(parts[i]).Ok?
      {
      }
      MapOkAll(parts, SplitPair);
    }
  }

  /** A successful parse pairs the i-th text with the i-th trimmed name and value. */
  lemma PairsOfValues(parts: seq<string>)
    requires PairsOf(parts).Ok?
    ensures forall i :: 0 <= i < |parts| ==> SplitPair(parts[i]) == Ok(PairsOf(parts).value[i])
  {
    forall i | 0 <= i < |parts|
      ensures SplitPair(parts[i]) == Ok(PairsOf(parts).value[i])
    {
      MapOkAt(parts, SplitPair, i);
    }
  }

  /** Both facts together. */
  lemma PairsOfFacts(parts: seq<string>)
    ensures PairsOf(parts).Ok? <==> forall i :: 0 <= i < |parts| ==> '=' in parts[i]
    ensures PairsOf(parts).Ok? ==> (
      forall i :: 0 <= i < |parts| ==> PairsOf(parts).value[i] == SplitPair(parts[i]).value)
  {
    PairsOfOk(parts);
    if PairsOf(parts).Ok? {
      PairsOfValues(parts);
    }
  }

  /** `parseQuery`: the name/value pairs after the `?`, trimmed, in query order. */
  method ParseQuery(q: string) returns (r: Result<seq<(string, string)>>)
    ensures r == PairsOf(QueryTexts(q))
  {
    var queries := QueryTexts(q);
    var list: seq<(string, string)> := [];
    var i := 0;
    assert queries[0..] == queries;
    assert PairsOf(queries).Ok? ==> [] + PairsOf(queries).value == PairsOf(queries).value;
    while i < |queries|
      invariant 0 <= i <= |queries|
      invariant PairsOf(queries) == Prepend(list, PairsOf(queries[i..]))
    {
      var pair := SplitPair(queries[i]);
      MapOkStep(queries, SplitPair, i, list);
      if pair.Err? {
        return Err(IndexOutOfBounds);
      }
      list := list + [pair.value];
      i := i + 1;
    }
    assert list + [] == list;
    r := Ok(list);
  }

  /** A query without a `?` has no parameters; one whose text has no `&` has one. */
  lemma QueryTextsCount(q: string)
    ensures '?' !in q ==> QueryTexts(q) == []
    ensures '?' in q && '&' !in q ==> QueryTexts(q) == [q[IndexOf(q, '?') + 1..]]
  {
    var k := IndexOf(q, '?');
    if k < |q| && '&' !in q {
      var t := q[k + 1..];
      assert forall i :: 0 <= i < |t| ==> t[i] != '&' by {
        forall i | 0 <= i < |t| ensures t[i] != '&' { assert t[i] == q[k + 1 + i]; }
      }
      assert FirstCut(t, 0) == |t|;
    }
  }

  /** `encodeParameter` for one character: `\` and `"` are escaped with a backslash. */
  function EscapeChar(c: char): string
  {
    if c == '\\' then "\\\\" else if c == '"' then "\\\"" else [c]
  }

  /** `s.replace(c, rep)` for a single character `c`. */
  function ReplaceChar(s: string, c: char, rep: string): (r: string)
    ensures c !in s ==> r == s
    decreases |s|
  {
    if |s| == 0 then ""
    else (if s[0] == c then rep else [s[0]]) + ReplaceChar(s[1..], c, rep)
  }

  /** `encodeParameter`: backslashes doubled, then quotation marks escaped; `null` stays `null`. */
  function EncodeParameter(value: Option<string>): (r: Option<string>)
    ensures r.None? <==> value.None?
  {
    if value.None? then None
    else Some(ReplaceChar(ReplaceChar(value.value, '\\', "\\\\"), '"', "\\\""))
  }

  function EscapeAll(s: string): string
    decreases |s|
  {
    if |s| == 0 then "" else EscapeChar(s[0]) + EscapeAll(s[1..])
  }

  lemma {:induction false} ReplaceAppend(a: string, b: string, c: char, rep: string)
    ensures ReplaceChar(a + b, c, rep) == ReplaceChar(a, c, rep) + ReplaceChar(b, c, rep)
    decreases |a|
  {
    if |a| == 0 {
      assert a + b == b;
    } else {
      assert (a + b)[1..] == a[1..] + b;
      ReplaceAppend(a[1..], b, c, rep);
    }
  }

  /** The two replacements together escape each character on its own. */
  lemma {:induction false} EncodeIsEscapeAll(s: string)
    ensures EncodeParameter(Some(s)) == Some(EscapeAll(s))
    decreases |s|
  {
    if |s| > 0 {
      EncodeIsEscapeAll(s[1..]);
      var first := if s[0] == '\\' then "\\\\" else [s[0]];
      ReplaceAppend(first, ReplaceChar(s[1..], '\\', "\\\\"), '"', "\\\"");
      if s[0] == '\\' {
        assert ReplaceChar("\\\\", '"', "\\\"") == "\\\\";
      } else if s[0] == '"' {
        assert ReplaceChar([s[0]], '"', "\\\"") == "\\\"";
      } else {
        assert ReplaceChar([s[0]], '"', "\\\"") == [s[0]];
      }
    }
  }

  /** Reading an escaped text back: `\\` and `\"` stand for one character each. */
  function Unescape(t: string): string
    decreases |t|
  {
    if |t| == 0 then ""
    else if |t| >= 2 && t[0] == '\\' && (t[1] == '\\' || t[1] == '"') then [t[1]] + Unescape(t[2..])
    else [t[0]] + Unescape(t[1..])
  }

  /** Escaping loses nothing: the escaped value reads back as the original. */
  lemma {:induction false} EncodeParameterRoundTrip(s: string)
    ensures Unescape(EncodeParameter(Some(s)).value) == s
  {
    EncodeIsEscapeAll(s);
    UnescapeEscapeAll(s);
  }

  lemma {:induction false} UnescapeEscapeAll(s: string)
    ensures Unescape(EscapeAll(s)) == s
    decreases |s|
  {
    if |s| > 0 {
      UnescapeEscapeAll(s[1..]);
      var e := EscapeAll(s);
      assert e == EscapeChar(s[0]) + EscapeAll(s[1..]);
      if s[0] == '\\' || s[0] == '"' {
        assert e[2..] == EscapeAll(s[1..]);
      } else {
        assert e[1..] == EscapeAll(s[1..]);
      }
    }
  }

  /** Escaping adds exactly one backslash per backslash and per quotation mark. */
  lemma EncodeParameterLength(s: string)
    ensures |EncodeParameter(Some(s)).value| == |s| + multiset(s)['\\'] + multiset(s)['"']
  {
    EncodeIsEscapeAll(s);
    EscapeAllLength(s);
  }

  lemma {:induction false} EscapeAllLength(s: string)
    ensures |EscapeAll(s)| == |s| + multiset(s)['\\'] + multiset(s)['"']
    decreases |s|
  {
    if |s| > 0 {
      EscapeAllLength(s[1..]);
      CountHead(s, '\\');
      CountHead(s, '"');
      assert |EscapeAll(s)| == |EscapeChar(s[0])| + |EscapeAll(s[1..])|;
    }
  }

  /** The occurrences of `x` in a non-empty text: those in its first character and those in the rest. */
  lemma CountHead(s: string, x: char)
    requires |s| > 0
    ensures multiset(s)[x] == (if s[0] == x then 1 else 0) + multiset(s[1..])[x]
  {
    assert s == [s[0]] + s[1..];
    assert multiset(s) == multiset([s[0]]) + multiset(s[1..]);
  }

  /** The escapes of the version 2 parser tests: a backslash, a backslash and a quotation mark, a leading quotation mark. */
  lemma EncodeBackslash()
    ensures EncodeParameter(Some("\\")) == Some("\\\\")
  {
    var s := "\\";
    EncodeIsEscapeAll(s);
    assert s[0] == '\\' && s[1..] == "";
    assert EscapeAll(s) == EscapeChar('\\') + EscapeAll("");
    assert EscapeChar('\\') + "" == "\\\\";
  }

  lemma EncodeBackslashQuote()
    ensures EncodeParameter(Some("\\\"")) == Some("\\\\\\\"")
  {
    var s := "\\\"";
    EncodeIsEscapeAll(s);
    assert s[0] == '\\' && s[1..] == "\"";
    assert "\""[0] == '"' && "\""[1..] == "";
    assert EscapeAll("\"") == EscapeChar('"') + EscapeAll("");
    assert EscapeAll("\"") == "\\\"";
    assert EscapeAll(s) == EscapeChar('\\') + EscapeAll("\"");
    assert "\\\\" + "\\\"" == "\\\\\\\"";
  }

  lemma EncodeQuoteAbc()
    ensures EncodeParameter(Some("\"abc")) == Some("\\\"abc")
  {
    EncodeIsEscapeAll("\"abc");
    assert EscapeAll("\"abc") == EscapeChar('"') + EscapeAll("abc");
    assert EscapeAll("abc") == "abc" by {
      assert EscapeAll("abc") == ['a'] + EscapeAll("bc");
      assert EscapeAll("bc") == ['b'] + EscapeAll("c");
      assert EscapeAll("c") == ['c'] + EscapeAll("");
    }
    assert "\\\"" + "abc" == "\\\"abc";
  }

}
