/**
 * The version 1 helpers' `getPatternFromValue`: a qualification value is
 * turned into an anchored, case-insensitive regular expression in which an
 * unescaped `%` matches any run of characters and everything else is
 * literal.
 *
 * The compiled expression is represented as a list of tokens, a literal
 * character or a wildcard, and `Matches` is the regular-expression match of
 * the whole text: literals compare under ASCII case folding (the
 * `CASE_INSENSITIVE` flag without Unicode case), and a wildcard (`.*?`)
 * matches any run of characters that holds no line terminator.
 */
module Wildcard {
  import opened Strings

  datatype Token = Lit(c: char) | Star

  /** The tokens of a quoted literal text. */
  function Lits(v: string): (p: seq<Token>)
    ensures |p| == |v|
    ensures forall i :: 0 <= i < |v| ==> p[i] == Lit(v[i])
  {
    seq(|v|, i requires 0 <= i < |v| => Lit(v[i]))
  }

  /** Whole-text match of `s` against the token list `p`. */
  predicate Matches(p: seq<Token>, s: string)
    decreases |p| + |s|
  {
    if |p| == 0 then |s| == 0
    else match p[0]
      case Lit(c) => |s| > 0 && FoldEq(c, s[0]) && Matches(p[1..], s[1..])
      case Star => Matches(p[1..], s) || (|s| > 0 && !IsLineTerminator(s[0]) && Matches(p, s[1..]))
  }

  /** The split expression `(?<!\\)%`: a `%` that does not follow a backslash. */
  predicate IsWildcard(v: string, i: int)
    requires 0 <= i < |v|
  {
    v[i] == '%' && (i == 0 || v[i - 1] != '\\')
  }

  predicate HasWildcard(v: string)
  {
    exists i :: 0 <= i < |v| && IsWildcard(v, i)
  }

  /** The pieces of `v[start..]` between the wildcards at or after `i`, keeping empty ones. */
  function Pieces(v: string, start: nat, i: nat): (ps: seq<string>)
    requires start <= i <= |v|
    ensures |ps| >= 1
    decreases |v| - i
  {
    if i == |v| then [v[start..]]
    else if IsWildcard(v, i) then [v[start..i]] + Pieces(v, i + 1, i + 1)
    else Pieces(v, start, i + 1)
  }

  /** `value.split("(?<!\\\\)%")`: the whole value when no wildcard occurs, else trailing empty pieces dropped. */
  function Parts(v: string): (ps: seq<string>)
  {
    if HasWildcard(v) then DropTrailingEmpty(Pieces(v, 0, 0)) else [v]
  }

  /** `replaceAll("\\\\%", "%")`: every `\%`, scanned left to right, becomes `%`. */
  function Unescape(s: string): (r: string)
    ensures |r| <= |s|
    decreases |s|
  {
    if |s| == 0 then ""
    else if |s| >= 2 && s[0] == '\\' && s[1] == '%' then "%" + Unescape(s[2..])
    else [s[0]] + Unescape(s[1..])
  }

  /** The quoted pieces joined by `.*?`; an empty piece contributes nothing. */
  function JoinParts(ps: seq<string>): (p: seq<Token>)
    decreases |ps|
  {
    if |ps| == 0 then []
    else if |ps| == 1 then Lits(Unescape(ps[0]))
    else Lits(Unescape(ps[0])) + [Star] + JoinParts(ps[1..])
  }

  /** `getPatternFromValue`: the joined pieces, with one more wildcard when the last character is `%`. */
  function Compile(v: string): seq<Token>
  {
    JoinParts(Parts(v)) + (if |v| > 0 && v[|v| - 1] == '%' then [Star] else [])
  }

  // ---------------------------------------------------------------------
  // Matching facts

  lemma EqualsIgnoreCasePointwise(a: string, b: string)
    ensures EqualsIgnoreCase(a, b) <==> |a| == |b| && forall i :: 0 <= i < |a| ==> FoldEq(a[i], b[i])
  {
    if |a| == |b| && forall i :: 0 <= i < |a| ==> FoldEq(a[i], b[i]) {
      assert forall i :: 0 <= i < |a| ==> AsciiLower(a)[i] == AsciiLower(b)[i];
    }
    if EqualsIgnoreCase(a, b) {
      assert |a| == |AsciiLower(a)| == |AsciiLower(b)| == |b|;
      forall i | 0 <= i < |a| ensures FoldEq(a[i], b[i]) {
        assert AsciiLower(a)[i] == AsciiLower(b)[i];
      }
    }
  }

  /** A literal prefix consumes exactly as many characters, compared case-insensitively. */
  lemma {:induction false} LitsThen(v: string, p: seq<Token>, s: string)
    ensures Matches(Lits(v) + p, s) <==>
      |s| >= |v| && EqualsIgnoreCase(v, s[..|v|]) && Matches(p, s[|v|..])
    decreases |v|
  {
    EqualsIgnoreCasePointwise(v, if |s| >= |v| then s[..|v|] else s);
    if |v| == 0 {
      assert Lits(v) + p == p;
      assert s[0..] == s;
    } else {
      assert (Lits(v) + p)[1..] == Lits(v[1..]) + p;
      if |s| > 0 {
        LitsThen(v[1..], p, s[1..]);
        EqualsIgnoreCasePointwise(v[1..], if |s| >= |v| then s[1..][..|v| - 1] else s[1..]);
        if |s| >= |v| {
          assert s[1..][|v| - 1..] == s[|v|..];
          assert forall i :: 1 <= i < |v| ==> s[1..][..|v| - 1][i - 1] == s[..|v|][i];
          assert forall i :: 1 <= i < |v| ==> v[1..][i - 1] == v[i];
        }
      }
    }
  }

  lemma MatchesEmpty(s: string)
    ensures Matches([], s) <==> s == ""
  {
  }

  /** A literal pattern matches exactly the texts equal to it ignoring case. */
  lemma LitsMatch(v: string, s: string)
    ensures Matches(Lits(v), s) <==> EqualsIgnoreCase(v, s)
  {
    assert Lits(v) + [] == Lits(v);
    LitsThen(v, [], s);
    if |s| >= |v| {
      EqualsIgnoreCasePointwise(v, s[..|v|]);
      EqualsIgnoreCasePointwise(v, s);
      if |s| == |v| {
        assert s[..|v|] == s;
      }
    } else {
      EqualsIgnoreCasePointwise(v, s);
    }
  }

  /** A wildcard may absorb any prefix free of line terminators. */
  lemma {:induction false} StarSkip(p: seq<Token>, s: string, k: nat)
    requires k <= |s| && NoBreak(s[..k]) && Matches(p, s[k..])
    ensures Matches([Star] + p, s)
    decreases k
  {
    assert ([Star] + p)[1..] == p;
    if k == 0 {
      assert s[0..] == s;
    } else {
      assert s[..k][0] == s[0];
      assert s[1..][..k - 1] == s[1..k];
      assert forall i :: 0 <= i < k - 1 ==> s[1..k][i] == s[..k][i + 1];
      assert s[1..][k - 1..] == s[k..];
      StarSkip(p, s[1..], k - 1);
    }
  }

  /** When a wildcard-led pattern matches, the wildcard absorbed some prefix free of line terminators. */
  lemma {:induction false} StarSplit(p: seq<Token>, s: string) returns (k: nat)
    requires Matches([Star] + p, s)
    ensures k <= |s| && NoBreak(s[..k]) && Matches(p, s[k..])
    decreases |s|
  {
    assert ([Star] + p)[1..] == p;
    if Matches(p, s) {
      k := 0;
      assert s[0..] == s;
    } else {
      var k' := StarSplit(p, s[1..]);
      k := k' + 1;
      assert s[1..][..k'] == s[1..k];
      assert s[1..][k'..] == s[k..];
      assert forall i :: 1 <= i < k ==> s[..k][i] == s[1..k][i - 1];
    }
  }

  /** A lone wildcard matches exactly the texts free of line terminators. */
  lemma StarAlone(s: string)
    ensures Matches([Star], s) <==> NoBreak(s)
  {
    assert [Star] + [] == [Star];
    if Matches([Star], s) {
      var k := StarSplit([], s);
      assert s[..k] == s;
    }
    if NoBreak(s) {
      assert s[..|s|] == s;
      StarSkip([], s, |s|);
    }
  }

  // ---------------------------------------------------------------------
  // Compilation facts

  lemma {:induction false} PiecesPlain(v: string, start: nat, i: nat)
    requires start <= i <= |v|
    requires forall j :: i <= j < |v| ==> !IsWildcard(v, j)
    ensures Pieces(v, start, i) == [v[start..]]
    decreases |v| - i
  {
    if i < |v| {
      PiecesPlain(v, start, i + 1);
    }
  }

  lemma {:induction false} PiecesSkip(v: string, start: nat, i: nat, k: nat)
    requires start <= i <= k <= |v|
    requires forall j :: i <= j < k ==> !IsWildcard(v, j)
    ensures Pieces(v, start, i) == Pieces(v, start, k)
    decreases k - i
  {
    if i < k {
      PiecesSkip(v, start, i + 1, k);
    }
  }

  lemma {:induction false} UnescapePlain(s: string)
    requires '%' !in s
    ensures Unescape(s) == s
    decreases |s|
  {
    if |s| > 0 {
      assert '%' !in s[1..] by {
        assert forall i :: 0 <= i < |s| - 1 ==> s[1..][i] == s[i + 1];
      }
      UnescapePlain(s[1..]);
    }
  }

  /** `\%` becomes `%` when neither side holds another `%`. */
  lemma {:induction false} UnescapeEscaped(a: string, b: string)
    requires '%' !in a && '%' !in b
    ensures Unescape(a + "\\%" + b) == a + "%" + b
    decreases |a|
  {
    if |a| == 0 {
      var w := a + "\\%" + b;
      assert w == "\\%" + b && w[2..] == b;
      UnescapePlain(b);
    } else {
      var rest := a[1..] + "\\%" + b;
      assert a + "\\%" + b == [a[0]] + rest;
      assert rest[0] != '%' by {
        if |a| >= 2 { assert rest[0] == a[1] && a[1] in a; } else { assert rest[0] == '\\'; }
      }
      assert '%' !in a[1..] by {
        forall c | c in a[1..] ensures c in a { }
      }
      UnescapeFirst(a[0], rest);
      UnescapeEscaped(a[1..], b);
      assert [a[0]] + (a[1..] + "%" + b) == a + "%" + b;
    }
  }

  /** A character that cannot start `\%` is kept as it is. */
  lemma UnescapeFirst(c: char, rest: string)
    requires rest != [] && rest[0] != '%'
    ensures Unescape([c] + rest) == [c] + Unescape(rest)
  {
    assert ([c] + rest)[1..] == rest;
  }

  /** A value without `%` is compiled to the literal value. */
  lemma CompilePlain(v: string)
    requires '%' !in v
    ensures Compile(v) == Lits(v)
  {
    assert !HasWildcard(v);
    UnescapePlain(v);
  }

  lemma PartsLeading(v: string)
    requires '%' !in v && v != ""
    ensures Parts("%" + v) == ["", v]
  {
    var w := "%" + v;
    assert IsWildcard(w, 0);
    assert forall j :: 1 <= j < |w| ==> w[j] == v[j - 1];
    PiecesPlain(w, 1, 1);
    assert w[1..] == v && w[0..0] == "";
    assert Pieces(w, 0, 0) == [w[0..0]] + Pieces(w, 1, 1);
  }

  lemma PartsTrailing(v: string)
    requires '%' !in v && v != "" && v[|v| - 1] != '\\'
    ensures Parts(v + "%") == [v]
  {
    var w := v + "%";
    assert forall j :: 0 <= j < |v| ==> w[j] == v[j];
    assert IsWildcard(w, |v|);
    PiecesSkip(w, 0, 0, |v|);
    assert w[0..|v|] == v && w[|w|..] == "";
    assert Pieces(w, 0, 0) == [v, ""];
    assert [v, ""][..1] == [v];
    assert DropTrailingEmpty([v]) == [v];
    assert Parts(w) == DropTrailingEmpty([v, ""]);
  }

  lemma PartsSurrounded(v: string)
    requires '%' !in v && v != "" && v[|v| - 1] != '\\'
    ensures Parts("%" + v + "%") == ["", v]
  {
    var w := "%" + v + "%";
    var n := |v| + 1;
    assert forall j :: 1 <= j < n ==> w[j] == v[j - 1];
    assert IsWildcard(w, 0) && IsWildcard(w, n);
    PiecesSkip(w, 1, 1, n);
    assert w[0..0] == "" && w[1..n] == v && w[n + 1..] == "";
    assert Pieces(w, 0, 0) == [w[0..0]] + Pieces(w, 1, 1);
    assert Pieces(w, 1, n) == [v] + Pieces(w, n + 1, n + 1);
    assert Pieces(w, 0, 0) == ["", v, ""];
    assert ["", v, ""][..2] == ["", v];
    assert DropTrailingEmpty(["", v]) == ["", v];
    assert Parts(w) == DropTrailingEmpty(["", v, ""]);
  }

  lemma JoinLeading(v: string)
    requires '%' !in v
    ensures JoinParts(["", v]) == [Star] + Lits(v)
  {
    UnescapePlain(v);
    assert ["", v][1..] == [v];
    assert Unescape("") == "";
    assert Lits("") == [];
  }

  /** `%v`: a wildcard followed by the literal `v`. */
  lemma CompileLeading(v: string)
    requires '%' !in v && v != ""
    ensures Compile("%" + v) == [Star] + Lits(v)
  {
    PartsLeading(v);
    JoinLeading(v);
    assert ("%" + v)[|v|] == v[|v| - 1];
  }

  /** `v%`: the literal `v` followed by a wildcard, provided `v` does not end in a backslash. */
  lemma CompileTrailing(v: string)
    requires '%' !in v && v != "" && v[|v| - 1] != '\\'
    ensures Compile(v + "%") == Lits(v) + [Star]
  {
    PartsTrailing(v);
    UnescapePlain(v);
  }

  /** `%v%`: the literal `v` between two wildcards. */
  lemma CompileSurrounded(v: string)
    requires '%' !in v && v != "" && v[|v| - 1] != '\\'
    ensures Compile("%" + v + "%") == [Star] + Lits(v) + [Star]
  {
    PartsSurrounded(v);
    JoinLeading(v);
  }

  /** A lone `%` is a single wildcard. */
  lemma CompileLone()
    ensures Compile("%") == [Star]
  {
    var w := "%";
    assert IsWildcard(w, 0);
    assert w[1..] == "" && w[0..0] == "";
    assert Pieces(w, 1, 1) == [""];
    assert Pieces(w, 0, 0) == [w[0..0]] + Pieces(w, 1, 1) == ["", ""];
    assert DropTrailingEmpty(["", ""]) == [] by {
      assert ["", ""][..1] == [""];
    }
  }

  /**
   * `a\%b`: the escaped `%` is literal; but when it is the last character
   * it still earns the extra trailing wildcard.
   */
  lemma CompileEscaped(a: string, b: string)
    requires '%' !in a && '%' !in b
    ensures Compile(a + "\\%" + b) == Lits(a + "%" + b) + (if b == "" then [Star] else [])
  {
    var w := a + "\\%" + b;
    forall j | 0 <= j < |w| ensures !IsWildcard(w, j) {
      if j < |a| {
        assert w[j] == a[j];
      } else if j > |a| + 1 {
        assert w[j] == b[j - |a| - 2];
      } else if j == |a| + 1 {
        assert w[j - 1] == '\\';
      }
    }
    UnescapeEscaped(a, b);
    if b != "" {
      assert w[|w| - 1] == b[|b| - 1];
    }
  }

  // ---------------------------------------------------------------------
  // What the compiled patterns match

  /** A value without `%` matches the field text exactly, ignoring case. */
  lemma PlainValueMatches(v: string, s: string)
    requires '%' !in v
    ensures Matches(Compile(v), s) <==> EqualsIgnoreCase(v, s)
  {
    CompilePlain(v);
    LitsMatch(v, s);
  }

  /** `%v` matches the texts that end in `v`, ignoring case, after a run free of line terminators. */
  lemma LeadingWildcardMatches(v: string, s: string)
    requires '%' !in v && v != ""
    ensures Matches(Compile("%" + v), s) <==>
      |s| >= |v| && EqualsIgnoreCase(v, s[|s| - |v|..]) && NoBreak(s[..|s| - |v|])
  {
    CompileLeading(v);
    if Matches([Star] + Lits(v), s) {
      LeadingSplit(v, s);
    }
    if |s| >= |v| && EqualsIgnoreCase(v, s[|s| - |v|..]) && NoBreak(s[..|s| - |v|]) {
      LeadingSkip(v, s);
    }
  }

  /** A text ending in `v` after a run free of line terminators matches `[Star] + Lits(v)`. */
  lemma LeadingSkip(v: string, s: string)
    requires |s| >= |v| && EqualsIgnoreCase(v, s[|s| - |v|..]) && NoBreak(s[..|s| - |v|])
    ensures Matches([Star] + Lits(v), s)
  {
    var k := |s| - |v|;
    assert Matches(Lits(v), s[k..]) by {
      LitsMatch(v, s[k..]);
    }
    StarSkip(Lits(v), s, k);
  }

  /** A text matching `[Star] + Lits(v)` ends in `v`, after a run free of line terminators. */
  lemma LeadingSplit(v: string, s: string)
    requires Matches([Star] + Lits(v), s)
    ensures |s| >= |v| && EqualsIgnoreCase(v, s[|s| - |v|..]) && NoBreak(s[..|s| - |v|])
  {
    var k := StarSplit(Lits(v), s);
    var rest := s[k..];
    LitsMatch(v, rest);
    EqualsIgnoreCasePointwise(v, rest);
    assert |rest| == |v|;
    assert k == |s| - |v|;
  }

  /** `v%` matches the texts that begin with `v`, ignoring case, followed by a run free of line terminators. */
  lemma TrailingWildcardMatches(v: string, s: string)
    requires '%' !in v && v != "" && v[|v| - 1] != '\\'
    ensures Matches(Compile(v + "%"), s) <==>
      |s| >= |v| && EqualsIgnoreCase(v, s[..|v|]) && NoBreak(s[|v|..])
  {
    CompileTrailing(v);
    LitsThen(v, [Star], s);
    if |s| >= |v| {
      StarAlone(s[|v|..]);
    }
  }

  /** The text `s` holds `v` at `k`, ignoring case, with no line terminator before or after it. */
  predicate ContainsAt(v: string, s: string, k: int)
  {
    0 <= k <= |s| - |v| && NoBreak(s[..k]) && EqualsIgnoreCase(v, s[k..k + |v|]) && NoBreak(s[k + |v|..])
  }

  lemma SurroundedFound(v: string, s: string) returns (k: int)
    requires Matches([Star] + (Lits(v) + [Star]), s)
    ensures ContainsAt(v, s, k)
  {
    var j := StarSplit(Lits(v) + [Star], s);
    LitsThen(v, [Star], s[j..]);
    StarAlone(s[j..][|v|..]);
    assert s[j..][..|v|] == s[j..j + |v|];
    assert s[j..][|v|..] == s[j + |v|..];
    k := j;
  }

  lemma SurroundedAt(v: string, s: string, k: int)
    requires ContainsAt(v, s, k)
    ensures Matches([Star] + (Lits(v) + [Star]), s)
  {
    assert s[k..][..|v|] == s[k..k + |v|];
    assert s[k..][|v|..] == s[k + |v|..];
    StarAlone(s[k..][|v|..]);
    LitsThen(v, [Star], s[k..]);
    StarSkip(Lits(v) + [Star], s, k);
  }

  /** `%v%` matches the texts that contain `v`, ignoring case, with no line terminator around it. */
  lemma SurroundedWildcardMatches(v: string, s: string)
    requires '%' !in v && v != "" && v[|v| - 1] != '\\'
    ensures Matches(Compile("%" + v + "%"), s) <==> exists k :: ContainsAt(v, s, k)
  {
    CompileSurrounded(v);
    assert [Star] + Lits(v) + [Star] == [Star] + (Lits(v) + [Star]);
    if Matches([Star] + (Lits(v) + [Star]), s) {
      var k := SurroundedFound(v, s);
    }
    if exists k :: ContainsAt(v, s, k) {
      var k :| ContainsAt(v, s, k);
      SurroundedAt(v, s, k);
    }
  }

  /** A lone `%` matches every text free of line terminators; an empty value only the empty text. */
  lemma LoneAndEmptyMatches(s: string)
    ensures Matches(Compile("%"), s) <==> NoBreak(s)
    ensures Matches(Compile(""), s) <==> s == ""
  {
    CompileLone();
    StarAlone(s);
    CompilePlain("");
  }

  /**
   * `v\%` does not match just `v%`: the extra wildcard lets it match any
   * text that begins with `v%`.
   */
  lemma EscapedTrailingPercentMatches(v: string, s: string)
    requires '%' !in v
    ensures Matches(Compile(v + "\\%"), s) <==>
      |s| > |v| && EqualsIgnoreCase(v + "%", s[..|v| + 1]) && NoBreak(s[|v| + 1..])
  {
    assert v + "\\%" == v + "\\%" + "";
    CompileEscaped(v, "");
    assert v + "%" + "" == v + "%";
    LitsThen(v + "%", [Star], s);
    if |s| > |v| {
      StarAlone(s[|v| + 1..]);
    }
  }

  /** The wildcard values exercised by the user filter tests: `%@kineticdata.com`, `test%` and `%user@kineticdata%`. */
  lemma AdapterTestPatterns()
    ensures Compile("%" + "@kineticdata.com") == [Star] + Lits("@kineticdata.com")
    ensures Compile("test" + "%") == Lits("test") + [Star]
    ensures Compile("%" + "user@kineticdata" + "%") == [Star] + Lits("user@kineticdata") + [Star]
  {
    CompileLeading("@kineticdata.com");
    CompileTrailing("test");
    CompileSurrounded("user@kineticdata");
  }
}
