/**
 * The Java string operations the adapter relies on, written out over
 * `seq<char>`: `trim`, `split` (with its removal of trailing empty strings),
 * joining, ASCII case folding, `compareTo`, `contains`, the insertion-ordered
 * set union of a `LinkedHashSet`, and decimal integer text.
 */
module Strings {
  import opened Base

  /** Index of the first `c` in `s`, or `|s|` when there is none. */
  function IndexOf(s: string, c: char): (k: nat)
    ensures k <= |s|
    ensures c !in s[..k]
    ensures k < |s| ==> s[k] == c
    ensures k == |s| <==> c !in s
    decreases |s|
  {
    if |s| == 0 then 0
    else if s[0] == c then 0
    else
      assert s[..1 + IndexOf(s[1..], c)] == [s[0]] + s[1..][..IndexOf(s[1..], c)];
      1 + IndexOf(s[1..], c)
  }

  predicate IsPrefix(p: string, s: string)
  {
    |p| <= |s| && s[..|p|] == p
  }

  /** Java `String.contains`: `p` occurs somewhere in `s`. */
  predicate Contains(s: string, p: string)
    decreases |s|
  {
    IsPrefix(p, s) || (|s| > 0 && Contains(s[1..], p))
  }

  /** The characters Java's `String.trim` removes: code points up to U+0020. */
  predicate IsTrimmable(c: char)
  {
    c <= ' '
  }

  function TrimLeft(s: string): (r: string)
    ensures |r| <= |s| && r == s[|s| - |r|..]
    ensures |r| > 0 ==> !IsTrimmable(r[0])
    ensures forall i :: 0 <= i < |s| - |r| ==> IsTrimmable(s[i])
    decreases |s|
  {
    if |s| > 0 && IsTrimmable(s[0]) then TrimLeft(s[1..]) else s
  }

  function TrimRight(s: string): (r: string)
    ensures |r| <= |s| && r == s[..|r|]
    ensures |r| > 0 ==> !IsTrimmable(r[|r| - 1])
    ensures forall i :: |r| <= i < |s| ==> IsTrimmable(s[i])
    decreases |s|
  {
    if |s| > 0 && IsTrimmable(s[|s| - 1]) then TrimRight(s[..|s| - 1]) else s
  }

  /** Java `String.trim`. */
  function Trim(s: string): string
  {
    TrimRight(TrimLeft(s))
  }

  /** The characters the regular-expression class `\s` matches. */
  predicate IsRegexSpace(c: char)
  {
    c == ' ' || c == '\t' || c == '\n' || c == '\U{000B}' || c == '\U{000C}' || c == '\r'
  }

  function StripSpaceLeft(s: string): (r: string)
    ensures |r| <= |s| && r == s[|s| - |r|..]
    ensures |r| > 0 ==> !IsRegexSpace(r[0])
    decreases |s|
  {
    if |s| > 0 && IsRegexSpace(s[0]) then StripSpaceLeft(s[1..]) else s
  }

  function StripSpaceRight(s: string): (r: string)
    ensures |r| <= |s| && r == s[..|r|]
    ensures |r| > 0 ==> !IsRegexSpace(r[|r| - 1])
    decreases |s|
  {
    if |s| > 0 && IsRegexSpace(s[|s| - 1]) then StripSpaceRight(s[..|s| - 1]) else s
  }

  /** The characters the regular-expression `.` does not match. */
  predicate IsLineTerminator(c: char)
  {
    c == '\n' || c == '\r' || c == '\U{0085}' || c == '\U{2028}' || c == '\U{2029}'
  }

  /** A text the regular-expression `.*` can cover: it holds no line terminator. */
  predicate NoBreak(t: string)
  {
    forall i :: 0 <= i < |t| ==> !IsLineTerminator(t[i])
  }

  /** `Character.toLowerCase` restricted to ASCII letters. */
  function AsciiLowerChar(c: char): (d: char)
    ensures 'A' <= c <= 'Z' ==> 'a' <= d <= 'z'
    ensures !('A' <= c <= 'Z') ==> d == c
  {
    if 'A' <= c <= 'Z' then (c as int + 32) as char else c
  }

  /** `String.toLowerCase` restricted to ASCII letters. */
  function AsciiLower(s: string): (r: string)
    ensures |r| == |s|
    ensures forall i :: 0 <= i < |s| ==> r[i] == AsciiLowerChar(s[i])
  {
    seq(|s|, i requires 0 <= i < |s| => AsciiLowerChar(s[i]))
  }

  /** Two characters equal under ASCII case-insensitive matching. */
  predicate FoldEq(a: char, b: char)
  {
    AsciiLowerChar(a) == AsciiLowerChar(b)
  }

  /** Java `String.equalsIgnoreCase` restricted to ASCII letters. */
  predicate EqualsIgnoreCase(a: string, b: string)
  {
    AsciiLower(a) == AsciiLower(b)
  }

  /** `StringUtils.join` / `String.join`: the parts separated by `sep`. */
  function Join(parts: seq<string>, sep: string): string
    decreases |parts|
  {
    if |parts| == 0 then ""
    else if |parts| == 1 then parts[0]
    else parts[0] + sep + Join(parts[1..], sep)
  }

  /** Cutting `s` at every `c`, keeping every piece (also the empty ones). */
  function SplitChar(s: string, c: char): (parts: seq<string>)
    ensures |parts| >= 1
    ensures Join(parts, [c]) == s
    ensures forall i :: 0 <= i < |parts| ==> c !in parts[i]
    ensures c !in s ==> parts == [s]
    decreases |s|
  {
    var k := IndexOf(s, c);
    if k == |s| then [s]
    else
      var rest := SplitChar(s[k + 1..], c);
      assert s == s[..k] + [c] + s[k + 1..];
      [s[..k]] + rest
  }

  /** The last piece of a split ends where the text ends, so a text not ending in the separator has a non-empty last piece. */
  lemma SplitLastNonEmpty(s: string, c: char)
    requires |s| > 0 && s[|s| - 1] != c
    ensures SplitChar(s, c)[|SplitChar(s, c)| - 1] != ""
  {
    var parts := SplitChar(s, c);
    if parts[|parts| - 1] == "" {
      var j := Join(parts, [c]);
      assert j == "" || j[|j| - 1..] == [c] by {
        JoinLastEmpty(parts, [c]);
      }
    }
  }

  /** Joining pieces whose last one is empty gives the empty text or a text ending in the separator. */
  lemma {:induction false} JoinLastEmpty(parts: seq<string>, sep: string)
    requires |parts| >= 1 && parts[|parts| - 1] == "" && |sep| >= 1
    ensures Join(parts, sep) == "" || (|Join(parts, sep)| >= |sep| && Join(parts, sep)[|Join(parts, sep)| - |sep|..] == sep)
    decreases |parts|
  {
    if |parts| > 1 {
      var rest := Join(parts[1..], sep);
      JoinLastEmpty(parts[1..], sep);
      var j := parts[0] + sep + rest;
      assert Join(parts, sep) == j;
      if rest == "" {
        assert j == parts[0] + sep;
      } else {
        assert j[|j| - |sep|..] == rest[|rest| - |sep|..];
      }
    }
  }

  /** The list `parts` with its trailing empty strings removed. */
  function DropTrailingEmpty(parts: seq<string>): (r: seq<string>)
    ensures |r| <= |parts| && r == parts[..|r|]
    ensures |r| > 0 ==> r[|r| - 1] != ""
    ensures forall i :: |r| <= i < |parts| ==> parts[i] == ""
    decreases |parts|
  {
    if |parts| > 0 && parts[|parts| - 1] == "" then DropTrailingEmpty(parts[..|parts| - 1])
    else parts
  }

  /**
   * Java `s.split(c)` for a single literal character: when `c` occurs the
   * pieces between the occurrences, with trailing empty pieces removed;
   * otherwise the whole of `s`.
   */
  function JavaSplit(s: string, c: char): (r: seq<string>)
    ensures c !in s ==> r == [s]
    ensures c in s ==> |r| <= |SplitChar(s, c)| && r == SplitChar(s, c)[..|r|]
    ensures forall i :: 0 <= i < |r| ==> c !in r[i]
  {
    if c !in s then [s] else DropTrailingEmpty(SplitChar(s, c))
  }

  /** The pieces of a split on `\s*,\s*`: white space next to a comma is removed. */
  function TrimAroundCommas(ps: seq<string>): (r: seq<string>)
    ensures |r| == |ps|
  {
    seq(|ps|, i requires 0 <= i < |ps| =>
      var p := if i > 0 then StripSpaceLeft(ps[i]) else ps[i];
      if i < |ps| - 1 then StripSpaceRight(p) else p)
  }

  /** Java `s.split("\\s*,\\s*")`. */
  function SplitCommaList(s: string): (r: seq<string>)
    ensures ',' !in s ==> r == [s]
    ensures forall i :: 0 <= i < |r| ==> ',' !in r[i]
  {
    if ',' !in s then [s]
    else
      var ps := SplitChar(s, ',');
      var ts := TrimAroundCommas(ps);
      assert forall i :: 0 <= i < |ts| ==> ',' !in ts[i] by {
        forall i | 0 <= i < |ts| ensures ',' !in ts[i] {
          assert ',' !in ps[i];
          var p := if i > 0 then StripSpaceLeft(ps[i]) else ps[i];
          assert ',' !in p;
        }
      }
      DropTrailingEmpty(ts)
  }

  /** A list of strings free of separators, spaces at either end and empty items. */
  predicate PlainItems(xs: seq<string>)
  {
    forall i :: 0 <= i < |xs| ==>
      xs[i] != "" && ',' !in xs[i] && !IsRegexSpace(xs[i][0]) && !IsRegexSpace(xs[i][|xs[i]| - 1])
  }

  lemma {:induction false} SplitJoinChar(xs: seq<string>, c: char)
    requires |xs| >= 1
    requires forall i :: 0 <= i < |xs| ==> c !in xs[i]
    ensures SplitChar(Join(xs, [c]), c) == xs
    decreases |xs|
  {
    if |xs| == 1 {
    } else {
      var s := Join(xs, [c]);
      var tail := Join(xs[1..], [c]);
      assert s == xs[0] + [c] + tail;
      assert IndexOf(s, c) == |xs[0]| by {
        assert s[..|xs[0]|] == xs[0];
        assert s[|xs[0]|] == c;
      }
      assert s[|xs[0]| + 1..] == tail;
      SplitJoinChar(xs[1..], c);
    }
  }

  /** Splitting a comma-joined list of plain items gives the items back. */
  lemma {:induction false} SplitCommaListJoin(xs: seq<string>)
    requires |xs| >= 1 && PlainItems(xs)
    ensures SplitCommaList(Join(xs, ",")) == xs
  {
    var s := Join(xs, ",");
    if |xs| == 1 {
      assert s == xs[0];
    } else {
      SplitJoinChar(xs, ',');
      assert ',' in s by {
        assert s == xs[0] + "," + Join(xs[1..], ",");
        assert s[|xs[0]|] == ',';
      }
      var ts := TrimAroundCommas(xs);
      forall i | 0 <= i < |xs| ensures ts[i] == xs[i] {
        var p := if i > 0 then StripSpaceLeft(xs[i]) else xs[i];
        assert p == xs[i];
      }
      assert ts == xs;
    }
  }

  /** `LinkedHashSet.addAll`: each of `xs` not yet present is appended, in order. */
  function AddAll(acc: seq<string>, xs: seq<string>): (r: seq<string>)
    ensures acc <= r
    ensures forall x :: x in r <==> x in acc || x in xs
    ensures Distinct(acc) ==> Distinct(r)
    decreases |xs|
  {
    if |xs| == 0 then acc
    else
      var next := if xs[0] in acc then acc else acc + [xs[0]];
      assert forall x :: x in next <==> x in acc || x == xs[0];
      AddAll(next, xs[1..])
  }

  /** Adding one more list to a `LinkedHashSet` continues from where the last one stopped. */
  lemma {:induction false} AddAllSnoc(acc: seq<string>, xs: seq<string>, x: string)
    ensures AddAll(acc, xs + [x]) == AddAll(AddAll(acc, xs), [x])
    decreases |xs|
  {
    if |xs| == 0 {
      assert xs + [x] == [x];
    } else {
      var next := if xs[0] in acc then acc else acc + [xs[0]];
      assert (xs + [x])[1..] == xs[1..] + [x];
      AddAllSnoc(next, xs[1..], x);
    }
  }

  predicate Distinct<T(==)>(s: seq<T>)
  {
    forall i, j :: 0 <= i < j < |s| ==> s[i] != s[j]
  }

  /** The insertion-ordered union of `xs` and `ys` (a `LinkedHashSet` filled with both). */
  function OrderedUnion(xs: seq<string>, ys: seq<string>): seq<string>
  {
    AddAll(AddAll([], xs), ys)
  }

  lemma {:induction false} AddAllKeepsDistinct(acc: seq<string>, xs: seq<string>)
    requires Distinct(acc + xs)
    ensures AddAll(acc, xs) == acc + xs
    decreases |xs|
  {
    if |xs| > 0 {
      forall i | 0 <= i < |acc| ensures acc[i] != xs[0] {
        assert (acc + xs)[i] == acc[i] && (acc + xs)[|acc|] == xs[0];
      }
      assert acc + [xs[0]] + xs[1..] == acc + xs;
      AddAllKeepsDistinct(acc + [xs[0]], xs[1..]);
    }
  }

  /**
   * The union holds every item of either list exactly once, starts with the
   * distinct items of `xs`, and is just `xs ++ ys` when the two are already
   * distinct and disjoint.
   */
  lemma OrderedUnionFacts(xs: seq<string>, ys: seq<string>)
    ensures var u := OrderedUnion(xs, ys);
      Distinct(u) && AddAll([], xs) <= u && (forall x :: x in u <==> x in xs || x in ys)
    ensures Distinct(xs + ys) ==> OrderedUnion(xs, ys) == xs + ys
  {
    if Distinct(xs + ys) {
      assert Distinct([] + xs) by { assert [] + xs == (xs + ys)[..|xs|]; }
      AddAllKeepsDistinct([], xs);
      assert [] + xs == xs;
      AddAllKeepsDistinct(xs, ys);
    }
  }

  /** Sign of Java `String.compareTo` (code-unit lexicographic order). */
  function CompareStrings(a: string, b: string): (c: int)
    ensures -1 <= c <= 1
    ensures c == 0 <==> a == b
    decreases |a|
  {
    if |a| == 0 && |b| == 0 then 0
    else if |a| == 0 then -1
    else if |b| == 0 then 1
    else if a[0] < b[0] then -1
    else if a[0] > b[0] then 1
    else
      assert a == [a[0]] + a[1..] && b == [b[0]] + b[1..];
      CompareStrings(a[1..], b[1..])
  }

  lemma {:induction false} CompareStringsAntisymmetric(a: string, b: string)
    ensures CompareStrings(b, a) == -CompareStrings(a, b)
    decreases |a|
  {
    if |a| > 0 && |b| > 0 && a[0] == b[0] {
      CompareStringsAntisymmetric(a[1..], b[1..]);
    }
  }

  lemma {:induction false} CompareStringsTransitive(a: string, b: string, c: string)
    requires CompareStrings(a, b) <= 0 && CompareStrings(b, c) <= 0
    ensures CompareStrings(a, c) <= 0
    decreases |a|
  {
    if |a| > 0 && |b| > 0 && |c| > 0 && a[0] == b[0] && b[0] == c[0] {
      CompareStringsTransitive(a[1..], b[1..], c[1..]);
    }
  }

  // ---------------------------------------------------------------------
  // Decimal integer text: Integer.toString / String.valueOf and Integer.parseInt.

  const MinInt32: int := -0x8000_0000
  const MaxInt32: int := 0x7FFF_FFFF

  predicate InInt32(n: int)
  {
    MinInt32 <= n <= MaxInt32
  }

  /** Java's 32-bit `int` arithmetic: `n` wrapped into the signed range. */
  function Wrap32(n: int): (r: int)
    ensures InInt32(r)
    ensures InInt32(n) ==> r == n
  {
    var m := n % 0x1_0000_0000;
    if m > MaxInt32 then m - 0x1_0000_0000 else m
  }

  predicate IsDigit(c: char)
  {
    '0' <= c <= '9'
  }

  predicate AllDigits(s: string)
  {
    forall i :: 0 <= i < |s| ==> IsDigit(s[i])
  }

  function DigitChar(d: nat): (c: char)
    requires d < 10
    ensures IsDigit(c)
  {
    ('0' as int + d) as char
  }

  function DigitValue(c: char): nat
    requires IsDigit(c)
  {
    c as int - '0' as int
  }

  /** The decimal digits of `n`, without leading zeros. */
  function NatText(n: nat): (s: string)
    ensures |s| >= 1 && AllDigits(s)
    decreases n
  {
    if n < 10 then [DigitChar(n)] else NatText(n / 10) + [DigitChar(n % 10)]
  }

  /** `Integer.toString` / `String.valueOf` of an integer. */
  function DecimalText(n: int): string
  {
    if n < 0 then "-" + NatText(-n) else NatText(n)
  }

  function DigitsValue(s: string): nat
    requires AllDigits(s)
    decreases |s|
  {
    if |s| == 0 then 0 else DigitsValue(s[..|s| - 1]) * 10 + DigitValue(s[|s| - 1])
  }

  /** `Integer.parseInt` over ASCII digits: optional sign, at least one digit, 32-bit range. */
  function ParseInt32(s: string): (r: Option<int>)
    ensures r.Some? ==> InInt32(r.value)
    ensures r.Some? ==> |s| > 0
  {
    if |s| == 0 then None
    else if s[0] == '-' || s[0] == '+' then
      var body := s[1..];
      if |body| == 0 || !AllDigits(body) then None
      else
        var v: int := if s[0] == '-' then 0 - (DigitsValue(body) as int) else DigitsValue(body);
        if InInt32(v) then Some(v) else None
    else if AllDigits(s) then
      var v := DigitsValue(s);
      if v <= MaxInt32 then Some(v) else None
    else None
  }

  lemma {:induction false} NatTextValue(n: nat)
    ensures DigitsValue(NatText(n)) == n
    decreases n
  {
    if n >= 10 {
      var s := NatText(n);
      assert s[..|s| - 1] == NatText(n / 10);
      NatTextValue(n / 10);
    }
  }

  /** Parsing the decimal text of a 32-bit integer gives the integer back. */
  lemma DecimalRoundTrip(n: int)
    requires InInt32(n)
    ensures ParseInt32(DecimalText(n)) == Some(n)
  {
    if n < 0 {
      var t := NatText(-n);
      NatTextValue(-n);
      var s := "-" + t;
      assert s[0] == '-' && s[1..] == t;
      assert DigitsValue(s[1..]) == -n;
    } else {
      var t := NatText(n);
      NatTextValue(n);
      assert IsDigit(t[0]);
    }
  }
}
