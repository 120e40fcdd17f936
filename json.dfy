/**
 * JSON values as the adapter sees them after parsing a Kinetic Core
 * response, with the lookups and the text forms it uses: `JSONObject.get`
 * and `containsKey`, `JSONValue.toJSONString`, and the helpers' `toString`
 * that keeps strings as they are and writes everything else as JSON text.
 *
 * An object is a list of members; a lookup takes the first member with the
 * key, and the text lists members in list order.
 */
module Json {
  import opened Base
  import opened Strings

  datatype Json =
    | JNull
    | JBool(b: bool)
    | JNum(n: int)
    | JStr(s: string)
    | JArr(items: seq<Json>)
    | JObj(members: seq<(string, Json)>)

  /** A `JSONObject`: its members in order. */
  type Object = seq<(string, Json)>

  /** `containsKey`. */
  predicate HasKey(members: seq<(string, Json)>, key: string)
  {
    exists i :: 0 <= i < |members| && members[i].0 == key
  }

  /** `get`: the value of the first member named `key`, or `null` when there is none. */
  function Get(members: seq<(string, Json)>, key: string): (v: Json)
    ensures !HasKey(members, key) ==> v == JNull
    ensures HasKey(members, key) ==>
      exists i :: 0 <= i < |members| && members[i] == (key, v)
    decreases |members|
  {
    if |members| == 0 then JNull
    else if members[0].0 == key then members[0].1
    else
      assert HasKey(members, key) ==> HasKey(members[1..], key) by {
        if HasKey(members, key) {
          var i :| 0 <= i < |members| && members[i].0 == key;
          assert members[1..][i - 1].0 == key;
        }
      }
      var v := Get(members[1..], key);
      assert HasKey(members, key) ==> exists i :: 0 <= i < |members| && members[i] == (key, v) by {
        if HasKey(members, key) {
          var i :| 0 <= i < |members[1..]| && members[1..][i] == (key, v);
          assert members[i + 1] == (key, v);
        }
      }
      v
  }

  function HexDigit(d: nat): char
    requires d < 16
  {
    if d < 10 then ('0' as int + d) as char else ('A' as int + d - 10) as char
  }

  /** Four upper-case hexadecimal digits of `n`. */
  function Hex4(n: nat): string
    requires n < 0x1_0000
  {
    [HexDigit(n / 0x1000), HexDigit(n / 0x100 % 16), HexDigit(n / 0x10 % 16), HexDigit(n % 16)]
  }

  /** The characters `JSONValue.escape` writes as a `\u` escape. */
  predicate IsUnicodeEscaped(c: char)
  {
    c <= '\U{001F}' || ('\U{007F}' <= c <= '\U{009F}') || ('\U{2000}' <= c <= '\U{20FF}')
  }

  function EscapeChar(c: char): string
  {
    match c
    case '"' => "\\\""
    case '\\' => "\\\\"
    case '\U{0008}' => "\\b"
    case '\U{000C}' => "\\f"
    case '\n' => "\\n"
    case '\r' => "\\r"
    case '\t' => "\\t"
    case '/' => "\\/"
    case _ => if IsUnicodeEscaped(c) then "\\u" + Hex4(c as int) else [c]
  }

  /** `JSONValue.escape`. */
  function Escape(s: string): string
    decreases |s|
  {
    if |s| == 0 then "" else EscapeChar(s[0]) + Escape(s[1..])
  }

  /** `JSONValue.toJSONString`. */
  function JsonText(j: Json): string
    decreases j
  {
    match j
    case JNull => "null"
    case JBool(b) => if b then "true" else "false"
    case JNum(n) => DecimalText(n)
    case JStr(s) => "\"" + Escape(s) + "\""
    case JArr(items) =>
      "[" + Join(seq(|items|, i requires 0 <= i < |items| => JsonText(items[i])), ",") + "]"
    case JObj(ms) =>
      "{" + Join(seq(|ms|, i requires 0 <= i < |ms| =>
        assert ms[i] in ms;
        "\"" + Escape(ms[i].0) + "\":" + JsonText(ms[i].1)), ",") + "}"
  }

  /** `toString()` of a non-null parsed value: a string is itself, anything else its JSON text. */
  function JavaString(j: Json): string
  {
    if j.JStr? then j.s else JsonText(j)
  }

  /** The helpers' `toString(Object)`: `null` stays `null`. */
  function Stringify(j: Json): (r: Option<string>)
    ensures r.None? <==> j == JNull
    ensures j.JStr? ==> r == Some(j.s)
  {
    if j == JNull then None else Some(JavaString(j))
  }
}
