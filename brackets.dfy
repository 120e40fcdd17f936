/**
 * The field-name pattern `(.*?)\[(.*?)\]` the helpers use to recognise a
 * nested field `container[key]`.  The version 1 helpers search for it with
 * `find()` (the first match anywhere in the name); the version 2 classes and
 * the user helper's include computation require the whole name to match
 * (`matches()`).  Group 1 is the container, group 2 the key; neither group
 * crosses a line terminator.
 */
module Brackets {
  import opened Base
  import opened Strings

  /** The lazy `(.*?)\]` from `i`: the first `]`, unless a line terminator comes first. */
  function CloseFrom(s: string, i: nat): (q: Option<nat>)
    requires i <= |s|
    ensures q.Some? ==> i <= q.value < |s| && s[q.value] == ']'
    ensures q.Some? ==> forall k :: i <= k < q.value ==> s[k] != ']' && !IsLineTerminator(s[k])
    decreases |s| - i
  {
    if i == |s| then None
    else if s[i] == ']' then Some(i)
    else if IsLineTerminator(s[i]) then None
    else CloseFrom(s, i + 1)
  }

  /**
   * The lazy `(.*?)\[(.*?)\]` from `i`: the first `[` followed by a closing
   * `]`, backtracking past a `[` that has none, and failing at a line terminator.
   */
  function OpenFrom(s: string, i: nat): (pq: Option<(nat, nat)>)
    requires i <= |s|
    ensures pq.Some? ==> i <= pq.value.0 < pq.value.1 < |s| && s[pq.value.0] == '['
    ensures pq.Some? ==> CloseFrom(s, pq.value.0 + 1) == Some(pq.value.1)
    ensures pq.Some? ==> forall k :: i <= k < pq.value.0 ==> !IsLineTerminator(s[k])
    decreases |s| - i
  {
    if i == |s| then None
    else if s[i] == '[' && CloseFrom(s, i + 1).Some? then Some((i, CloseFrom(s, i + 1).value))
    else if IsLineTerminator(s[i]) then None
    else OpenFrom(s, i + 1)
  }

  /** `find()`: the first start position from `st` at which the pattern matches, with its `[` and `]`. */
  function FindAt(s: string, st: nat): (m: Option<(nat, nat, nat)>)
    requires st <= |s|
    ensures m.Some? ==> st <= m.value.0 <= m.value.1 < m.value.2 < |s|
    ensures m.Some? ==> OpenFrom(s, m.value.0) == Some((m.value.1, m.value.2))
    decreases |s| - st
  {
    if st == |s| then None
    else match OpenFrom(s, st)
      case Some(pq) => Some((st, pq.0, pq.1))
      case None => FindAt(s, st + 1)
  }

  /** `m.find()` followed by `group(1)` and `group(2)`. */
  function FindBracket(s: string): (g: Option<(string, string)>)
  {
    match FindAt(s, 0)
    case None => None
    case Some(m) => Some((s[m.0..m.1], s[m.1 + 1..m.2]))
  }

  /**
   * `m.matches()` followed by `group(1)` and `group(2)`: the whole name is
   * `container[key]` with the container before its first `[`, and the key
   * (which may hold `[` or `]`) running to the final `]`.
   */
  function MatchBracket(s: string): (g: Option<(string, string)>)
    ensures g.Some? ==> s == g.value.0 + "[" + g.value.1 + "]"
    ensures g.Some? ==> '[' !in g.value.0 && NoBreak(s)
  {
    var p := IndexOf(s, '[');
    if |s| >= 2 && s[|s| - 1] == ']' && NoBreak(s) && p < |s| - 1 then
      assert s == s[..p] + "[" + s[p + 1..|s| - 1] + "]";
      Some((s[..p], s[p + 1..|s| - 1]))
    else None
  }

  /**
   * What `find()` reports occurs in the name: `a[b]` at position `k`, with no
   * line terminator in either group and no `]` inside `b`.
   */
  lemma FindSound(s: string) returns (k: nat)
    requires FindBracket(s).Some?
    ensures var (a, b) := FindBracket(s).value;
      k + |a| + |b| + 2 <= |s| && s[k..k + |a| + |b| + 2] == a + "[" + b + "]"
    ensures NoBreak(FindBracket(s).value.0) && NoBreak(FindBracket(s).value.1)
    ensures ']' !in FindBracket(s).value.1
  {
    var m := FindAt(s, 0).value;
    var i, p, q := m.0, m.1, m.2;
    var a, b := s[i..p], s[p + 1..q];
    assert FindBracket(s).value == (a, b);
    assert OpenFrom(s, i) == Some((p, q));
    assert NoBreak(a) by {
      forall j | 0 <= j < |a| ensures !IsLineTerminator(a[j]) {
        assert a[j] == s[i + j];
      }
    }
    assert CloseFrom(s, p + 1) == Some(q);
    assert NoBreak(b) && ']' !in b by {
      forall j | 0 <= j < |b| ensures b[j] != ']' && !IsLineTerminator(b[j]) {
        assert b[j] == s[p + 1 + j];
      }
    }
    SliceAround(s, i, p, q);
    k := i;
  }

  /** A slice holding `[` at `p` and `]` at `q` is the text before, the brackets and the text between. */
  lemma SliceAround(s: string, i: nat, p: nat, q: nat)
    requires i <= p < q < |s| && s[p] == '[' && s[q] == ']'
    ensures s[i..q + 1] == s[i..p] + "[" + s[p + 1..q] + "]"
  {
    assert s[i..q + 1] == s[i..p] + s[p..q + 1];
    assert s[p..q + 1] == [s[p]] + s[p + 1..q] + [s[q]];
  }

  lemma {:induction false} CloseSkip(s: string, i: nat, q: nat)
    requires i <= q < |s| && s[q] == ']'
    requires forall k :: i <= k < q ==> s[k] != ']' && !IsLineTerminator(s[k])
    ensures CloseFrom(s, i) == Some(q)
    decreases q - i
  {
    if i < q {
      CloseSkip(s, i + 1, q);
    }
  }

  lemma {:induction false} OpenSkip(s: string, i: nat, p: nat)
    requires i <= p <= |s|
    requires forall k :: i <= k < p ==> s[k] != '[' && !IsLineTerminator(s[k])
    ensures OpenFrom(s, i) == OpenFrom(s, p)
    decreases p - i
  {
    if i < p {
      OpenSkip(s, i + 1, p);
    }
  }

  /** `find()` recognises a name `a[b]`, with `a` and `b` as its groups. */
  lemma FindBracketField(a: string, b: string)
    requires '[' !in a && ']' !in b && NoBreak(a) && NoBreak(b)
    ensures FindBracket(a + "[" + b + "]") == Some((a, b))
  {
    var s := a + "[" + b + "]";
    var p, q := |a|, |a| + 1 + |b|;
    assert forall k :: 0 <= k < p ==> s[k] == a[k];
    assert forall k :: p < k < q ==> s[k] == b[k - p - 1];
    assert s[p] == '[' && s[q] == ']';
    CloseSkip(s, p + 1, q);
    OpenSkip(s, 0, p);
    assert FindAt(s, 0) == Some((0, p, q));
    assert s[0..p] == a && s[p + 1..q] == b;
  }

  /** `matches()` recognises a name `a[b]`, with `a` and `b` as its groups. */
  lemma MatchBracketField(a: string, b: string)
    requires '[' !in a && ']' !in b && NoBreak(a) && NoBreak(b)
    ensures MatchBracket(a + "[" + b + "]") == Some((a, b))
  {
    var s := a + "[" + b + "]";
    var p, q := |a|, |a| + 1 + |b|;
    assert forall k :: 0 <= k < p ==> s[k] == a[k];
    assert forall k :: p < k < q ==> s[k] == b[k - p - 1];
    assert s[..p] == a && s[p] == '[';
    assert IndexOf(s, '[') == p by {
      var k := IndexOf(s, '[');
      assert k <= p ==> s[..k] == a[..k];
    }
    assert NoBreak(s) by {
      forall k | 0 <= k < |s| ensures !IsLineTerminator(s[k]) {
        if k < p { assert s[k] == a[k]; } else if p < k < q { assert s[k] == b[k - p - 1]; }
      }
    }
    assert s[..p] == a && s[p + 1..|s| - 1] == b;
  }

  lemma {:induction false} NoOpen(s: string, st: nat)
    requires st <= |s| && '[' !in s
    ensures FindAt(s, st).None?
    decreases |s| - st
  {
    if st < |s| {
      NoOpen(s, st + 1);
    }
  }

  /** A name without `[` is a plain field for both forms of the match. */
  lemma PlainField(s: string)
    requires '[' !in s
    ensures FindBracket(s).None? && MatchBracket(s).None?
  {
    NoOpen(s, 0);
  }
}
