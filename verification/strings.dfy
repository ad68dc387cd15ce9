/** String primitives the Python code relies on, restricted to ASCII:
    `str.lower()`, `str.strip()`, `str.split(sep)`, `sep.join(parts)`,
    `startswith` and the `in` substring test. */
module Strings {

  datatype Option<+T> = None | Some(value: T)

  // ---------------------------------------------------------------------------
  // Case folding
  // ---------------------------------------------------------------------------

  predicate IsUpper(c: char) {
    'A' <= c <= 'Z'
  }

  /** ASCII `str.lower()` on one character. */
  function Lower(c: char): (r: char)
    ensures !IsUpper(r)
    ensures !IsUpper(c) ==> r == c
  {
    if IsUpper(c) then (c as int + 32) as char else c
  }

  function LowerStr(s: string): (r: string)
    ensures |r| == |s|
    ensures forall i :: 0 <= i < |s| ==> r[i] == Lower(s[i])
  {
    seq(|s|, i requires 0 <= i < |s| => Lower(s[i]))
  }

  predicate NoUpper(s: string) {
    forall i :: 0 <= i < |s| ==> !IsUpper(s[i])
  }

  lemma LowerStrOfLower(s: string)
    requires NoUpper(s)
    ensures LowerStr(s) == s
  {
  }

  lemma LowerStrIdempotent(s: string)
    ensures LowerStr(LowerStr(s)) == LowerStr(s)
  {
  }

  lemma LowerStrConcat(a: string, b: string)
    ensures LowerStr(a + b) == LowerStr(a) + LowerStr(b)
  {
  }

  // ---------------------------------------------------------------------------
  // Prefixes and substrings
  // ---------------------------------------------------------------------------

  /** `s.startswith(p)` */
  predicate StartsWith(s: string, p: string) {
    |p| <= |s| && s[..|p|] == p
  }

  /** `t` occurs in `s` starting at index `i`. */
  predicate OccursAt(t: string, s: string, i: int) {
    0 <= i && i + |t| <= |s| && s[i..i + |t|] == t
  }

  /** Python's `t in s`. */
  predicate Contains(s: string, t: string) {
    exists i | 0 <= i <= |s| - |t| :: OccursAt(t, s, i)
  }

  lemma ContainsAt(s: string, t: string, i: int)
    requires OccursAt(t, s, i)
    ensures Contains(s, t)
  {
  }

  lemma ContainsInfix(a: string, t: string, b: string)
    ensures Contains(a + t + b, t)
  {
    assert (a + t + b)[|a|..|a| + |t|] == t;
    ContainsAt(a + t + b, t, |a|);
  }

  /** Every character of a substring is a character of the string; the usual
      way to show that a needle does NOT occur in a concrete text. */
  lemma ContainsChars(s: string, t: string)
    requires Contains(s, t)
    ensures forall c :: c in t ==> c in s
  {
    var i :| 0 <= i <= |s| - |t| && OccursAt(t, s, i);
    forall c | c in t
      ensures c in s
    {
      var k :| 0 <= k < |t| && t[k] == c;
      assert s[i + k] == s[i..i + |t|][k];
    }
  }

  lemma NotContainsByChar(s: string, t: string, c: char)
    requires c in t && c !in s
    ensures !Contains(s, t)
  {
    if Contains(s, t) {
      ContainsChars(s, t);
    }
  }

  /** Lower-casing both sides preserves an occurrence. */
  lemma ContainsLower(s: string, t: string)
    requires Contains(s, t)
    ensures Contains(LowerStr(s), LowerStr(t))
  {
    var i :| 0 <= i <= |s| - |t| && OccursAt(t, s, i);
    assert LowerStr(s)[i..i + |t|] == LowerStr(t);
    ContainsAt(LowerStr(s), LowerStr(t), i);
  }

  // ---------------------------------------------------------------------------
  // Whitespace stripping
  // ---------------------------------------------------------------------------

  /** The ASCII characters for which Python's `str.isspace()` holds:
      tab, line feed, vertical tab, form feed, carriage return, the four
      information separators 0x1C-0x1F, and space. */
  predicate IsSpace(c: char) {
    var n := c as int;
    n == 32 || 9 <= n <= 13 || 28 <= n <= 31
  }

  predicate AllSpace(s: string) {
    forall k :: 0 <= k < |s| ==> IsSpace(s[k])
  }

  /** `s.strip()`: drops whitespace from the front, then from the back. The
      result neither starts nor ends with whitespace. */
  function Strip(s: string): (r: string)
    ensures |r| <= |s|
    ensures r == [] || (!IsSpace(r[0]) && !IsSpace(r[|r| - 1]))
    decreases |s|
  {
    if |s| > 0 && IsSpace(s[0]) then Strip(s[1..])
    else if |s| > 0 && IsSpace(s[|s| - 1]) then Strip(s[..|s| - 1])
    else s
  }

  /** What `Strip` removes is whitespace on both sides: the result is the
      infix of `s` between an all-space prefix and an all-space suffix. */
  lemma {:induction false} StripInfix(s: string)
    ensures exists i, j :: 0 <= i <= j <= |s| && Strip(s) == s[i..j]
                        && AllSpace(s[..i]) && AllSpace(s[j..])
    decreases |s|
  {
    if |s| > 0 && IsSpace(s[0]) {
      var t := s[1..];
      StripInfix(t);
      var i, j :| 0 <= i <= j <= |t| && Strip(t) == t[i..j] && AllSpace(t[..i]) && AllSpace(t[j..]);
      SpaceInFront(s, i, j);
      assert Strip(s) == s[i + 1..j + 1];
    } else if |s| > 0 && IsSpace(s[|s| - 1]) {
      var t := s[..|s| - 1];
      StripInfix(t);
      var i, j :| 0 <= i <= j <= |t| && Strip(t) == t[i..j] && AllSpace(t[..i]) && AllSpace(t[j..]);
      SpaceBehind(s, i, j);
      assert Strip(s) == s[i..j];
    } else {
      assert s[0..|s|] == s && AllSpace(s[..0]) && AllSpace(s[|s|..]);
    }
  }

  lemma SpaceInFront(s: string, i: nat, j: nat)
    requires |s| > 0 && IsSpace(s[0]) && i <= j <= |s| - 1
    requires AllSpace(s[1..][..i]) && AllSpace(s[1..][j..])
    ensures s[i + 1..j + 1] == s[1..][i..j]
    ensures AllSpace(s[..i + 1]) && AllSpace(s[j + 1..])
  {
    var t := s[1..];
    forall k | 0 <= k < j - i
      ensures s[i + 1..j + 1][k] == t[i..j][k]
    {
      assert s[i + 1..j + 1][k] == s[i + 1 + k] == t[i + k];
    }
    var front, back := s[..i + 1], s[j + 1..];
    forall k | 0 <= k < |front|
      ensures IsSpace(front[k])
    {
      if k > 0 { assert front[k] == t[..i][k - 1]; }
    }
    forall k | 0 <= k < |back|
      ensures IsSpace(back[k])
    {
      assert back[k] == t[j..][k];
    }
  }

  lemma SpaceBehind(s: string, i: nat, j: nat)
    requires |s| > 0 && IsSpace(s[|s| - 1]) && i <= j <= |s| - 1
    requires AllSpace(s[..|s| - 1][..i]) && AllSpace(s[..|s| - 1][j..])
    ensures s[i..j] == s[..|s| - 1][i..j]
    ensures AllSpace(s[..i]) && AllSpace(s[j..])
  {
    var t := s[..|s| - 1];
    assert s[i..j] == t[i..j];
    var front, back := s[..i], s[j..];
    forall k | 0 <= k < |front|
      ensures IsSpace(front[k])
    {
      assert front[k] == t[..i][k];
    }
    forall k | 0 <= k < |back|
      ensures IsSpace(back[k])
    {
      if j + k < |s| - 1 { assert back[k] == t[j..][k]; }
    }
  }

  /** A string that neither starts nor ends with whitespace is its own strip. */
  lemma StripNoOp(s: string)
    requires s == [] || (!IsSpace(s[0]) && !IsSpace(s[|s| - 1]))
    ensures Strip(s) == s
  {
  }

  lemma StripIdempotent(s: string)
    ensures Strip(Strip(s)) == Strip(s)
  {
    StripNoOp(Strip(s));
  }

  /** A stripped string that has a first character keeps it. */
  lemma {:induction false} StripKeepsHead(s: string)
    requires |s| > 0 && !IsSpace(s[0])
    ensures |Strip(s)| > 0 && StartsWith(s, Strip(s))
    decreases |s|
  {
    if IsSpace(s[|s| - 1]) {
      var t := s[..|s| - 1];
      StripKeepsHead(t);
      assert s[..|Strip(t)|] == t[..|Strip(t)|];
    }
  }

  // ---------------------------------------------------------------------------
  // Splitting on one separator character and joining back
  // ---------------------------------------------------------------------------

  /** Extends the first part of a non-empty list of parts by `p` in front. */
  function Cons(p: string, parts: seq<string>): (r: seq<string>)
    requires |parts| > 0
    ensures |r| == |parts| && r[0] == p + parts[0] && r[1..] == parts[1..]
  {
    [p + parts[0]] + parts[1..]
  }

  lemma ConsCons(p: string, q: string, parts: seq<string>)
    requires |parts| > 0
    ensures Cons(p, Cons(q, parts)) == Cons(p + q, parts)
  {
    assert p + (q + parts[0]) == (p + q) + parts[0];
  }

  lemma ConsEmpty(parts: seq<string>)
    requires |parts| > 0
    ensures Cons("", parts) == parts
  {
    assert "" + parts[0] == parts[0];
  }

  /** Python's `s.split(sep)` for a one-character separator. */
  function Split(s: string, sep: char): (parts: seq<string>)
    ensures |parts| > 0
    decreases |s|
  {
    if |s| == 0 then [""]
    else if s[0] == sep then [""] + Split(s[1..], sep)
    else Cons([s[0]], Split(s[1..], sep))
  }

  /** Python's `sep.join(parts)`. */
  function Join(parts: seq<string>, sep: char): string
    decreases |parts|
  {
    if |parts| == 0 then ""
    else if |parts| == 1 then parts[0]
    else parts[0] + [sep] + Join(parts[1..], sep)
  }

  lemma JoinCons(p: string, parts: seq<string>, sep: char)
    requires |parts| > 0
    ensures Join(Cons(p, parts), sep) == p + Join(parts, sep)
  {
    var r := Cons(p, parts);
    if |parts| == 1 {
    } else {
      assert r[1..] == parts[1..];
      calc {
        Join(r, sep);
        r[0] + [sep] + Join(parts[1..], sep);
        p + (parts[0] + [sep] + Join(parts[1..], sep));
      }
    }
  }

  /** Joining the parts back with the separator reproduces the input. */
  lemma {:induction false} SplitJoin(s: string, sep: char)
    ensures Join(Split(s, sep), sep) == s
    decreases |s|
  {
    if |s| == 0 {
    } else if s[0] == sep {
      SplitJoin(s[1..], sep);
      assert ([""] + Split(s[1..], sep))[1..] == Split(s[1..], sep);
      assert s == [sep] + s[1..];
    } else {
      SplitJoin(s[1..], sep);
      JoinCons([s[0]], Split(s[1..], sep), sep);
      assert s == [s[0]] + s[1..];
    }
  }

  /** No part contains the separator. */
  lemma {:induction false} SplitPartsFree(s: string, sep: char)
    ensures forall k :: 0 <= k < |Split(s, sep)| ==> sep !in Split(s, sep)[k]
    decreases |s|
  {
    if |s| > 0 {
      SplitPartsFree(s[1..], sep);
    }
  }

  /** Splitting a string that does not contain the separator gives it back whole. */
  lemma {:induction false} SplitNoSep(s: string, sep: char)
    requires sep !in s
    ensures Split(s, sep) == [s]
    decreases |s|
  {
    if |s| > 0 {
      SplitNoSep(s[1..], sep);
      assert s == [s[0]] + s[1..];
    }
  }

  /** Splitting `a + sep + b` where `a` has no separator yields `a` followed by
      the parts of `b`. */
  lemma {:induction false} SplitAt(a: string, sep: char, b: string)
    requires sep !in a
    ensures Split(a + [sep] + b, sep) == [a] + Split(b, sep)
    decreases |a|
  {
    var s := a + [sep] + b;
    if |a| == 0 {
      assert s[1..] == b;
    } else {
      assert s[1..] == a[1..] + [sep] + b;
      SplitAt(a[1..], sep, b);
      assert [a[0]] + a[1..] == a;
    }
  }

  /** The converse round trip: parts free of the separator survive a join
      followed by a split. */
  lemma {:induction false} JoinSplit(parts: seq<string>, sep: char)
    requires |parts| > 0
    requires forall k :: 0 <= k < |parts| ==> sep !in parts[k]
    ensures Split(Join(parts, sep), sep) == parts
    decreases |parts|
  {
    if |parts| == 1 {
      SplitNoSep(parts[0], sep);
    } else {
      JoinSplit(parts[1..], sep);
      SplitAt(parts[0], sep, Join(parts[1..], sep));
      assert [parts[0]] + parts[1..] == parts;
    }
  }

  /** The first part is the prefix of the input up to the first separator. */
  lemma {:induction false} SplitHead(s: string, sep: char)
    ensures StartsWith(s, Split(s, sep)[0])
    ensures |Split(s, sep)[0]| < |s| ==> s[|Split(s, sep)[0]|] == sep
    decreases |s|
  {
    if |s| > 0 && s[0] != sep {
      SplitHead(s[1..], sep);
    }
  }

  // ---------------------------------------------------------------------------
  // Counting
  // ---------------------------------------------------------------------------

  function Count(s: string, c: char): (n: nat)
    ensures n <= |s|
    decreases |s|
  {
    if |s| == 0 then 0 else (if s[0] == c then 1 else 0) + Count(s[1..], c)
  }
}
