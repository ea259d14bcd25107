/**
 The three JavaScript string operations the question-answering action relies on:
 `String.prototype.trim`, `String.prototype.includes` and `Array.prototype.join`.
 Each executable definition is paired with a declarative characterisation.
 */
module Text {

  /** The code points `trim` removes: ECMAScript's WhiteSpace (TAB, VT, FF, ZWNBSP and the
      Unicode space separators) and LineTerminator (LF, CR, LS, PS) productions. */
  predicate IsWhitespace(c: char) {
    || c == '\t' || c == '\n' || c == '\U{000B}' || c == '\U{000C}' || c == '\r'
    || c == ' ' || c == '\U{00A0}' || c == '\U{1680}'
    || ('\U{2000}' <= c <= '\U{200A}')
    || c == '\U{2028}' || c == '\U{2029}' || c == '\U{202F}' || c == '\U{205F}'
    || c == '\U{3000}' || c == '\U{FEFF}'
  }

  predicate AllWhitespace(s: string) {
    forall i :: 0 <= i < |s| ==> IsWhitespace(s[i])
  }

  /* ---------------------------------------------------------------- trim */

  /** Drops the longest all-whitespace prefix. */
  function TrimStart(s: string): (r: string)
    ensures |r| <= |s| && r == s[|s| - |r|..]
    ensures AllWhitespace(s[..|s| - |r|])
    ensures r != [] ==> !IsWhitespace(r[0])
    decreases |s|
  {
    if s != [] && IsWhitespace(s[0]) then
      var r := TrimStart(s[1..]);
      assert s[..|s| - |r|] == [s[0]] + s[1..][..|s| - 1 - |r|];
      r
    else s
  }

  /** Drops the longest all-whitespace suffix. */
  function TrimEnd(s: string): (r: string)
    ensures |r| <= |s| && r == s[..|r|]
    ensures AllWhitespace(s[|r|..])
    ensures r != [] ==> !IsWhitespace(r[|r| - 1])
    decreases |s|
  {
    if s != [] && IsWhitespace(s[|s| - 1]) then
      var r := TrimEnd(s[..|s| - 1]);
      assert s[|r|..] == s[..|s| - 1][|r|..] + [s[|s| - 1]];
      r
    else s
  }

  /** `r` is the part of `s` from index `i` on, with whitespace only before and after it,
      and it neither starts nor ends with whitespace. */
  ghost predicate TrimmedAt(s: string, r: string, i: int) {
    && 0 <= i <= |s| - |r|
    && r == s[i..i + |r|]
    && AllWhitespace(s[..i])
    && AllWhitespace(s[i + |r|..])
    && (r != [] ==> !IsWhitespace(r[0]) && !IsWhitespace(r[|r| - 1]))
  }

  /** `r` is `s` with its surrounding whitespace removed. */
  ghost predicate IsTrimOf(s: string, r: string) {
    exists i :: TrimmedAt(s, r, i)
  }

  /** JavaScript's `s.trim()`. */
  function Trim(s: string): (r: string)
    ensures IsTrimOf(s, r)
  {
    var a := TrimStart(s);
    var r := TrimEnd(a);
    var i := |s| - |a|;
    assert r == s[i..i + |r|];
    assert s[i + |r|..] == a[|r|..];
    assert TrimmedAt(s, r, i);
    r
  }

  lemma WhitespaceBefore(s: string, i: int, k: int)
    requires 0 <= k < i <= |s| && AllWhitespace(s[..i])
    ensures IsWhitespace(s[k])
  {
    assert s[..i][k] == s[k];
  }

  lemma WhitespaceAfter(s: string, i: int, k: int)
    requires 0 <= i <= k < |s| && AllWhitespace(s[i..])
    ensures IsWhitespace(s[k])
  {
    assert s[i..][k - i] == s[k];
  }

  /** Two strings trimmed out of the same `s` are the same string. */
  lemma TrimmedAtSame(s: string, r: string, i: int, t: string, j: int)
    requires TrimmedAt(s, r, i) && TrimmedAt(s, t, j)
    ensures r == t
  {
    if r != [] && t != [] {
      assert s[i] == r[0] && s[j] == t[0];
      if i < j { WhitespaceBefore(s, j, i); }
      if j < i { WhitespaceBefore(s, i, j); }
      assert i == j;
      var e, f := i + |r| - 1, j + |t| - 1;
      assert s[e] == r[|r| - 1] && s[f] == t[|t| - 1];
      if e < f { WhitespaceAfter(s, e + 1, f); }
      if f < e { WhitespaceAfter(s, f + 1, e); }
      assert e == f;
    } else if r != [] {
      assert s[i] == r[0];
      if i < j { WhitespaceBefore(s, j, i); } else { WhitespaceAfter(s, j, i); }
    } else if t != [] {
      assert s[j] == t[0];
      if j < i { WhitespaceBefore(s, i, j); } else { WhitespaceAfter(s, i, j); }
    }
  }

  /** The characterisation determines the trimmed string: nothing but `Trim(s)` satisfies it. */
  lemma TrimUnique(s: string, r: string)
    requires IsTrimOf(s, r)
    ensures r == Trim(s)
  {
    var t := Trim(s);
    var i :| TrimmedAt(s, r, i);
    var j :| TrimmedAt(s, t, j);
    TrimmedAtSame(s, r, i, t, j);
  }

  lemma {:induction false} TrimIdempotent(s: string)
    ensures Trim(Trim(s)) == Trim(s)
  {
    var t := Trim(s);
    assert t[..0] == [] && t[0 + |t|..] == [] && t[0..0 + |t|] == t;
    assert TrimmedAt(t, t, 0);
    TrimUnique(t, t);
  }

  /** Trimming yields the empty string exactly when the input is all whitespace. */
  lemma {:induction false} TrimEmptyIff(s: string)
    ensures Trim(s) == [] <==> AllWhitespace(s)
  {
    var t := Trim(s);
    var i :| TrimmedAt(s, t, i);
    if t == [] {
      forall k | 0 <= k < |s| ensures IsWhitespace(s[k]) {
        if k < i { WhitespaceBefore(s, i, k); } else { WhitespaceAfter(s, i, k); }
      }
    } else {
      assert s[i] == t[0];
    }
  }

  /* ------------------------------------------------------------ includes */

  /** `p` occurs in `s` starting at index `i`. */
  ghost predicate OccursAt(p: string, s: string, i: int) {
    0 <= i && i + |p| <= |s| && s[i..i + |p|] == p
  }

  /** `p` is a contiguous substring of `s`. */
  ghost predicate IsInfix(p: string, s: string) {
    exists i :: OccursAt(p, s, i)
  }

  /** JavaScript's `s.includes(p)`: scan the start positions left to right. */
  function Includes(s: string, p: string): (b: bool)
    ensures b <==> IsInfix(p, s)
    decreases |s|
  {
    if |p| > |s| then
      assert forall i :: !OccursAt(p, s, i);
      false
    else if s[..|p|] == p then
      assert OccursAt(p, s, 0);
      true
    else
      var b := Includes(s[1..], p);
      if b then
        assert IsInfix(p, s) by {
          var i :| OccursAt(p, s[1..], i);
          assert s[i + 1..i + 1 + |p|] == s[1..][i..i + |p|];
          assert OccursAt(p, s, i + 1);
        }
        b
      else
        assert !IsInfix(p, s) by {
          forall i | OccursAt(p, s, i) ensures OccursAt(p, s[1..], i - 1) {
            ShiftOccurrence(p, s, i);
          }
        }
        b
  }

  lemma ShiftOccurrence(p: string, s: string, i: int)
    requires OccursAt(p, s, i) && i > 0
    ensures OccursAt(p, s[1..], i - 1)
  {
    assert s[1..][i - 1..i - 1 + |p|] == s[i..i + |p|];
  }

  /** A pattern holding a character the text lacks does not occur in it. */
  lemma MissingCharNotInfix(p: string, s: string, c: char)
    requires c in p && c !in s
    ensures !IsInfix(p, s)
  {
  }

  /* ---------------------------------------------------------------- join */

  /** JavaScript's `parts.join(sep)`: the parts in order, `sep` between neighbours. */
  function Join(parts: seq<string>, sep: string): (r: string)
    ensures |parts| == 0 ==> r == []
    ensures |parts| > 0 ==> |parts[0]| <= |r| && r[..|parts[0]|] == parts[0]
    ensures |parts| > 0 ==> |Last(parts)| <= |r| && r[|r| - |Last(parts)|..] == Last(parts)
  {
    if |parts| == 0 then []
    else if |parts| == 1 then parts[0]
    else
      var rest := Join(parts[1..], sep);
      assert Last(parts[1..]) == Last(parts);
      parts[0] + sep + rest
  }

  function Last<T>(xs: seq<T>): T
    requires |xs| > 0
  {
    xs[|xs| - 1]
  }

  function TotalLength(parts: seq<string>): nat {
    if |parts| == 0 then 0 else |parts[0]| + TotalLength(parts[1..])
  }

  /** The joined string holds every character of every part, plus one separator per gap. */
  lemma {:induction false} JoinLength(parts: seq<string>, sep: string)
    requires |parts| > 0
    ensures |Join(parts, sep)| == TotalLength(parts) + (|parts| - 1) * |sep|
  {
    if |parts| > 1 {
      JoinLength(parts[1..], sep);
      assert Join(parts, sep) == parts[0] + sep + Join(parts[1..], sep);
      MultiplyStep(|parts| - 1, |sep|);
    }
  }

  lemma MultiplyStep(n: int, k: int)
    ensures k + (n - 1) * k == n * k
  {
  }

  /** Joining a concatenation joins the two halves around one separator. */
  lemma {:induction false} JoinAppend(xs: seq<string>, ys: seq<string>, sep: string)
    requires |xs| > 0 && |ys| > 0
    ensures Join(xs + ys, sep) == Join(xs, sep) + sep + Join(ys, sep)
  {
    if |xs| == 1 {
      assert (xs + ys)[1..] == ys;
    } else {
      assert (xs + ys)[1..] == xs[1..] + ys;
      JoinAppend(xs[1..], ys, sep);
    }
  }

  /** Every part appears in the joined string, as a contiguous substring. */
  lemma {:induction false} JoinContainsParts(parts: seq<string>, sep: string, k: nat)
    requires k < |parts|
    ensures IsInfix(parts[k], Join(parts, sep))
  {
    var j := Join(parts, sep);
    if k == 0 {
      assert OccursAt(parts[0], j, 0);
    } else {
      JoinContainsParts(parts[1..], sep, k - 1);
      var rest := Join(parts[1..], sep);
      var i :| OccursAt(parts[1..][k - 1], rest, i);
      var off := |parts[0]| + |sep|;
      assert j == parts[0] + sep + rest;
      assert j[off + i..off + i + |parts[k]|] == rest[i..i + |parts[k]|];
      assert OccursAt(parts[k], j, off + i);
    }
  }

  /** A prefix of `b` is a prefix of anything `b` is extended to. */
  lemma PrefixExtends(a: string, b: string, c: string)
    requires |a| <= |b| && b[..|a|] == a
    ensures |a| <= |b + c| && (b + c)[..|a|] == a
  {
    assert (b + c)[..|a|] == b[..|a|];
  }

  /** A string occurs right after whatever precedes it. */
  lemma OccursBetween(before: string, p: string, after: string)
    ensures OccursAt(p, before + p + after, |before|)
  {
    assert (before + p + after)[|before|..|before| + |p|] == p;
  }

  /** The second of four pieces occurs right after the first. */
  lemma OccursSecondOfFour(a: string, p: string, b: string, c: string)
    ensures OccursAt(p, a + p + b + c, |a|)
  {
    assert (a + p + b + c)[|a|..|a| + |p|] == p;
  }

  /** Equal prefixes cancel. */
  lemma PrefixCancel(head: string, a: string, b: string)
    ensures head + a == head + b <==> a == b
  {
    if head + a == head + b {
      assert a == (head + a)[|head|..];
    }
  }

  /** An occurrence inside an occurrence: where `s` sits in `t` at `j`, and `p` in `s` at `i`,
      `p` sits in `t` at `j + i`. */
  lemma OccursWithin(p: string, s: string, i: int, t: string, j: int)
    requires OccursAt(p, s, i) && OccursAt(s, t, j)
    ensures OccursAt(p, t, j + i)
  {
    assert t[j..j + |s|] == s;
    forall k | 0 <= k < |p| ensures t[j + i + k] == p[k] {
      assert t[j + i + k] == s[i + k];
    }
  }

  /** A concatenation of five pieces opens with the first and ends with the last. */
  lemma FivePieces(a: string, b: string, c: string, d: string, e: string)
    ensures |a| <= |a + b + c + d + e| && (a + b + c + d + e)[..|a|] == a
    ensures |e| <= |a + b + c + d + e| && (a + b + c + d + e)[|a + b + c + d + e| - |e|..] == e
  {
    PrefixExtends(a, a, b);
    PrefixExtends(a, a + b, c);
    PrefixExtends(a, a + b + c, d);
    PrefixExtends(a, a + b + c + d, e);
  }
}
