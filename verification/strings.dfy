/** The fragment of Python's `str` API the reconciliation scripts rely on:
    `strip()`, `lower()`, `split(sep)`, `replace(old, new)`, slicing and the
    decimal formatting / parsing of integers done by f-strings and `int()`. */
module Strings {
  import opened Wrappers

  /** Python's `str.isspace()` for a single character: the characters
      `str.strip()` with no argument removes. */
  predicate IsSpace(c: char) {
    || c == ' ' || c == '\t' || c == '\n' || c == '\r'
    || c == '\U{000B}' || c == '\U{000C}'
    || ('\U{001C}' <= c <= '\U{001F}')
    || c == '\U{0085}' || c == '\U{00A0}' || c == '\U{1680}'
    || ('\U{2000}' <= c <= '\U{200A}')
    || c == '\U{2028}' || c == '\U{2029}' || c == '\U{202F}' || c == '\U{205F}'
    || c == '\U{3000}'
  }

  predicate AllSpace(s: string) {
    forall i :: 0 <= i < |s| ==> IsSpace(s[i])
  }

  /** The number of leading whitespace characters: where `s.lstrip()` starts. */
  function StripStart(s: string): (n: nat)
    ensures n <= |s|
    ensures forall i :: 0 <= i < n ==> IsSpace(s[i])
    ensures n == |s| || !IsSpace(s[n])
  {
    if |s| > 0 && IsSpace(s[0]) then 1 + StripStart(s[1..]) else 0
  }

  /** The length `s.rstrip()` keeps. */
  function StripEnd(s: string): (n: nat)
    ensures n <= |s|
    ensures forall i :: n <= i < |s| ==> IsSpace(s[i])
    ensures n == 0 || !IsSpace(s[n - 1])
  {
    if |s| > 0 && IsSpace(s[|s| - 1]) then StripEnd(s[..|s| - 1]) else |s|
  }

  /** `s.strip()`: what lies between the leading and the trailing whitespace. */
  function Strip(s: string): (r: string)
    ensures |r| <= |s|
    ensures r == [] || (!IsSpace(r[0]) && !IsSpace(r[|r| - 1]))
  {
    var a := StripStart(s);
    var b := StripEnd(s);
    if a < b then s[a..b] else []
  }

  /** `s.strip()` is falsy exactly when `s` is all whitespace. */
  lemma StripEmptyIff(s: string)
    ensures Strip(s) == [] <==> AllSpace(s)
  {
    var a := StripStart(s);
    var b := StripEnd(s);
    assert a < |s| ==> a < b;
  }

  /** Stripping twice is stripping once. */
  lemma StripIdempotent(s: string)
    ensures Strip(Strip(s)) == Strip(s)
  {
    StripNoEdgeSpace(Strip(s));
  }

  /** A string with no whitespace at either end is its own `strip()`. */
  lemma StripNoEdgeSpace(s: string)
    requires s == [] || (!IsSpace(s[0]) && !IsSpace(s[|s| - 1]))
    ensures Strip(s) == s
  {
    if s != [] {
      assert StripStart(s) == 0;
      assert StripEnd(s) == |s|;
      assert s[0..|s|] == s;
    }
  }

  /** Python's `str.lower()` on one character, restricted to ASCII letters. */
  function LowerChar(c: char): char {
    if 'A' <= c <= 'Z' then (c as int - 'A' as int + 'a' as int) as char else c
  }

  /** `s.lower()` (ASCII case mapping only). */
  function Lower(s: string): (r: string)
    ensures |r| == |s|
    ensures forall i :: 0 <= i < |s| ==> r[i] == LowerChar(s[i])
  {
    if s == [] then [] else [LowerChar(s[0])] + Lower(s[1..])
  }

  predicate NoUpper(s: string) {
    forall i :: 0 <= i < |s| ==> !('A' <= s[i] <= 'Z')
  }

  /** `lower()` is idempotent and leaves no upper-case ASCII letter behind. */
  lemma LowerProperties(s: string)
    ensures NoUpper(Lower(s))
    ensures Lower(Lower(s)) == Lower(s)
  {
  }

  /** `sep.join(parts)`. */
  function Join(parts: seq<string>, sep: char): string {
    if |parts| == 0 then []
    else if |parts| == 1 then parts[0]
    else parts[0] + [sep] + Join(parts[1..], sep)
  }

  /** `s.split(sep)` for a one-character separator: never empty, no part
      contains the separator, and joining the parts gives `s` back. */
  function Split(s: string, sep: char): (parts: seq<string>)
    ensures |parts| >= 1
    ensures forall i :: 0 <= i < |parts| ==> sep !in parts[i]
    ensures Join(parts, sep) == s
    ensures |parts| == 1 <==> sep !in s
  {
    if |s| == 0 then [[]]
    else
      var rest := Split(s[1..], sep);
      if s[0] == sep then
        assert s == [s[0]] + s[1..];
        [[]] + rest
      else
        var parts := [[s[0]] + rest[0]] + rest[1..];
        assert parts[1..] == rest[1..];
        assert s == [s[0]] + s[1..];
        parts
  }

  /** The converse round trip: splitting the join of separator-free parts
      returns the parts, so `Split` is the only decomposition of its kind. */
  lemma {:induction false} SplitJoin(parts: seq<string>, sep: char)
    requires |parts| >= 1
    requires forall i :: 0 <= i < |parts| ==> sep !in parts[i]
    ensures Split(Join(parts, sep), sep) == parts
    decreases |parts|, |parts[0]|
  {
    if |parts| == 1 {
      SplitNoSep(parts[0], sep);
    } else if parts[0] == [] {
      var tail := parts[1..];
      var s := Join(parts, sep);
      SplitJoin(tail, sep);
      assert s == [sep] + Join(tail, sep);
      assert s[1..] == Join(tail, sep);
      assert Split(s, sep) == [[]] + Split(s[1..], sep);
      assert parts == [[]] + tail;
    } else {
      var p0 := parts[0];
      var shorter := [p0[1..]] + parts[1..];
      var s := Join(parts, sep);
      assert shorter[1..] == parts[1..];
      assert Join(shorter, sep) == p0[1..] + [sep] + Join(parts[1..], sep);
      assert p0 == [p0[0]] + p0[1..];
      assert s == [p0[0]] + Join(shorter, sep);
      assert s[1..] == Join(shorter, sep);
      SplitJoin(shorter, sep);
      assert Split(s, sep) == [[p0[0]] + shorter[0]] + shorter[1..];
    }
  }

  lemma {:induction false} SplitNoSep(s: string, sep: char)
    requires sep !in s
    ensures Split(s, sep) == [s]
  {
    if |s| > 0 {
      SplitNoSep(s[1..], sep);
      assert [s[0]] + s[1..] == s;
    }
  }

  /** `s[-1]`-style access to the last part of a split. */
  function LastPart(s: string, sep: char): (r: string)
    ensures sep !in r
  {
    var parts := Split(s, sep);
    parts[|parts| - 1]
  }

  /** Python's `s[:n]` for `n >= 0`. */
  function Take(s: string, n: nat): (r: string)
    ensures |r| == if n <= |s| then n else |s|
  {
    if n <= |s| then s[..n] else s
  }

  /** `s.startswith(p)`. */
  predicate StartsWith(s: string, p: string) {
    |p| <= |s| && s[..|p|] == p
  }

  /** `s.replace(pat, rep)`: leftmost, non-overlapping occurrences. */
  function ReplaceAll(s: string, pat: string, rep: string): string
    requires |pat| > 0
    decreases |s|
  {
    if |s| < |pat| then s
    else if s[..|pat|] == pat then rep + ReplaceAll(s[|pat|..], pat, rep)
    else [s[0]] + ReplaceAll(s[1..], pat, rep)
  }

  /** Every character of a replacement result comes from the input or from
      the replacement text. */
  lemma {:induction false} ReplaceAllChars(s: string, pat: string, rep: string, c: char)
    requires |pat| > 0
    requires c in ReplaceAll(s, pat, rep)
    ensures c in s || c in rep
    decreases |s|
  {
    if |s| < |pat| {
    } else if s[..|pat|] == pat {
      var tail := ReplaceAll(s[|pat|..], pat, rep);
      if c !in rep {
        assert c in tail;
        ReplaceAllChars(s[|pat|..], pat, rep, c);
      }
    } else {
      var tail := ReplaceAll(s[1..], pat, rep);
      if c != s[0] {
        assert c in tail;
        ReplaceAllChars(s[1..], pat, rep, c);
      }
    }
  }

  /** Replacing a one-character pattern by text without it removes it. */
  lemma {:induction false} ReplaceAllRemoves(s: string, c: char, rep: string)
    requires c !in rep
    ensures c !in ReplaceAll(s, [c], rep)
    decreases |s|
  {
    if |s| >= 1 {
      if s[..1] == [c] {
        ReplaceAllRemoves(s[1..], c, rep);
      } else {
        assert s[0] != c;
        ReplaceAllRemoves(s[1..], c, rep);
      }
    }
  }

  predicate IsDigit(c: char) { '0' <= c <= '9' }

  function DigitChar(d: nat): (c: char)
    requires d < 10
    ensures IsDigit(c)
  {
    ('0' as int + d) as char
  }

  function DigitValue(c: char): (d: nat)
    requires IsDigit(c)
    ensures d < 10 && DigitChar(d) == c
  {
    c as int - '0' as int
  }

  /** Decimal rendering of a natural number, as `f"{n}"` produces it. */
  function NatToString(n: nat): (r: string)
    ensures |r| >= 1
    ensures forall i :: 0 <= i < |r| ==> IsDigit(r[i])
    decreases n
  {
    if n < 10 then [DigitChar(n)] else NatToString(n / 10) + [DigitChar(n % 10)]
  }

  /** Decimal rendering of an integer, with a leading `-` when negative. */
  function IntToString(n: int): (r: string)
    ensures |r| >= 1
    ensures forall i :: 0 <= i < |r| ==> IsDigit(r[i]) || (i == 0 && r[i] == '-')
  {
    if n < 0 then "-" + NatToString(-n) else NatToString(n)
  }

  predicate DigitChars(s: string) {
    forall i :: 0 <= i < |s| ==> IsDigit(s[i]) || s[i] == '_'
  }

  /** The digit strings Python's `int()` accepts after the sign: ASCII digits
      where every `_` sits between a digit and a digit. */
  predicate IsDigitRun(s: string) {
    && |s| > 0
    && IsDigit(s[0])
    && DigitChars(s)
    && IsDigit(s[|s| - 1])
    && forall i, j :: 0 <= i < |s| && 0 <= j < |s| && j == i + 1 ==> !(s[i] == '_' && s[j] == '_')
  }

  /** The value of a digit run, underscores ignored. */
  function DigitsValue(s: string): nat
    requires DigitChars(s)
  {
    if |s| == 0 then 0
    else if s[|s| - 1] == '_' then DigitsValue(s[..|s| - 1])
    else 10 * DigitsValue(s[..|s| - 1]) + DigitValue(s[|s| - 1])
  }

  /** Python's `int(s)` for a base-10 string: surrounding whitespace is
      ignored, one optional sign, then a digit run; `None` where Python
      raises `ValueError`. */
  function ParseInt(s: string): Option<int> {
    ParseSigned(Strip(s))
  }

  /** `int()` on a string with no surrounding whitespace. */
  function ParseSigned(t: string): Option<int> {
    if |t| > 0 && (t[0] == '-' || t[0] == '+') then
      var digits := t[1..];
      if IsDigitRun(digits) then
        var v: int := DigitsValue(digits);
        Some(if t[0] == '-' then -v else v)
      else None
    else if IsDigitRun(t) then Some(DigitsValue(t))
    else None
  }

  lemma {:induction false} NatToStringValue(n: nat)
    ensures DigitsValue(NatToString(n)) == n
    decreases n
  {
    var r := NatToString(n);
    if n >= 10 {
      NatToStringValue(n / 10);
      assert r[..|r| - 1] == NatToString(n / 10);
    }
  }

  lemma NatToStringIsDigitRun(n: nat)
    ensures IsDigitRun(NatToString(n))
  {
  }

  lemma ParseIntNoEdgeSpace(t: string)
    requires t == [] || (!IsSpace(t[0]) && !IsSpace(t[|t| - 1]))
    ensures ParseInt(t) == ParseSigned(t)
  {
    StripNoEdgeSpace(t);
  }

  lemma ParseSignedRoundTrip(n: int)
    ensures ParseSigned(IntToString(n)) == Some(n)
  {
    var r := IntToString(n);
    if n < 0 {
      assert r[1..] == NatToString(-n);
      NatToStringIsDigitRun(-n);
      NatToStringValue(-n);
    } else {
      NatToStringIsDigitRun(n);
      NatToStringValue(n);
    }
  }

  /** `int(f"{n}") == n`: rendering then parsing an integer is the identity. */
  lemma IntToStringRoundTrip(n: int)
    ensures ParseInt(IntToString(n)) == Some(n)
  {
    var r := IntToString(n);
    assert !IsSpace(r[0]) && !IsSpace(r[|r| - 1]);
    ParseIntNoEdgeSpace(r);
    ParseSignedRoundTrip(n);
  }


  /** The first part of a split is where the string starts, up to the
      first separator or the end. */
  lemma {:induction false} SplitFirst(s: string, sep: char)
    ensures var f := Split(s, sep)[0];
      && |f| <= |s| && s[..|f|] == f
      && (|f| < |s| ==> s[|f|] == sep)
    decreases |s|
  {
    if |s| > 0 && s[0] != sep {
      SplitFirst(s[1..], sep);
    }
  }

  /** Joining splits off the last part after a separator. */
  lemma {:induction false} JoinLast(parts: seq<string>, sep: char)
    requires |parts| >= 2
    ensures Join(parts, sep) == Join(parts[..|parts| - 1], sep) + [sep] + parts[|parts| - 1]
    decreases |parts|
  {
    if |parts| > 2 {
      var tail := parts[1..];
      JoinLast(tail, sep);
      assert tail[..|tail| - 1] == parts[1..|parts| - 1];
      assert parts[..|parts| - 1][1..] == parts[1..|parts| - 1];
    }
  }

  /** The last part after a separator is what follows the last separator. */
  lemma LastPartAfter(x: string, y: string, sep: char)
    requires sep !in y
    ensures LastPart(x + [sep] + y, sep) == y
  {
    var s := x + [sep] + y;
    var parts := Split(s, sep);
    assert sep in s by { assert s[|x|] == sep; }
    var last := parts[|parts| - 1];
    JoinLast(parts, sep);
    var front := Join(parts[..|parts| - 1], sep);
    assert s == front + [sep] + last;
    // The separator before each tail lies outside the other tail, so the
    // tails are equally long.
    assert s[|front|] == sep;
    assert s[|x|] == sep;
    assert |front| == |x|;
    assert last == s[|x| + 1..];
  }


  /** A character in neither the input nor the replacement text is not in
      the result. */
  lemma ReplaceAllKeepsOut(s: string, pat: string, rep: string, c: char)
    requires |pat| > 0 && c !in s && c !in rep
    ensures c !in ReplaceAll(s, pat, rep)
  {
    if c in ReplaceAll(s, pat, rep) {
      ReplaceAllChars(s, pat, rep, c);
    }
  }


  /** `lower()` works character by character. */
  lemma {:induction false} LowerConcat(a: string, b: string)
    ensures Lower(a + b) == Lower(a) + Lower(b)
  {
    var l := Lower(a + b);
    assert forall i :: 0 <= i < |a| ==> l[i] == LowerChar(a[i]);
    assert forall i :: |a| <= i < |a + b| ==> l[i] == LowerChar(b[i - |a|]);
  }

  /** `lower()` leaves a string without upper-case letters alone. */
  lemma LowerNoUpper(s: string)
    requires NoUpper(s)
    ensures Lower(s) == s
  {
  }

  /** Replacing one character works piece by piece. */
  lemma {:induction false} ReplaceCharConcat(x: string, y: string, c: char, rep: string)
    ensures ReplaceAll(x + y, [c], rep) == ReplaceAll(x, [c], rep) + ReplaceAll(y, [c], rep)
    decreases |x|
  {
    if |x| > 0 {
      var s := x + y;
      assert s[1..] == x[1..] + y;
      assert s[..1] == x[..1];
      ReplaceCharConcat(x[1..], y, c, rep);
    } else {
      assert x + y == y;
    }
  }

  /** Replacing a character that does not occur changes nothing. */
  lemma {:induction false} ReplaceCharAbsent(s: string, c: char, rep: string)
    requires c !in s
    ensures ReplaceAll(s, [c], rep) == s
    decreases |s|
  {
    if |s| > 0 {
      assert s[..1] != [c] by { assert s[..1][0] == s[0]; }
      ReplaceCharAbsent(s[1..], c, rep);
      assert s == [s[0]] + s[1..];
    }
  }

  /** A character outside the pattern splits a replacement in two: no
      occurrence of the pattern runs across it. */
  lemma {:induction false} ReplaceAllAround(x: string, c: char, y: string, pat: string, rep: string)
    requires |pat| > 0 && c !in pat
    ensures ReplaceAll(x + [c] + y, pat, rep) == ReplaceAll(x, pat, rep) + [c] + ReplaceAll(y, pat, rep)
    decreases |x|
  {
    if |x| >= |pat| && x[..|pat|] == pat {
      ReplaceAllAround(x[|pat|..], c, y, pat, rep);
      AroundMatch(x, c, y, pat, rep);
    } else if |x + [c] + y| < |pat| {
      AroundShort(x, c, y, pat, rep);
    } else if |x| > 0 {
      ReplaceAllAround(x[1..], c, y, pat, rep);
      AroundNoMatch(x, c, y, pat, rep);
    } else {
      AroundEmpty(x, c, y, pat, rep);
    }
  }

  /** An occurrence at the front of `x` is replaced in both texts. */
  lemma AroundMatch(x: string, c: char, y: string, pat: string, rep: string)
    requires |pat| > 0 && |x| >= |pat| && x[..|pat|] == pat
    requires ReplaceAll(x[|pat|..] + [c] + y, pat, rep)
      == ReplaceAll(x[|pat|..], pat, rep) + [c] + ReplaceAll(y, pat, rep)
    ensures ReplaceAll(x + [c] + y, pat, rep) == ReplaceAll(x, pat, rep) + [c] + ReplaceAll(y, pat, rep)
  {
    var s := x + [c] + y;
    assert s[..|pat|] == pat;
    assert s[|pat|..] == x[|pat|..] + [c] + y;
    assert ReplaceAll(s, pat, rep) == rep + ReplaceAll(x[|pat|..] + [c] + y, pat, rep);
  }

  /** Texts shorter than the pattern are kept. */
  lemma AroundShort(x: string, c: char, y: string, pat: string, rep: string)
    requires |pat| > 0 && |x + [c] + y| < |pat|
    ensures ReplaceAll(x + [c] + y, pat, rep) == ReplaceAll(x, pat, rep) + [c] + ReplaceAll(y, pat, rep)
  {
    assert ReplaceAll(x, pat, rep) == x && ReplaceAll(y, pat, rep) == y;
  }

  /** A first character of `x` that starts no occurrence is kept in both
      texts. */
  lemma AroundNoMatch(x: string, c: char, y: string, pat: string, rep: string)
    requires |pat| > 0 && c !in pat && |x| > 0
    requires |x + [c] + y| >= |pat| && !(|x| >= |pat| && x[..|pat|] == pat)
    requires ReplaceAll(x[1..] + [c] + y, pat, rep)
      == ReplaceAll(x[1..], pat, rep) + [c] + ReplaceAll(y, pat, rep)
    ensures ReplaceAll(x + [c] + y, pat, rep) == ReplaceAll(x, pat, rep) + [c] + ReplaceAll(y, pat, rep)
  {
    var s := x + [c] + y;
    assert s[..|pat|] != pat by {
      if |x| < |pat| {
        assert s[..|pat|][|x|] == c;
      } else {
        assert s[..|pat|] == x[..|pat|];
      }
    }
    assert !StartsWith(s, pat);
    ReplaceAllHead(s, pat, rep);
    assert s[1..] == x[1..] + [c] + y;
    ReplaceAllHead(x, pat, rep);
  }

  /** A first character that starts no occurrence of the pattern is kept. */
  lemma ReplaceAllHead(s: string, pat: string, rep: string)
    requires |pat| > 0 && |s| > 0 && !StartsWith(s, pat)
    ensures ReplaceAll(s, pat, rep) == [s[0]] + ReplaceAll(s[1..], pat, rep)
  {
    if |s| < |pat| {
      assert ReplaceAll(s[1..], pat, rep) == s[1..];
      assert [s[0]] + s[1..] == s;
    }
  }

  /** With `x` empty, the separator itself starts no occurrence. */
  lemma AroundEmpty(x: string, c: char, y: string, pat: string, rep: string)
    requires |pat| > 0 && c !in pat && x == [] && |x + [c] + y| >= |pat|
    ensures ReplaceAll(x + [c] + y, pat, rep) == ReplaceAll(x, pat, rep) + [c] + ReplaceAll(y, pat, rep)
  {
    var s := x + [c] + y;
    assert s[..|pat|] != pat by {
      assert s[..|pat|][0] == c;
      assert pat[0] in pat;
    }
    assert s[1..] == y;
  }

  /** Text in front of the rest where no occurrence of the pattern starts
      is kept as it is. */
  lemma {:induction false} ReplaceAllSkip(x: string, y: string, pat: string, rep: string)
    requires |pat| > 0
    requires forall i :: 0 <= i < |x| ==> !StartsWith((x + y)[i..], pat)
    ensures ReplaceAll(x + y, pat, rep) == x + ReplaceAll(y, pat, rep)
    decreases |x|
  {
    var s := x + y;
    if |x| > 0 {
      assert !StartsWith(s[0..], pat);
      assert s[0..] == s;
      ReplaceAllHead(s, pat, rep);
      assert s[1..] == x[1..] + y;
      forall i | 0 <= i < |x[1..]|
        ensures !StartsWith((x[1..] + y)[i..], pat)
      {
        assert (x[1..] + y)[i..] == s[i + 1..];
      }
      ReplaceAllSkip(x[1..], y, pat, rep);
    } else {
      assert s == y;
    }
  }
}
