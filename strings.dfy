/**
 * The operations of Python's `str` type that the repository uses: `in`,
 * `split`, `join`, `replace`, `strip`, `upper` and `str(n)` for a natural
 * number `n`; and `StartsWith`, what a `^`-anchored pattern asks of a text.
 */
module Strings {

  /** `s` begins with `p`. */
  predicate StartsWith(s: string, p: string) {
    |p| <= |s| && s[..|p|] == p
  }

  /** `p in s`: some suffix of `s` starts with `p`. */
  predicate Contains(s: string, p: string)
    decreases |s|
  {
    StartsWith(s, p) || (|s| > 0 && Contains(s[1..], p))
  }

  /** `p` occurs in any string that has it as an infix. */
  lemma {:induction false} ContainsInfix(a: string, p: string, b: string)
    ensures Contains(a + p + b, p)
  {
    if a == [] {
      assert a + p + b == p + b;
      assert (p + b)[..|p|] == p;
    } else {
      assert (a + p + b)[1..] == a[1..] + p + b;
      ContainsInfix(a[1..], p, b);
    }
  }

  /** A string whose characters never equal the first character of `p` does not contain `p`. */
  lemma {:induction false} NotContainsWithoutHead(s: string, p: string)
    requires |p| > 0
    requires forall i :: 0 <= i < |s| ==> s[i] != p[0]
    ensures !Contains(s, p)
  {
    if s != [] {
      assert |p| <= |s| ==> s[..|p|][0] == s[0];
      NotContainsWithoutHead(s[1..], p);
    }
  }

  /*
   * `s.split(sep)` for a non-empty separator: the occurrences of `sep` are
   * found left to right without overlapping, and the text between them is
   * returned. There is always at least one part.
   */
  function Split(s: string, sep: string): (parts: seq<string>)
    requires |sep| > 0
    ensures |parts| >= 1
    decreases |s|
  {
    if StartsWith(s, sep) then [""] + Split(s[|sep|..], sep)
    else if s == [] then [""]
    else
      var t := Split(s[1..], sep);
      [[s[0]] + t[0]] + t[1..]
  }

  /** `sep.join(parts)` */
  function Join(sep: string, parts: seq<string>): string
    decreases |parts|
  {
    if |parts| == 0 then ""
    else if |parts| == 1 then parts[0]
    else parts[0] + sep + Join(sep, parts[1..])
  }

  /** `s.replace(pat, rep)` for a non-empty pattern. */
  function ReplaceAll(s: string, pat: string, rep: string): string
    requires |pat| > 0
    decreases |s|
  {
    if StartsWith(s, pat) then rep + ReplaceAll(s[|pat|..], pat, rep)
    else if s == [] then ""
    else [s[0]] + ReplaceAll(s[1..], pat, rep)
  }

  lemma JoinConsFirst(sep: string, c: char, t: seq<string>)
    requires |t| >= 1
    ensures Join(sep, [[c] + t[0]] + t[1..]) == [c] + Join(sep, t)
  {
    var parts := [[c] + t[0]] + t[1..];
    assert parts[1..] == t[1..];
  }

  lemma JoinConsEmpty(sep: string, t: seq<string>)
    requires |t| >= 1
    ensures Join(sep, [""] + t) == sep + Join(sep, t)
  {
    assert ([""] + t)[1..] == t;
  }

  /** Joining the parts of a split with the separator gives back the string. */
  lemma {:induction false} JoinSplit(s: string, sep: string)
    requires |sep| > 0
    ensures Join(sep, Split(s, sep)) == s
    decreases |s|
  {
    if StartsWith(s, sep) {
      var rest := s[|sep|..];
      JoinSplit(rest, sep);
      JoinConsEmpty(sep, Split(rest, sep));
      assert s == sep + rest;
    } else if s != [] {
      JoinSplit(s[1..], sep);
      JoinConsFirst(sep, s[0], Split(s[1..], sep));
      assert s == [s[0]] + s[1..];
    }
  }

  /** No part of a split contains the separator. */
  lemma {:induction false} SplitPartsFree(s: string, sep: string)
    requires |sep| > 0
    ensures forall i :: 0 <= i < |Split(s, sep)| ==> !Contains(Split(s, sep)[i], sep)
    decreases |s|
  {
    if StartsWith(s, sep) {
      SplitPartsFree(s[|sep|..], sep);
      var t := Split(s[|sep|..], sep);
      assert !Contains("", sep);
      assert forall i :: 1 <= i < |[""] + t| ==> ([""] + t)[i] == t[i - 1];
    } else if s == [] {
      assert !Contains("", sep);
    } else {
      SplitPartsFree(s[1..], sep);
      var t := Split(s[1..], sep);
      var first := [s[0]] + t[0];
      SplitFirstIsPrefix(s[1..], sep);
      assert first[1..] == t[0];
      assert !StartsWith(first, sep);
      assert !Contains(first, sep);
      var parts := [first] + t[1..];
      assert forall i :: 1 <= i < |parts| ==> parts[i] == t[i];
    }
  }

  /** The first part of a split is a prefix of the string. */
  lemma {:induction false} SplitFirstIsPrefix(s: string, sep: string)
    requires |sep| > 0
    ensures |Split(s, sep)[0]| <= |s| && Split(s, sep)[0] == s[..|Split(s, sep)[0]|]
    decreases |s|
  {
    if StartsWith(s, sep) {
    } else if s == [] {
    } else {
      SplitFirstIsPrefix(s[1..], sep);
    }
  }

  /** Python's identity `s.replace(pat, rep) == rep.join(s.split(pat))`. */
  lemma {:induction false} ReplaceIsJoinOfSplit(s: string, pat: string, rep: string)
    requires |pat| > 0
    ensures ReplaceAll(s, pat, rep) == Join(rep, Split(s, pat))
    decreases |s|
  {
    if StartsWith(s, pat) {
      var rest := s[|pat|..];
      ReplaceIsJoinOfSplit(rest, pat, rep);
      var t := Split(rest, pat);
      assert ([""] + t)[1..] == t;
    } else if s == [] {
    } else {
      ReplaceIsJoinOfSplit(s[1..], pat, rep);
      JoinConsFirst(rep, s[0], Split(s[1..], pat));
    }
  }

  /**
   * Every occurrence of `pat` is replaced by `rep` and nothing else changes:
   * the string splits into pattern-free pieces joined by `pat`, and the
   * result joins the same pieces with `rep`.
   */
  lemma ReplaceAllPieces(s: string, pat: string, rep: string)
    requires |pat| > 0
    ensures s == Join(pat, Split(s, pat))
    ensures ReplaceAll(s, pat, rep) == Join(rep, Split(s, pat))
    ensures forall i :: 0 <= i < |Split(s, pat)| ==> !Contains(Split(s, pat)[i], pat)
  {
    JoinSplit(s, pat);
    ReplaceIsJoinOfSplit(s, pat, rep);
    SplitPartsFree(s, pat);
  }

  /** A string without the pattern is left as it is. */
  lemma {:induction false} ReplaceAbsent(s: string, pat: string, rep: string)
    requires |pat| > 0
    requires !Contains(s, pat)
    ensures ReplaceAll(s, pat, rep) == s
    decreases |s|
  {
    if s != [] {
      ReplaceAbsent(s[1..], pat, rep);
    }
  }

  /** Replacing by something no longer than the pattern never lengthens the string. */
  lemma {:induction false} ReplaceNoLonger(s: string, pat: string, rep: string)
    requires |pat| > 0 && |rep| <= |pat|
    ensures |ReplaceAll(s, pat, rep)| <= |s|
    decreases |s|
  {
    if StartsWith(s, pat) {
      ReplaceNoLonger(s[|pat|..], pat, rep);
    } else if s != [] {
      ReplaceNoLonger(s[1..], pat, rep);
    }
  }

  /** A character in neither the string nor the replacement is not in the result. */
  lemma {:induction false} ReplaceKeepsOut(s: string, pat: string, rep: string, c: char)
    requires |pat| > 0
    requires c !in s && c !in rep
    ensures c !in ReplaceAll(s, pat, rep)
    decreases |s|
  {
    if StartsWith(s, pat) {
      ReplaceKeepsOut(s[|pat|..], pat, rep, c);
    } else if s != [] {
      ReplaceKeepsOut(s[1..], pat, rep, c);
    }
  }

  /** Replacing a single character by text without it removes the character. */
  lemma {:induction false} ReplaceRemovesChar(s: string, c: char, rep: string)
    requires c !in rep
    ensures c !in ReplaceAll(s, [c], rep)
    decreases |s|
  {
    if StartsWith(s, [c]) {
      ReplaceRemovesChar(s[1..], c, rep);
    } else if s != [] {
      ReplaceRemovesChar(s[1..], c, rep);
    }
  }

  /** Replacing inside `a + b` where no character of `a` starts the pattern leaves `a` alone. */
  lemma {:induction false} ReplaceSkipsPrefix(a: string, b: string, pat: string, rep: string)
    requires |pat| > 0
    requires forall i :: 0 <= i < |a| ==> a[i] != pat[0]
    ensures ReplaceAll(a + b, pat, rep) == a + ReplaceAll(b, pat, rep)
    decreases |a|
  {
    if a != [] {
      assert (a + b)[0] == a[0];
      assert (a + b)[1..] == a[1..] + b;
      ReplaceSkipsPrefix(a[1..], b, pat, rep);
    } else {
      assert a + b == b;
    }
  }

  /** The characters that `EraseBlanks` deletes. */
  predicate IsBlank(c: char) {
    c == ' ' || c == '\n' || c == '\r' || c == '\t'
  }

  /** The string with every space, newline, carriage return and tab deleted. */
  function EraseBlanks(s: string): string
    decreases |s|
  {
    if s == [] then ""
    else if IsBlank(s[0]) then EraseBlanks(s[1..])
    else [s[0]] + EraseBlanks(s[1..])
  }

  lemma {:induction false} EraseBlanksAppend(a: string, b: string)
    ensures EraseBlanks(a + b) == EraseBlanks(a) + EraseBlanks(b)
    decreases |a|
  {
    if a == [] {
      assert a + b == b;
    } else {
      assert (a + b)[1..] == a[1..] + b;
      EraseBlanksAppend(a[1..], b);
    }
  }

  /** Replacing blank text by blank text keeps the non-blank characters in order. */
  lemma {:induction false} ReplaceKeepsNonBlank(s: string, pat: string, rep: string)
    requires |pat| > 0
    requires EraseBlanks(pat) == EraseBlanks(rep)
    ensures EraseBlanks(ReplaceAll(s, pat, rep)) == EraseBlanks(s)
    decreases |s|
  {
    if StartsWith(s, pat) {
      var rest := s[|pat|..];
      ReplaceKeepsNonBlank(rest, pat, rep);
      assert s == pat + rest;
      EraseBlanksAppend(pat, rest);
      EraseBlanksAppend(rep, ReplaceAll(rest, pat, rep));
    } else if s != [] {
      ReplaceKeepsNonBlank(s[1..], pat, rep);
      EraseBlanksAppend([s[0]], ReplaceAll(s[1..], pat, rep));
      EraseBlanksAppend([s[0]], s[1..]);
      assert s == [s[0]] + s[1..];
    }
  }

  /** Python's `str.isspace` on one character. */
  predicate IsSpace(c: char) {
    var n := c as int;
    n == 0x20 || (0x09 <= n <= 0x0D) || (0x1C <= n <= 0x1F) || n == 0x85 || n == 0xA0
    || n == 0x1680 || (0x2000 <= n <= 0x200A) || n == 0x2028 || n == 0x2029
    || n == 0x202F || n == 0x205F || n == 0x3000
  }

  /** Length of the run of whitespace at the start of `s`. */
  function LeadingSpaces(s: string): (n: nat)
    ensures n <= |s|
    ensures forall i :: 0 <= i < n ==> IsSpace(s[i])
    ensures n < |s| ==> !IsSpace(s[n])
    decreases |s|
  {
    if s == [] || !IsSpace(s[0]) then 0 else 1 + LeadingSpaces(s[1..])
  }

  /** Length of the run of whitespace at the end of `s`. */
  function TrailingSpaces(s: string): (n: nat)
    ensures n <= |s|
    ensures forall i :: |s| - n <= i < |s| ==> IsSpace(s[i])
    ensures n < |s| ==> !IsSpace(s[|s| - 1 - n])
    decreases |s|
  {
    if s == [] || !IsSpace(s[|s| - 1]) then 0 else 1 + TrailingSpaces(s[..|s| - 1])
  }

  /**
   * `s.strip()`: the slice of `s` left after removing the leading and the
   * trailing run of whitespace; it neither starts nor ends with whitespace.
   */
  function Strip(s: string): (r: string)
    ensures LeadingSpaces(s) + |r| <= |s|
    ensures r != [] ==> !IsSpace(r[0]) && !IsSpace(r[|r| - 1])
    ensures r == s[LeadingSpaces(s)..LeadingSpaces(s) + |r|]
    ensures forall i :: LeadingSpaces(s) + |r| <= i < |s| ==> IsSpace(s[i])
  {
    var t := s[LeadingSpaces(s)..];
    t[..|t| - TrailingSpaces(t)]
  }

  /** A string that neither starts nor ends with whitespace is its own strip. */
  lemma StripTrimmed(s: string)
    requires s != [] ==> !IsSpace(s[0]) && !IsSpace(s[|s| - 1])
    ensures Strip(s) == s
  {
  }

  /** `c.upper()` for ASCII letters; every other character is kept. */
  function UpperChar(c: char): char {
    if 'a' <= c <= 'z' then (c as int - 32) as char else c
  }

  /** `s.upper()`, restricted to ASCII case mapping. */
  function Upper(s: string): (r: string)
    ensures |r| == |s|
    ensures forall i :: 0 <= i < |s| ==> r[i] == UpperChar(s[i])
  {
    seq(|s|, i requires 0 <= i < |s| => UpperChar(s[i]))
  }

  lemma UpperAppend(a: string, b: string)
    ensures Upper(a + b) == Upper(a) + Upper(b)
  {
    assert forall i :: 0 <= i < |a + b| ==> Upper(a + b)[i] == (Upper(a) + Upper(b))[i];
  }

  function DigitChar(d: nat): (c: char)
    requires d < 10
    ensures '0' <= c <= '9' && c as int - '0' as int == d
  {
    (48 + d) as char
  }

  predicate IsDigits(s: string) {
    forall i :: 0 <= i < |s| ==> '0' <= s[i] <= '9'
  }

  /** Value of a string of decimal digits. */
  function DecimalValue(s: string): nat
    requires IsDigits(s)
    decreases |s|
  {
    if s == [] then 0 else DecimalValue(s[..|s| - 1]) * 10 + (s[|s| - 1] as int - '0' as int)
  }

  /** `str(n)`: decimal digits, without a leading zero unless `n` is 0. */
  function NatToString(n: nat): (s: string)
    ensures |s| >= 1 && IsDigits(s)
    ensures s[0] == '0' ==> n == 0
    decreases n
  {
    if n < 10 then [DigitChar(n)] else NatToString(n / 10) + [DigitChar(n % 10)]
  }

  /** Reading back the decimal text of `n` gives `n`. */
  lemma {:induction false} NatToStringRoundTrip(n: nat)
    ensures DecimalValue(NatToString(n)) == n
    decreases n
  {
    if n >= 10 {
      NatToStringRoundTrip(n / 10);
      var s := NatToString(n);
      assert s[..|s| - 1] == NatToString(n / 10);
    }
  }
}
