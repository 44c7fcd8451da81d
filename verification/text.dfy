/** Character classes and string operations with the meaning Python's `str`
    methods and `re` character classes give them (backend/parser.py uses
    `lower`, `strip`, `splitlines`, `in`, `\s` and `\d`). Lower-casing and
    `\d` are ASCII-only here; whitespace and line boundaries are the full
    Python sets. */
module Text {

  /** `str.isspace()`; for `str` patterns this is also exactly what `\s`
      matches. */
  predicate IsSpace(c: char)
  {
    || ('\t' <= c <= '\r')
    || ('\U{1C}' <= c <= '\U{1F}')
    || c == ' '
    || c == '\U{85}' || c == '\U{A0}' || c == '\U{1680}'
    || ('\U{2000}' <= c <= '\U{200A}')
    || c == '\U{2028}' || c == '\U{2029}' || c == '\U{202F}'
    || c == '\U{205F}' || c == '\U{3000}'
  }

  /** The characters at which `str.splitlines()` breaks a line. */
  predicate IsLineBoundary(c: char)
  {
    || ('\n' <= c <= '\r')
    || ('\U{1C}' <= c <= '\U{1E}')
    || c == '\U{85}' || c == '\U{2028}' || c == '\U{2029}'
  }

  predicate IsDigit(c: char) { '0' <= c <= '9' }

  predicate IsUpper(c: char) { 'A' <= c <= 'Z' }

  /** `[A-Za-z]` */
  predicate IsAsciiLetter(c: char) { IsUpper(c) || 'a' <= c <= 'z' }

  function Lower(c: char): char
  {
    if IsUpper(c) then (c as int + 32) as char else c
  }

  /** `str.lower()`, restricted to ASCII letters. */
  function LowerStr(s: string): (r: string)
    ensures |r| == |s|
    ensures forall i :: 0 <= i < |s| ==> r[i] == Lower(s[i])
  {
    seq(|s|, i requires 0 <= i < |s| => Lower(s[i]))
  }

  /** Lower-casing twice is lower-casing once, so a case-insensitive test
      gives the same answer on lowered text. */
  lemma LowerStrIdempotent(s: string)
    ensures LowerStr(LowerStr(s)) == LowerStr(s)
  {
  }

  lemma LowerStrAppend(a: string, b: string)
    ensures LowerStr(a + b) == LowerStr(a) + LowerStr(b)
  {
  }

  predicate StartsWith(s: string, prefix: string)
  {
    |prefix| <= |s| && s[..|prefix|] == prefix
  }

  /** Python's `needle in hay` on strings; the empty needle is in every
      string. */
  predicate Contains(hay: string, needle: string)
    decreases |hay|
  {
    StartsWith(hay, needle) || (|hay| > 0 && Contains(hay[1..], needle))
  }

  /** The declarative reading of `needle in hay`: an occurrence at `i`. */
  ghost predicate OccursAt(hay: string, needle: string, i: int)
  {
    0 <= i && i + |needle| <= |hay| && hay[i..i + |needle|] == needle
  }

  /** An occurrence at any position is found by the scan. */
  lemma {:induction false} OccursContains(hay: string, needle: string, i: int)
    requires OccursAt(hay, needle, i)
    ensures Contains(hay, needle)
    decreases i
  {
    if i == 0 {
      assert hay[..|needle|] == hay[i..i + |needle|];
    } else {
      assert hay[1..][i - 1..i - 1 + |needle|] == hay[i..i + |needle|];
      OccursContains(hay[1..], needle, i - 1);
    }
  }

  /** Whatever the scan finds is an occurrence. */
  lemma {:induction false} ContainsOccurs(hay: string, needle: string)
    requires Contains(hay, needle)
    ensures exists i :: OccursAt(hay, needle, i)
    decreases |hay|
  {
    if StartsWith(hay, needle) {
      assert OccursAt(hay, needle, 0);
    } else {
      ContainsOccurs(hay[1..], needle);
      var j :| OccursAt(hay[1..], needle, j);
      assert hay[1..][j..j + |needle|] == hay[j + 1..j + 1 + |needle|];
      assert OccursAt(hay, needle, j + 1);
    }
  }

  /** The scanning `Contains` finds an occurrence exactly when one exists. */
  lemma ContainsIffOccurs(hay: string, needle: string)
    ensures Contains(hay, needle) <==> exists i :: OccursAt(hay, needle, i)
  {
    if Contains(hay, needle) {
      ContainsOccurs(hay, needle);
    }
    forall i | OccursAt(hay, needle, i)
      ensures Contains(hay, needle)
    {
      OccursContains(hay, needle, i);
    }
  }

  /** The end of the longest run of characters satisfying `p` that starts at
      `i`: what a greedy `p+` or `p*` consumes. */
  function RunEnd(s: string, i: nat, p: char -> bool): (j: nat)
    requires i <= |s|
    ensures i <= j <= |s|
    ensures forall k :: i <= k < j ==> p(s[k])
    ensures j < |s| ==> !p(s[j])
    decreases |s| - i
  {
    if i < |s| && p(s[i]) then RunEnd(s, i + 1, p) else i
  }

  /** A run that ends where `p` first fails is the greedy run. */
  lemma RunEndAt(s: string, i: nat, j: nat, p: char -> bool)
    requires i <= j < |s|
    requires forall k :: i <= k < j ==> p(s[k])
    requires !p(s[j])
    ensures RunEnd(s, i, p) == j
  {
  }

  predicate AllSpace(s: string, i: int, j: int)
  {
    0 <= i <= j <= |s| && forall k :: i <= k < j ==> IsSpace(s[k])
  }

  /** No leading and no trailing whitespace. */
  predicate IsStripped(s: string)
  {
    |s| == 0 || (!IsSpace(s[0]) && !IsSpace(s[|s| - 1]))
  }

  /** The whitespace run that ends at `j` and starts no earlier than `i`,
      taken off from the right: its start. */
  function TrimEndAt(s: string, i: nat, j: nat): (k: nat)
    requires i <= j <= |s|
    ensures i <= k <= j
    ensures AllSpace(s, k, j)
    ensures k > i ==> !IsSpace(s[k - 1])
    decreases j
  {
    if j > i && IsSpace(s[j - 1]) then TrimEndAt(s, i, j - 1) else j
  }

  /** `str.strip()` with no argument: the slice of `s` left after removing
      the whitespace at both ends. */
  function Strip(s: string): (r: string)
    ensures IsStripped(r)
    ensures exists i, j :: AllSpace(s, 0, i) && i <= j && AllSpace(s, j, |s|) && r == s[i..j]
  {
    var i := RunEnd(s, 0, IsSpace);
    var j := TrimEndAt(s, i, |s|);
    assert AllSpace(s, 0, i) && AllSpace(s, j, |s|);
    s[i..j]
  }

  /** Stripping is the identity exactly on stripped strings. */
  lemma StripFixedIff(s: string)
    ensures Strip(s) == s <==> IsStripped(s)
  {
    if IsStripped(s) && |s| > 0 {
      assert RunEnd(s, 0, IsSpace) == 0;
      assert TrimEndAt(s, 0, |s|) == |s|;
      assert s[0..|s|] == s;
    }
  }

  predicate NotLineBoundary(c: char)
  {
    !IsLineBoundary(c)
  }

  /** `str.splitlines()`: the lines of `s` without their line breaks; "\r\n"
      is a single break, and a break at the very end opens no empty line. */
  function SplitLines(s: string): (lines: seq<string>)
    ensures |lines| <= |s|
    ensures forall l :: l in lines ==> forall k :: 0 <= k < |l| ==> !IsLineBoundary(l[k])
    decreases |s|
  {
    if |s| == 0 then []
    else
      var i := RunEnd(s, 0, NotLineBoundary);
      if i == |s| then [s]
      else
        var next := if s[i] == '\r' && i + 1 < |s| && s[i + 1] == '\n' then i + 2 else i + 1;
        [s[..i]] + SplitLines(s[next..])
  }

  /** The text made of the given lines, each followed by "\n". */
  function Terminated(lines: seq<string>): string
  {
    if |lines| == 0 then "" else lines[0] + "\n" + Terminated(lines[1..])
  }

  /** A line with no line break at all is the only line. */
  lemma SplitLinesSingle(l: string)
    requires |l| > 0
    requires forall k :: 0 <= k < |l| ==> !IsLineBoundary(l[k])
    ensures SplitLines(l) == [l]
  {
    var i := RunEnd(l, 0, NotLineBoundary);
    assert i < |l| ==> NotLineBoundary(l[i]);
  }

  /** A line without line breaks followed by any break other than "\r":
      splitting takes off that line and goes on after the break. */
  lemma SplitLinesCons(l: string, b: char, rest: string)
    requires forall k :: 0 <= k < |l| ==> !IsLineBoundary(l[k])
    requires IsLineBoundary(b) && b != '\r'
    ensures SplitLines(l + [b] + rest) == [l] + SplitLines(rest)
  {
    var s := l + [b] + rest;
    assert s[|l|] == b;
    assert forall k :: 0 <= k < |l| ==> s[k] == l[k];
    RunEndAt(s, 0, |l|, NotLineBoundary);
    assert s[..|l|] == l;
    assert s[|l| + 1..] == rest;
  }

  /** "\r" followed by "\n" is one break. */
  lemma SplitLinesCrLf(l: string, rest: string)
    requires forall k :: 0 <= k < |l| ==> !IsLineBoundary(l[k])
    ensures SplitLines(l + "\r\n" + rest) == [l] + SplitLines(rest)
  {
    var s := l + "\r\n" + rest;
    assert s[|l|] == '\r' && s[|l| + 1] == '\n';
    assert forall k :: 0 <= k < |l| ==> s[k] == l[k];
    RunEndAt(s, 0, |l|, NotLineBoundary);
    assert s[..|l|] == l;
    assert s[|l| + 2..] == rest;
  }

  /** "\r" not followed by "\n" is a break of its own. */
  lemma SplitLinesCr(l: string, rest: string)
    requires forall k :: 0 <= k < |l| ==> !IsLineBoundary(l[k])
    requires |rest| == 0 || rest[0] != '\n'
    ensures SplitLines(l + "\r" + rest) == [l] + SplitLines(rest)
  {
    var s := l + "\r" + rest;
    assert s[|l|] == '\r';
    assert |l| + 1 < |s| ==> s[|l| + 1] == rest[0];
    assert forall k :: 0 <= k < |l| ==> s[k] == l[k];
    RunEndAt(s, 0, |l|, NotLineBoundary);
    assert s[..|l|] == l;
    assert s[|l| + 1..] == rest;
  }

  /** Splitting undoes joining: lines without line breaks, each ended by a
      newline, split back into exactly those lines. */
  lemma {:induction false} SplitTerminated(lines: seq<string>)
    requires forall l :: l in lines ==> forall k :: 0 <= k < |l| ==> !IsLineBoundary(l[k])
    ensures SplitLines(Terminated(lines)) == lines
    decreases |lines|
  {
    if |lines| > 0 {
      assert lines[0] in lines;
      SplitLinesCons(lines[0], '\n', Terminated(lines[1..]));
      assert lines[0] + "\n" + Terminated(lines[1..]) == lines[0] + ['\n'] + Terminated(lines[1..]);
      assert forall l :: l in lines[1..] ==> l in lines;
      SplitTerminated(lines[1..]);
      assert lines == [lines[0]] + lines[1..];
    }
  }
}
