/** The parts of Python's `str` behaviour the bot relies on:
    `str.replace` (non-overlapping, left to right), `str.split` as its
    reference, `str.strip()` with Python's own whitespace set, and the
    first line that a text-mode `readline()` returns. */
module PyStr {

  // ---------------------------------------------------------------------
  // Occurrences of a pattern

  /** `pat` occurs in `s` starting at index `i`. */
  predicate OccursAt(s: string, pat: string, i: int) {
    0 <= i && i + |pat| <= |s| && s[i..i + |pat|] == pat
  }

  /** Python's `pat in s`. */
  predicate Contains(s: string, pat: string) {
    exists i | 0 <= i <= |s| :: OccursAt(s, pat, i)
  }

  /** A pattern whose first character never appears in `s` does not occur in `s`. */
  lemma AbsentFirstCharNotContained(s: string, pat: string)
    requires |pat| > 0 && pat[0] !in s
    ensures !Contains(s, pat)
  {
    forall i | 0 <= i <= |s|
      ensures !OccursAt(s, pat, i)
    {
      if i + |pat| <= |s| {
        assert s[i..i + |pat|][0] == s[i];
      }
    }
  }

  // ---------------------------------------------------------------------
  // str.replace, str.split, str.join

  /** `s.replace(pat, rep)` for a non-empty `pat`: scan left to right and
      replace each occurrence that does not overlap an earlier one. */
  function Replace(s: string, pat: string, rep: string): string
    requires |pat| > 0
    decreases |s|
  {
    if |s| < |pat| then s
    else if s[..|pat|] == pat then rep + Replace(s[|pat|..], pat, rep)
    else [s[0]] + Replace(s[1..], pat, rep)
  }

  /** `s.split(pat)` for a non-empty `pat`: the pieces between the same
      occurrences `Replace` rewrites. */
  function Split(s: string, pat: string): (parts: seq<string>)
    requires |pat| > 0
    ensures |parts| >= 1
    ensures parts[0] <= s
    decreases |s|
  {
    if |s| < |pat| then [s]
    else if s[..|pat|] == pat then [[]] + Split(s[|pat|..], pat)
    else
      var rest := Split(s[1..], pat);
      [[s[0]] + rest[0]] + rest[1..]
  }

  /** `sep.join(parts)` for a non-empty list. */
  function Join(parts: seq<string>, sep: string): string
    requires |parts| >= 1
  {
    if |parts| == 1 then parts[0] else parts[0] + sep + Join(parts[1..], sep)
  }

  /** Putting the first character of `s` in front of a pattern-free prefix of
      `s[1..]` cannot create an occurrence when `s` does not start with it. */
  lemma ConsAvoidsPattern(s: string, pat: string, p: string)
    requires |pat| > 0 && |s| >= |pat| && s[..|pat|] != pat
    requires p <= s[1..] && !Contains(p, pat)
    ensures !Contains([s[0]] + p, pat)
  {
    var head := [s[0]] + p;
    assert head <= s;
    forall i | 0 <= i <= |head|
      ensures !OccursAt(head, pat, i)
    {
      if i == 0 {
        if |pat| <= |head| {
          assert head[..|pat|] == s[..|pat|];
        }
      } else if i + |pat| <= |head| {
        assert head[i..i + |pat|] == p[i - 1..i - 1 + |pat|];
        assert !OccursAt(p, pat, i - 1);
      }
    }
  }

  /** No piece of `s.split(pat)` contains `pat`: the split cuts at every occurrence. */
  lemma {:induction false} SplitPartsAvoidPattern(s: string, pat: string)
    requires |pat| > 0
    ensures forall k :: 0 <= k < |Split(s, pat)| ==> !Contains(Split(s, pat)[k], pat)
    decreases |s|
  {
    if |s| < |pat| {
    } else if s[..|pat|] == pat {
      SplitPartsAvoidPattern(s[|pat|..], pat);
      var rest := Split(s[|pat|..], pat);
      var parts := [[]] + rest;
      assert Split(s, pat) == parts;
      forall k | 0 <= k < |parts|
        ensures !Contains(parts[k], pat)
      {
        if k > 0 {
          assert parts[k] == rest[k - 1];
        }
      }
    } else {
      SplitPartsAvoidPattern(s[1..], pat);
      var rest := Split(s[1..], pat);
      var parts := [[s[0]] + rest[0]] + rest[1..];
      assert Split(s, pat) == parts;
      ConsAvoidsPattern(s, pat, rest[0]);
      forall k | 0 <= k < |parts|
        ensures !Contains(parts[k], pat)
      {
        if k > 0 {
          assert parts[k] == rest[k];
        }
      }
    }
  }

  /** An occurrence after the first character of `s` is an occurrence in `s[1..]`. */
  lemma OccursAfterHead(s: string, pat: string, i: int)
    requires 0 < i <= |s|
    ensures OccursAt(s, pat, i) <==> OccursAt(s[1..], pat, i - 1)
  {
    if i + |pat| <= |s| {
      assert s[i..i + |pat|] == s[1..][i - 1..i - 1 + |pat|];
    }
  }

  /** `Split` cuts at the first occurrence of `pat` and then splits what
      follows it: no occurrence starts inside the first piece, and when
      there is more than one piece an occurrence starts right after it and
      the other pieces are the split of the rest of `s`. */
  ghost predicate CutsAtFirst(s: string, pat: string)
    requires |pat| > 0
  {
    var parts := Split(s, pat);
    && (forall i :: 0 <= i < |parts[0]| ==> !OccursAt(s, pat, i))
    && (|parts| == 1 ==> parts[0] == s)
    && (|parts| > 1 ==>
          && OccursAt(s, pat, |parts[0]|)
          && parts[1..] == Split(s[|parts[0]| + |pat|..], pat))
  }

  /** Every split cuts at the first occurrence: the leftmost match is the
      one `split` and `replace` act on, also for a self-overlapping pattern. */
  lemma {:induction false} SplitCutsAtFirst(s: string, pat: string)
    requires |pat| > 0
    ensures CutsAtFirst(s, pat)
    decreases |s|
  {
    if |s| < |pat| {
    } else if s[..|pat|] == pat {
      CutsAtStart(s, pat);
    } else {
      SplitCutsAtFirst(s[1..], pat);
      CutsAfterHead(s, pat);
    }
  }

  /** A string that starts with `pat` is cut right at the start. */
  lemma CutsAtStart(s: string, pat: string)
    requires |pat| > 0 && |s| >= |pat| && s[..|pat|] == pat
    ensures CutsAtFirst(s, pat)
  {
    var parts := [[]] + Split(s[|pat|..], pat);
    assert Split(s, pat) == parts;
    assert parts[1..] == Split(s[|pat|..], pat);
    assert OccursAt(s, pat, 0);
  }

  /** A string that does not start with `pat` is cut where its tail is. */
  lemma CutsAfterHead(s: string, pat: string)
    requires |pat| > 0 && |s| >= |pat| && s[..|pat|] != pat
    requires CutsAtFirst(s[1..], pat)
    ensures CutsAtFirst(s, pat)
  {
    var t := s[1..];
    var rest := Split(t, pat);
    var first := [s[0]] + rest[0];
    var parts := [first] + rest[1..];
    assert Split(s, pat) == parts;
    forall i | 0 <= i < |first|
      ensures !OccursAt(s, pat, i)
    {
      if 0 < i {
        OccursAfterHead(s, pat, i);
      }
    }
    if |rest| == 1 {
      assert s == [s[0]] + t;
    } else {
      var k := |rest[0]|;
      OccursAfterHead(s, pat, k + 1);
      assert OccursAt(s, pat, |first|);
      assert s[|first| + |pat|..] == t[k + |pat|..];
      assert parts[1..] == rest[1..] == Split(s[|first| + |pat|..], pat);
    }
  }

  /** Joining the pieces of a split with the pattern gives back the string. */
  lemma SplitJoinRoundTrip(s: string, pat: string)
    requires |pat| > 0
    ensures Join(Split(s, pat), pat) == s
  {
    ReplaceIsJoinOfSplit(s, pat, pat);
    ReplaceWithSelf(s, pat);
  }

  /** `s.replace(pat, rep)` is `rep.join(s.split(pat))`: every occurrence found
      by the left-to-right scan, and nothing else, becomes `rep`. */
  lemma {:induction false} ReplaceIsJoinOfSplit(s: string, pat: string, rep: string)
    requires |pat| > 0
    ensures Replace(s, pat, rep) == Join(Split(s, pat), rep)
    decreases |s|
  {
    if |s| < |pat| {
    } else if s[..|pat|] == pat {
      ReplaceIsJoinOfSplit(s[|pat|..], pat, rep);
      var rest := Split(s[|pat|..], pat);
      assert Split(s, pat) == [[]] + rest;
      assert ([[]] + rest)[1..] == rest;
    } else {
      ReplaceIsJoinOfSplit(s[1..], pat, rep);
      var rest := Split(s[1..], pat);
      var parts := [[s[0]] + rest[0]] + rest[1..];
      assert Split(s, pat) == parts;
      if |rest| > 1 {
        assert parts[1..] == rest[1..];
        calc {
          Join(parts, rep);
          ([s[0]] + rest[0]) + rep + Join(rest[1..], rep);
          [s[0]] + (rest[0] + rep + Join(rest[1..], rep));
          [s[0]] + Join(rest, rep);
        }
      }
    }
  }

  /** Replacing a pattern by itself changes nothing. */
  lemma {:induction false} ReplaceWithSelf(s: string, pat: string)
    requires |pat| > 0
    ensures Replace(s, pat, pat) == s
    decreases |s|
  {
    if |s| < |pat| {
    } else if s[..|pat|] == pat {
      ReplaceWithSelf(s[|pat|..], pat);
      assert s == s[..|pat|] + s[|pat|..];
    } else {
      ReplaceWithSelf(s[1..], pat);
      assert s == [s[0]] + s[1..];
    }
  }

  /** A string in which the pattern does not occur is returned verbatim. */
  lemma {:induction false} ReplaceWithoutPattern(s: string, pat: string, rep: string)
    requires |pat| > 0 && !Contains(s, pat)
    ensures Replace(s, pat, rep) == s
    decreases |s|
  {
    if |s| < |pat| {
    } else if s[..|pat|] == pat {
      assert OccursAt(s, pat, 0);
    } else {
      forall i | 0 <= i <= |s[1..]|
        ensures !OccursAt(s[1..], pat, i)
      {
        if i + |pat| <= |s[1..]| {
          assert s[1..][i..i + |pat|] == s[i + 1..i + 1 + |pat|];
          assert !OccursAt(s, pat, i + 1);
        }
      }
      ReplaceWithoutPattern(s[1..], pat, rep);
      assert s == [s[0]] + s[1..];
    }
  }

  // ---------------------------------------------------------------------
  // readline() and strip()

  /** The characters `str.isspace()` accepts, which `str.strip()` removes. */
  predicate IsSpace(c: char) {
    var n := c as int;
    (9 <= n <= 13) || (28 <= n <= 32) || n == 0x85 || n == 0xA0 || n == 0x1680
    || (0x2000 <= n <= 0x200A) || n == 0x2028 || n == 0x2029 || n == 0x202F
    || n == 0x205F || n == 0x3000
  }

  /** The characters that end a line for a file opened in text mode
      (universal newlines turn "\r" and "\r\n" into "\n"). */
  predicate IsLineBreak(c: char) {
    c == '\n' || c == '\r'
  }

  /** Index of the first line break, or `|s|` when there is none. */
  function LineEnd(s: string): (n: nat)
    ensures n <= |s|
    ensures forall k :: 0 <= k < n ==> !IsLineBreak(s[k])
    ensures n < |s| ==> IsLineBreak(s[n])
  {
    if s == [] || IsLineBreak(s[0]) then 0 else 1 + LineEnd(s[1..])
  }

  /** The first line of a file's contents, without its terminator (the
      terminator `readline()` keeps is whitespace, which `strip()` removes). */
  function FirstLine(s: string): (line: string)
    ensures line <= s
    ensures forall k :: 0 <= k < |line| ==> !IsLineBreak(line[k])
    ensures |line| < |s| ==> IsLineBreak(s[|line|])
  {
    s[..LineEnd(s)]
  }

  /** Number of whitespace characters at the start of `s`. */
  function LeadingSpaces(s: string): (n: nat)
    ensures n <= |s|
    ensures forall k :: 0 <= k < n ==> IsSpace(s[k])
    ensures n < |s| ==> !IsSpace(s[n])
  {
    if s == [] || !IsSpace(s[0]) then 0 else 1 + LeadingSpaces(s[1..])
  }

  /** Number of whitespace characters at the end of `s`. */
  function TrailingSpaces(s: string): (n: nat)
    ensures n <= |s|
    ensures forall k :: |s| - n <= k < |s| ==> IsSpace(s[k])
    ensures n < |s| ==> !IsSpace(s[|s| - 1 - n])
  {
    if s == [] || !IsSpace(s[|s| - 1]) then 0 else 1 + TrailingSpaces(s[..|s| - 1])
  }

  /** `s.strip()`: `s` without the whitespace at both ends. */
  function Strip(s: string): string {
    var i := LeadingSpaces(s);
    if i == |s| then []
    else
      var j := |s| - TrailingSpaces(s);
      assert i < j;
      s[i..j]
  }

  /** `strip()` gives a slice of `s`; everything before and after the slice
      is whitespace, and the slice neither starts nor ends with whitespace. */
  lemma StripSlice(s: string)
    ensures LeadingSpaces(s) + |Strip(s)| <= |s|
    ensures Strip(s) == s[LeadingSpaces(s)..LeadingSpaces(s) + |Strip(s)|]
    ensures forall k :: LeadingSpaces(s) + |Strip(s)| <= k < |s| ==> IsSpace(s[k])
    ensures Strip(s) == [] || (!IsSpace(Strip(s)[0]) && !IsSpace(Strip(s)[|Strip(s)| - 1]))
  {
    var i := LeadingSpaces(s);
    var t := Strip(s);
    if i == |s| {
      assert t == [] && i + |t| == |s|;
    } else {
      var j := |s| - TrailingSpaces(s);
      assert i < j;
      assert t == s[i..j];
      assert i + |t| == j;
      assert t[0] == s[i] && t[|t| - 1] == s[j - 1];
    }
  }

  /** A string with no line break and no whitespace at either end: the
      strings that survive a write followed by `readline().strip()`. */
  predicate Clean(s: string) {
    && (forall k :: 0 <= k < |s| ==> !IsLineBreak(s[k]))
    && (s == [] || (!IsSpace(s[0]) && !IsSpace(s[|s| - 1])))
  }

  /** `strip()` leaves `s` alone exactly when `s` has no whitespace at either end. */
  lemma StripIdentity(s: string)
    ensures Strip(s) == s <==> (s == [] || (!IsSpace(s[0]) && !IsSpace(s[|s| - 1])))
  {
    StripSlice(s);
    if s != [] && !IsSpace(s[0]) && !IsSpace(s[|s| - 1]) {
      assert LeadingSpaces(s) == 0;
      assert TrailingSpaces(s) == 0;
    }
  }

  /** Reading back the first line, stripped, returns the whole string
      exactly when the string is clean. */
  lemma FirstLineStripIdentity(s: string)
    ensures Strip(FirstLine(s)) == s <==> Clean(s)
  {
    var line := FirstLine(s);
    StripSlice(line);
    if Strip(line) == s {
      assert |line| == |s|;
      assert line == s;
      StripIdentity(s);
    }
    if Clean(s) {
      assert line == s;
      StripIdentity(s);
    }
  }
}
