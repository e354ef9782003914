/**
 * The parts of Python's `str` that the planner and worker rely on:
 * `isspace`, `strip`, `splitlines`, `isdigit`, `lower` and the substring
 * test `needle in hay`.
 */
module Text {

  /** `c.isspace()`: the characters Python's `str.strip()` removes. */
  predicate IsSpace(c: char) {
    var n := c as int;
    (9 <= n <= 13) || (28 <= n <= 32) || n == 0x85 || n == 0xA0 || n == 0x1680
    || (0x2000 <= n <= 0x200A) || n == 0x2028 || n == 0x2029 || n == 0x202F
    || n == 0x205F || n == 0x3000
  }

  /** The line boundaries recognised by `str.splitlines()`. */
  predicate IsLineBreak(c: char) {
    var n := c as int;
    (10 <= n <= 13) || (28 <= n <= 30) || n == 0x85 || n == 0x2028 || n == 0x2029
  }

  /** `c.isdigit()`, restricted to the ASCII digits. */
  predicate IsDigit(c: char) {
    '0' <= c <= '9'
  }

  ghost predicate AllSpace(s: string) {
    forall i :: 0 <= i < |s| ==> IsSpace(s[i])
  }

  /** Neither end of `s` is whitespace: what `strip()` leaves behind. */
  ghost predicate IsStripped(s: string) {
    s == [] || (!IsSpace(s[0]) && !IsSpace(s[|s| - 1]))
  }

  ghost predicate NoBreak(s: string) {
    forall i :: 0 <= i < |s| ==> !IsLineBreak(s[i])
  }

  /** `s.lstrip()`. */
  function TrimStart(s: string): string
    decreases |s|
  {
    if s != [] && IsSpace(s[0]) then TrimStart(s[1..]) else s
  }

  /** `s.rstrip()`. */
  function TrimEnd(s: string): string
    decreases |s|
  {
    if s != [] && IsSpace(s[|s| - 1]) then TrimEnd(s[..|s| - 1]) else s
  }

  /** `s.strip()`. */
  function Strip(s: string): string {
    TrimEnd(TrimStart(s))
  }

  /** lstrip keeps a suffix and removes only whitespace before it, all of it. */
  lemma {:induction false} TrimStartSpec(s: string)
    ensures var r := TrimStart(s);
            |r| <= |s| && r == s[|s| - |r|..] && AllSpace(s[..|s| - |r|])
            && (r == [] || !IsSpace(r[0]))
    decreases |s|
  {
    if s != [] && IsSpace(s[0]) {
      TrimStartSpec(s[1..]);
      var r := TrimStart(s[1..]);
      assert s[..|s| - |r|] == [s[0]] + s[1..][..|s| - 1 - |r|];
    }
  }

  /** rstrip keeps a prefix and removes only whitespace after it, all of it. */
  lemma {:induction false} TrimEndSpec(s: string)
    ensures var r := TrimEnd(s);
            |r| <= |s| && r == s[..|r|] && AllSpace(s[|r|..])
            && (r == [] || !IsSpace(r[|r| - 1]))
    decreases |s|
  {
    if s != [] && IsSpace(s[|s| - 1]) {
      TrimEndSpec(s[..|s| - 1]);
      var r := TrimEnd(s[..|s| - 1]);
      assert s[|r|..] == s[..|s| - 1][|r|..] + [s[|s| - 1]];
    }
  }

  /** Neither end of what strip returns is whitespace. */
  lemma StripIsStripped(s: string)
    ensures IsStripped(Strip(s)) && |Strip(s)| <= |s|
  {
    TrimStartSpec(s);
    TrimEndSpec(TrimStart(s));
  }

  /**
   * Strip keeps one contiguous piece of its input and removes only
   * whitespace around it.
   */
  lemma StripInfix(s: string)
    ensures exists a :: 0 <= a <= |s| - |Strip(s)| && Strip(s) == s[a..a + |Strip(s)|]
                        && AllSpace(s[..a]) && AllSpace(s[a + |Strip(s)|..])
  {
    TrimStartSpec(s);
    var t := TrimStart(s);
    TrimEndSpec(t);
    var r := TrimEnd(t);
    var a := |s| - |t|;
    assert t == s[a..];
    assert r == s[a..a + |r|];
    assert s[a + |r|..] == t[|r|..];
  }

  /** Strip gives the empty string exactly when the input is all whitespace. */
  lemma StripEmptyIff(s: string)
    ensures Strip(s) == [] <==> AllSpace(s)
  {
    StripInfix(s);
    var r := Strip(s);
    var a :| 0 <= a <= |s| - |r| && r == s[a..a + |r|] && AllSpace(s[..a]) && AllSpace(s[a + |r|..]);
    if r == [] {
      forall i | 0 <= i < |s| ensures IsSpace(s[i]) {
        if i < a { assert s[i] == s[..a][i]; } else { assert s[i] == s[a..][i - a]; }
      }
    } else {
      StripIsStripped(s);
      assert r[0] == s[a];
    }
  }

  /** Strip changes nothing on a string that is already stripped. */
  lemma StripStripped(s: string)
    requires IsStripped(s)
    ensures Strip(s) == s
  {
    if s != [] {
      assert TrimStart(s) == s;
      assert TrimEnd(s) == s;
    }
  }

  /** A stripped string holds a non-space character past any proper prefix. */
  lemma StrippedSuffixNotBlank(s: string, k: nat)
    requires IsStripped(s) && k < |s|
    ensures Strip(s[k..]) != []
  {
    StripEmptyIff(s[k..]);
    assert s[k..][|s| - 1 - k] == s[|s| - 1];
  }

  /** The index of the first line boundary in `s`, or `|s|` if there is none. */
  function FirstBreak(s: string): (i: nat)
    ensures i <= |s|
    decreases |s|
  {
    if s == [] || IsLineBreak(s[0]) then 0 else 1 + FirstBreak(s[1..])
  }

  /** FirstBreak finds the first boundary: none before it, one at it. */
  lemma {:induction false} FirstBreakSpec(s: string)
    ensures NoBreak(s[..FirstBreak(s)])
    ensures FirstBreak(s) < |s| ==> IsLineBreak(s[FirstBreak(s)])
    decreases |s|
  {
    if s != [] && !IsLineBreak(s[0]) {
      FirstBreakSpec(s[1..]);
      assert s[..FirstBreak(s)] == [s[0]] + s[1..][..FirstBreak(s[1..])];
    }
  }

  /**
   * `s.splitlines()`: the pieces between line boundaries, where "\r\n"
   * counts as one boundary and a boundary at the very end opens no
   * further line.
   */
  function SplitLines(s: string): seq<string>
    decreases |s|
  {
    if s == [] then []
    else
      var i := FirstBreak(s);
      if i == |s| then [s]
      else [s[..i]] + SplitLines(s[NextLine(s, i)..])
  }

  /** Where the line after a boundary at `i` starts: "\r\n" is one boundary of two characters. */
  function NextLine(s: string, i: nat): (next: nat)
    requires i < |s|
    ensures i < next <= |s| && next <= i + 2
  {
    if s[i] == '\r' && i + 1 < |s| && s[i + 1] == '\n' then i + 2 else i + 1
  }

  /**
   * The empty text has no lines and any other text has at least one; every
   * line but the last uses up at least its boundary character.
   */
  lemma {:induction false} SplitLinesCount(s: string)
    ensures SplitLines(s) == [] <==> s == []
    ensures |SplitLines(s)| <= |s|
    decreases |s|
  {
    if s != [] {
      var i := FirstBreak(s);
      if i < |s| {
        SplitLinesCount(s[NextLine(s, i)..]);
      }
    }
  }

  /** No line holds a line boundary. */
  lemma {:induction false} SplitLinesHaveNoBreaks(s: string)
    ensures forall k :: 0 <= k < |SplitLines(s)| ==> NoBreak(SplitLines(s)[k])
    decreases |s|
  {
    if s != [] {
      var i := FirstBreak(s);
      FirstBreakSpec(s);
      if i == |s| {
        assert s[..i] == s;
      } else {
        var next := NextLine(s, i);
        SplitLinesHaveNoBreaks(s[next..]);
        assert SplitLines(s) == [s[..i]] + SplitLines(s[next..]);
      }
    }
  }

  /** `s` with every line-boundary character removed. */
  function DropBreaks(s: string): string {
    if s == [] then []
    else (if IsLineBreak(s[0]) then [] else [s[0]]) + DropBreaks(s[1..])
  }

  /** The lines joined back together with nothing between them. */
  function Concat(lines: seq<string>): string {
    if lines == [] then [] else lines[0] + Concat(lines[1..])
  }

  lemma {:induction false} DropBreaksAppend(a: string, b: string)
    ensures DropBreaks(a + b) == DropBreaks(a) + DropBreaks(b)
    decreases |a|
  {
    if a != [] {
      assert (a + b)[1..] == a[1..] + b;
      DropBreaksAppend(a[1..], b);
    } else {
      assert a + b == b;
    }
  }

  lemma {:induction false} DropBreaksNoBreak(a: string)
    requires NoBreak(a)
    ensures DropBreaks(a) == a
    decreases |a|
  {
    if a != [] {
      DropBreaksNoBreak(a[1..]);
    }
  }

  /** Dropping the breaks from one boundary ("\n", "\r\n", ...) leaves nothing. */
  lemma BoundaryDropped(s: string, i: nat, next: nat)
    requires i < next <= |s| && next <= i + 2
    requires IsLineBreak(s[i]) && (next == i + 2 ==> IsLineBreak(s[i + 1]))
    ensures DropBreaks(s[i..next]) == []
  {
    var b := s[i..next];
    assert DropBreaks(b) == DropBreaks(b[1..]);
    if next == i + 2 {
      assert DropBreaks(b[1..]) == DropBreaks(b[1..][1..]);
      assert b[1..][1..] == [];
    } else {
      assert b[1..] == [];
    }
  }

  lemma ConcatCons(line: string, rest: seq<string>)
    ensures Concat([line] + rest) == line + Concat(rest)
  {
    assert ([line] + rest)[1..] == rest;
  }

  /** Dropping breaks from `s`, whose first line ends at `i` with the boundary running to `next`. */
  lemma DropBreaksAt(s: string, i: nat, next: nat)
    requires i < next <= |s| && DropBreaks(s[..i]) == s[..i] && DropBreaks(s[i..next]) == []
    ensures DropBreaks(s) == s[..i] + DropBreaks(s[next..])
  {
    var head, tail := s[..next], s[next..];
    assert s == head + tail;
    assert head == s[..i] + s[i..next];
    DropBreaksAppend(head, tail);
    DropBreaksAppend(s[..i], s[i..next]);
  }

  /** One step of splitting: the first line, then the lines after its boundary. */
  lemma SplitStep(s: string)
    requires s != [] && FirstBreak(s) < |s|
    ensures SplitLines(s) == [s[..FirstBreak(s)]] + SplitLines(s[NextLine(s, FirstBreak(s))..])
    ensures DropBreaks(s) == s[..FirstBreak(s)] + DropBreaks(s[NextLine(s, FirstBreak(s))..])
  {
    var i := FirstBreak(s);
    var next := NextLine(s, i);
    FirstBreakSpec(s);
    DropBreaksNoBreak(s[..i]);
    BoundaryDropped(s, i, next);
    DropBreaksAt(s, i, next);
  }

  /**
   * Splitting into lines loses exactly the line-boundary characters:
   * every other character survives, in its original order.
   */
  lemma {:induction false} SplitLinesKeepsText(s: string)
    ensures Concat(SplitLines(s)) == DropBreaks(s)
    decreases |s|
  {
    if s != [] {
      var i := FirstBreak(s);
      if i == |s| {
        FirstBreakSpec(s);
        assert s[..i] == s;
        DropBreaksNoBreak(s);
        ConcatCons(s, []);
      } else {
        var next := NextLine(s, i);
        SplitStep(s);
        SplitLinesKeepsText(s[next..]);
        ConcatCons(s[..i], SplitLines(s[next..]));
      }
    }
  }

  /** A line boundary as it occurs in the text: one boundary character, or "\r\n". */
  predicate IsBoundary(b: string) {
    (|b| == 1 && IsLineBreak(b[0])) || b == "\r\n"
  }

  /** The text rebuilt from its lines, each followed by the separator after it. */
  function Interleave(lines: seq<string>, seps: seq<string>): string
    requires |lines| == |seps|
  {
    if lines == [] then [] else lines[0] + seps[0] + Interleave(lines[1..], seps[1..])
  }

  /**
   * Where the cuts fall: each line but the last is followed by exactly one
   * boundary, the last by one boundary or by nothing; a lone "\r" is never
   * followed by an empty line ending in "\n" (that would be "\r\n" cut in
   * two); and the text does not end with an empty line with nothing after it.
   */
  ghost predicate WellCut(lines: seq<string>, seps: seq<string>) {
    && |lines| == |seps|
    && (forall k :: 0 <= k < |seps| - 1 ==> IsBoundary(seps[k]))
    && (|seps| > 0 ==> seps[|seps| - 1] == [] || IsBoundary(seps[|seps| - 1]))
    && (forall k :: 0 <= k < |seps| - 1 && seps[k] == "\r" ==> lines[k + 1] != [] || seps[k + 1] != "\n")
    && (|seps| > 0 ==> lines[|seps| - 1] != [] || seps[|seps| - 1] != [])
  }

  lemma WellCutCons(line: string, sep: string, lines: seq<string>, seps: seq<string>)
    requires WellCut(lines, seps) && IsBoundary(sep)
    requires sep == "\r" && lines != [] ==> lines[0] != [] || seps[0] != "\n"
    ensures WellCut([line] + lines, [sep] + seps)
  {
    var ls, ss := [line] + lines, [sep] + seps;
    forall k | 0 <= k < |ss| - 1 ensures IsBoundary(ss[k]) {
      if k > 0 { assert ss[k] == seps[k - 1]; }
    }
    forall k | 0 <= k < |ss| - 1 && ss[k] == "\r" ensures ls[k + 1] != [] || ss[k + 1] != "\n" {
      if k > 0 { assert ss[k] == seps[k - 1] && ls[k + 1] == lines[k]; }
    }
  }

  /** A boundary found by `FirstBreak` and `NextLine` is one separator. */
  lemma BoundaryAt(s: string)
    requires FirstBreak(s) < |s|
    ensures IsBoundary(s[FirstBreak(s)..NextLine(s, FirstBreak(s))])
  {
    FirstBreakSpec(s);
    var i := FirstBreak(s);
    var b := s[i..NextLine(s, i)];
    if NextLine(s, i) == i + 2 {
      assert b[0] == '\r' && b[1] == '\n';
      assert b == "\r\n";
    } else {
      assert |b| == 1 && b[0] == s[i];
    }
  }

  /** Rebuilt text whose first line is empty and whose first separator is "\n" starts with "\n". */
  lemma InterleaveHead(lines: seq<string>, seps: seq<string>)
    requires |lines| == |seps| > 0
    ensures lines[0] == [] && seps[0] == "\n" ==> Interleave(lines, seps)[0] == '\n'
  {
  }

  /** A string is its three pieces around two cut points. */
  lemma Pieces(s: string, i: nat, j: nat)
    requires i <= j <= |s|
    ensures s == s[..i] + s[i..j] + s[j..]
  {
    assert s[..j] == s[..i] + s[i..j];
    assert s == s[..j] + s[j..];
  }

  lemma InterleaveCons(line: string, sep: string, lines: seq<string>, seps: seq<string>)
    requires |lines| == |seps|
    ensures Interleave([line] + lines, [sep] + seps) == line + sep + Interleave(lines, seps)
  {
    assert ([line] + lines)[1..] == lines && ([sep] + seps)[1..] == seps;
  }

  /** A "\r" that is a boundary on its own is not followed by "\n", so no empty line ending in "\n" comes next. */
  lemma LoneReturn(s: string, i: nat, rest: seq<string>, tail: seq<string>)
    requires i < |s| && s[i] == '\r' && NextLine(s, i) == i + 1
    requires |rest| == |tail| > 0 && s[i + 1..] == Interleave(rest, tail)
    ensures rest[0] != [] || tail[0] != "\n"
  {
    InterleaveHead(rest, tail);
    if i + 1 < |s| {
      assert s[i + 1..][0] == s[i + 1];
    }
  }

  /** One line more: the first line and its boundary in front of the rebuilt rest. */
  lemma RebuildStep(s: string, tail: seq<string>) returns (seps: seq<string>)
    requires s != [] && FirstBreak(s) < |s|
    requires var t := s[NextLine(s, FirstBreak(s))..];
             |tail| == |SplitLines(t)| && WellCut(SplitLines(t), tail) && t == Interleave(SplitLines(t), tail)
    ensures |seps| == |SplitLines(s)|
    ensures WellCut(SplitLines(s), seps)
    ensures s == Interleave(SplitLines(s), seps)
  {
    var i := FirstBreak(s);
    var next := NextLine(s, i);
    var rest := SplitLines(s[next..]);
    var sep := s[i..next];
    seps := [sep] + tail;
    BoundaryAt(s);
    if sep == "\r" && rest != [] {
      assert s[i] == sep[0];
      LoneReturn(s, i, rest, tail);
    }
    WellCutCons(s[..i], sep, rest, tail);
    InterleaveCons(s[..i], sep, rest, tail);
    Pieces(s, i, next);
  }

  /**
   * The lines of `s`, each followed by its separator, spell out `s` again,
   * and the separators are exactly the boundaries `splitlines` cuts at.
   */
  lemma {:induction false} SplitLinesRebuild(s: string) returns (seps: seq<string>)
    ensures |seps| == |SplitLines(s)|
    ensures WellCut(SplitLines(s), seps)
    ensures s == Interleave(SplitLines(s), seps)
    decreases |s|
  {
    if s == [] {
      seps := [];
    } else if FirstBreak(s) == |s| {
      seps := [[]];
      assert s[..|s|] == s;
      assert Interleave([s], [[]]) == s + [] + Interleave([], []);
    } else {
      var tail := SplitLinesRebuild(s[NextLine(s, FirstBreak(s))..]);
      seps := RebuildStep(s, tail);
    }
  }

  function LowerChar(c: char): char {
    if 'A' <= c <= 'Z' then (c as int + 32) as char else c
  }

  /** `s.lower()` on ASCII letters; every other character is kept. */
  function Lower(s: string): string {
    seq(|s|, i requires 0 <= i < |s| => LowerChar(s[i]))
  }

  /** Lower-casing twice is lower-casing once. */
  lemma LowerIdempotent(s: string)
    ensures Lower(Lower(s)) == Lower(s)
  {
    assert forall i :: 0 <= i < |s| ==> Lower(Lower(s))[i] == Lower(s)[i];
  }

  /** A lower-case letter absent from `s` in both cases is absent from `Lower(s)`. */
  lemma LowerLacks(s: string, c: char)
    requires 'a' <= c <= 'z' && c !in s && (c as int - 32) as char !in s
    ensures c !in Lower(s)
  {
    forall i | 0 <= i < |s| ensures Lower(s)[i] != c {
      assert s[i] in s;
    }
  }

  /** `c` and `d` are the same character, or the two cases of one ASCII letter. */
  predicate SameLetter(c: char, d: char) {
    c == d
    || ('A' <= c <= 'Z' && d as int == c as int + 32)
    || ('A' <= d <= 'Z' && c as int == d as int + 32)
  }

  /** `a` and `b` differ at most in the case of ASCII letters. */
  predicate SameUpToAsciiCase(a: string, b: string) {
    |a| == |b| && forall i :: 0 <= i < |a| ==> SameLetter(a[i], b[i])
  }

  /** No upper-case ASCII letter survives lower-casing. */
  lemma LowerHasNoUpper(s: string)
    ensures forall i :: 0 <= i < |Lower(s)| ==> !('A' <= Lower(s)[i] <= 'Z')
  {
  }

  /**
   * Lower-casing changes nothing but the case of letters. With
   * `LowerHasNoUpper` this fixes `Lower(s)` completely.
   */
  lemma LowerKeepsLetters(s: string)
    ensures SameUpToAsciiCase(s, Lower(s))
  {
  }

  /** Strings that differ only in the case of letters lower-case to the same string. */
  lemma LowerIgnoresCase(a: string, b: string)
    requires SameUpToAsciiCase(a, b)
    ensures Lower(a) == Lower(b)
  {
    forall i | 0 <= i < |a| ensures Lower(a)[i] == Lower(b)[i] {
      assert SameLetter(a[i], b[i]);
    }
  }

  /** `needle` occurs in `hay` starting at position `i`. */
  predicate OccursAt(hay: string, needle: string, i: int) {
    0 <= i && i + |needle| <= |hay| && hay[i..i + |needle|] == needle
  }

  /** `needle in hay`: `needle` occurs in `hay` at some position. */
  predicate Contains(hay: string, needle: string) {
    exists i | 0 <= i <= |hay| - |needle| :: OccursAt(hay, needle, i)
  }

  /** An occurrence of a lower-case needle survives lower-casing. */
  lemma OccursInLower(hay: string, needle: string, i: int)
    requires OccursAt(hay, needle, i) && Lower(needle) == needle
    ensures OccursAt(Lower(hay), needle, i)
  {
    forall k | 0 <= k < |needle| ensures Lower(hay)[i..i + |needle|][k] == needle[k] {
      assert hay[i..i + |needle|][k] == hay[i + k];
      assert Lower(needle)[k] == LowerChar(needle[k]);
    }
  }

  /** Whatever contains a string also contains each of its prefixes. */
  lemma ContainsPrefix(hay: string, longer: string, needle: string)
    requires needle <= longer && Contains(hay, longer)
    ensures Contains(hay, needle)
  {
    var i :| 0 <= i <= |hay| - |longer| && OccursAt(hay, longer, i);
    assert hay[i..i + |needle|] == longer[..|needle|];
    assert OccursAt(hay, needle, i);
  }

  /** A string lacking one of the needle's characters does not contain the needle. */
  lemma MissingChar(hay: string, needle: string, c: char)
    requires c in needle && c !in hay
    ensures !Contains(hay, needle)
  {
    var j :| 0 <= j < |needle| && needle[j] == c;
    forall i | 0 <= i <= |hay| - |needle| ensures !OccursAt(hay, needle, i) {
      assert hay[i..i + |needle|][j] == hay[i + j] != c;
    }
  }
}
