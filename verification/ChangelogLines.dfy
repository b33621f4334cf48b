/** White space and trimming as ECMAScript's \s and String.prototype.trim define them. */
module Whitespace {

  predicate IsLineTerminator(c: char) {
    c == '\n' || c == '\r' || c == '\U{2028}' || c == '\U{2029}'
  }

  /** The white space of ECMAScript: WhiteSpace and LineTerminator. */
  const SPACES: seq<(char, char)> := [
    ('\t', '\r'), (' ', ' '), ('\U{a0}', '\U{a0}'), ('\U{1680}', '\U{1680}'), ('\U{2000}', '\U{200a}'),
    ('\U{2028}', '\U{2029}'), ('\U{202f}', '\U{202f}'), ('\U{205f}', '\U{205f}'), ('\U{3000}', '\U{3000}'),
    ('\U{feff}', '\U{feff}')]

  predicate InRanges(c: char, ranges: seq<(char, char)>) {
    ranges != [] && (ranges[0].0 <= c <= ranges[0].1 || InRanges(c, ranges[1..]))
  }

  predicate IsSpace(c: char) {
    InRanges(c, SPACES)
  }

  lemma {:induction false} SpaceFacts()
    ensures IsSpace(' ') && !IsSpace('#') && !IsSpace('[') && !IsSpace(']') && !IsSpace('.') && !IsSpace('a')
  {
  }

  lemma {:induction false} OutsideRanges(c: char, ranges: seq<(char, char)>)
    requires forall i | 0 <= i < |ranges| :: c < ranges[i].0 || ranges[i].1 < c
    ensures !InRanges(c, ranges)
  {
    if ranges != [] { OutsideRanges(c, ranges[1..]); }
  }

  lemma {:induction false} GraphicIsNotSpace(c: char)
    requires '-' <= c <= 'z'
    ensures !IsSpace(c)
  {
    OutsideRanges(c, SPACES);
  }

  predicate Blank(s: string) {
    s == "" || (IsSpace(s[0]) && Blank(s[1..]))
  }

  lemma {:induction false} SpacesAreBlank()
    ensures Blank("") && Blank(" ") && Blank("  ")
  {
    SpaceFacts();
    hide IsSpace;
    assert " "[1..] == "" && "  "[1..] == " ";
  }

  lemma {:induction false} BlankAppend(a: string, b: string)
    ensures Blank(a + b) <==> Blank(a) && Blank(b)
  {
    if a == "" {
      assert a + b == b;
    } else {
      assert (a + b)[1..] == a[1..] + b;
      BlankAppend(a[1..], b);
    }
  }

  function TrimStart(s: string): (r: string)
    ensures r == "" || !IsSpace(r[0])
    ensures r == "" <==> Blank(s)
  {
    if s != [] && IsSpace(s[0]) then TrimStart(s[1..]) else s
  }

  /** Drops trailing characters satisfying p. */
  function DropEnd(s: string, p: char -> bool): (r: string)
    ensures r <= s && (r == "" || !p(r[|r| - 1]))
  {
    if s != [] && p(s[|s| - 1]) then DropEnd(s[..|s| - 1], p) else s
  }

  function Trim(s: string): string {
    DropEnd(TrimStart(s), IsSpace)
  }

  lemma {:induction false} TrimStartIs(a: string, c: string)
    requires Blank(a) && (c == "" || !IsSpace(c[0]))
    ensures TrimStart(a + c) == c
  {
    if a == "" {
      assert a + c == c;
    } else {
      assert (a + c)[1..] == a[1..] + c;
      TrimStartIs(a[1..], c);
    }
  }

  lemma {:induction false} DropEndIs(c: string, b: string, p: char -> bool)
    requires (c == "" || !p(c[|c| - 1])) && forall i | 0 <= i < |b| :: p(b[i])
    ensures DropEnd(c + b, p) == c
  {
    if b == "" {
      assert c + b == c;
    } else {
      assert (c + b)[..|c + b| - 1] == c + b[..|b| - 1];
      DropEndIs(c, b[..|b| - 1], p);
    }
  }

  lemma {:induction false} DropEndShape(s: string, p: char -> bool) returns (b: string)
    ensures s == DropEnd(s, p) + b && forall i | 0 <= i < |b| :: p(b[i])
  {
    if s != [] && p(s[|s| - 1]) {
      b := DropEndShape(s[..|s| - 1], p);
      assert s == DropEnd(s, p) + (b + [s[|s| - 1]]);
      b := b + [s[|s| - 1]];
    } else {
      b := "";
    }
  }

  lemma {:induction false} AllSpaceIsBlank(b: string)
    requires forall i | 0 <= i < |b| :: IsSpace(b[i])
    ensures Blank(b)
  {
    if b != "" { AllSpaceIsBlank(b[1..]); }
  }

  lemma {:induction false} BlankIsAllSpace(b: string)
    requires Blank(b)
    ensures forall i | 0 <= i < |b| :: IsSpace(b[i])
  {
    if b != "" { BlankIsAllSpace(b[1..]); }
  }

  predicate Trimmed(s: string) {
    s == "" || (!IsSpace(s[0]) && !IsSpace(s[|s| - 1]))
  }

  lemma {:induction false} TrimStartShape(s: string) returns (a: string)
    ensures s == a + TrimStart(s) && Blank(a)
  {
    if s != [] && IsSpace(s[0]) {
      a := TrimStartShape(s[1..]);
      assert s == ([s[0]] + a) + TrimStart(s);
      a := [s[0]] + a;
    } else {
      a := "";
    }
  }

  /** A trimmed string between white space is what trimming leaves. */
  lemma {:induction false} TrimIs(a: string, core: string, b: string)
    requires Blank(a) && Blank(b) && core != "" && Trimmed(core)
    ensures Trim(a + core + b) == core
  {
    assert a + core + b == a + (core + b);
    TrimStartIs(a, core + b);
    BlankIsAllSpace(b);
    DropEndIs(core, b, IsSpace);
  }

  lemma {:induction false} TrimShape(s: string) returns (a: string, b: string)
    ensures s == a + Trim(s) + b && Blank(a) && Blank(b)
    ensures Trimmed(Trim(s)) && (Trim(s) == "" <==> Blank(s))
  {
    a := TrimStartShape(s);
    var t := TrimStart(s);
    b := DropEndShape(t, IsSpace);
    AllSpaceIsBlank(b);
    assert s == a + (Trim(s) + b);
    BlankAppend(a, Trim(s) + b);
    BlankAppend(Trim(s), b);
  }

  /** A character before the trailing white space survives trimming. */
  lemma {:induction false} TrimKeepsFront(s: string, n: nat)
    requires n < |s| && !IsSpace(s[0]) && !IsSpace(s[n])
    ensures n < |Trim(s)| && Trim(s) <= s
  {
    var a, b := TrimShape(s);
    BlankIsAllSpace(a);
    BlankIsAllSpace(b);
    hide Trim, IsSpace, Blank;
  }

  lemma {:induction false} Regroup(s: string, a: string, core: string, b: string, tail: string)
    requires s == a + core + b
    ensures s + tail == a + core + (b + tail)
  {
  }

  lemma {:induction false} TrimWithin(s: string, a: string, core: string, b: string)
    requires s == a + core + b && Blank(a) && Blank(b) && Trimmed(core)
    ensures Trim(s) == core
  {
    if core == "" {
      BlankAppend(a, b);
      assert s == a + b;
      var c, d := TrimShape(s);
    } else {
      TrimIs(a, core, b);
    }
  }

  /** Trailing white space does not change what trimming leaves. */
  lemma {:induction false} TrimIgnoresTail(s: string, tail: string)
    requires Blank(tail)
    ensures Trim(s + tail) == Trim(s)
  {
    var a, b := TrimShape(s);
    BlankAppend(b, tail);
    Regroup(s, a, Trim(s), b, tail);
    TrimWithin(s + tail, a, Trim(s), b + tail);
  }

  predicate IsPad(c: char) {
    c == ' ' || c == '\t'
  }

  /** Without trailing spaces and tabs. */
  function StripTail(s: string): string {
    DropEnd(s, IsPad)
  }

  lemma {:induction false} StripShape(s: string) returns (tail: string)
    ensures s == StripTail(s) + tail && Blank(tail)
  {
    tail := DropEndShape(s, IsPad);
    AllSpaceIsBlank(tail);
  }

  lemma {:induction false} StripTwice(s: string)
    ensures StripTail(StripTail(s)) == StripTail(s)
  {
  }

  lemma {:induction false} StripKeepsBlank(s: string)
    ensures Blank(StripTail(s)) <==> Blank(s)
  {
    var tail := StripShape(s);
    BlankAppend(StripTail(s), tail);
  }
}

/** The line predicates of the changelog scripts. */
module ChangelogLines {
  import opened Whitespace
  import opened Wrappers

  predicate StartsWith(line: string, prefix: string) {
    |prefix| <= |line| && line[..|prefix|] == prefix
  }

  /** Two number signs and white space. */
  predicate VersionHeading(line: string) {
    StartsWith(line, "##") && |line| > 2 && IsSpace(line[2])
  }

  predicate UnreleasedHeading(line: string) {
    VersionHeading(line) && Trim(line[2..]) == "[Unreleased]"
  }

  function NumberSigns(line: string): (n: nat)
    ensures n <= |line| && (forall i | 0 <= i < n :: line[i] == '#') && (n < |line| ==> line[n] != '#')
  {
    if line != "" && line[0] == '#' then 1 + NumberSigns(line[1..]) else 0
  }

  /** Any run of number signs followed by white space. */
  predicate AnyHeading(line: string) {
    var n := NumberSigns(line);
    0 < n < |line| && IsSpace(line[n])
  }

  predicate HasLineTerminator(s: string) {
    exists i | 0 <= i < |s| :: IsLineTerminator(s[i])
  }

  /** Three number signs and white space. */
  predicate SectionSigns(line: string) {
    StartsWith(line, "###") && |line| > 3 && IsSpace(line[3])
  }

  /** The text between white space after the signs; none when it contains a line terminator. */
  function HeadingText(rest: string): Option<string> {
    var core := Trim(rest);
    if core != "" then (if HasLineTerminator(core) then None else Some(core))
    else if exists k | 1 <= k < |rest| :: !IsLineTerminator(rest[k]) then Some("")
    else None
  }

  /**
   * The text of a three-sign heading. White space alone after the signs still yields an empty heading when
   * something other than a line terminator can stand for the text.
   */
  function SectionHeading(line: string): Option<string> {
    if SectionSigns(line) then HeadingText(line[3..]) else None
  }

  /** White space, a dash, white space, then something else. */
  predicate Bullet(line: string) {
    var t := TrimStart(line);
    |t| > 1 && t[0] == '-' && IsSpace(t[1]) && !Blank(t[1..])
  }

  /** Heading texts are trimmed single lines. */
  predicate IsHeadingText(h: string) {
    Trimmed(h) && !HasLineTerminator(h)
  }

  lemma {:induction false} HeadingTextShape(line: string)
    requires SectionHeading(line).Some?
    ensures IsHeadingText(SectionHeading(line).value)
  {
    var a, b := TrimShape(line[3..]);
  }

  lemma {:induction false} SectionIsHeading(line: string)
    requires SectionHeading(line).Some?
    ensures AnyHeading(line) && !VersionHeading(line)
  {
    assert line[0] == line[..3][0] && line[1] == line[..3][1] && line[2] == line[..3][2];
    assert NumberSigns(line) == 3;
  }

  lemma {:induction false} VersionIsHeading(line: string)
    requires VersionHeading(line)
    ensures AnyHeading(line)
  {
    assert line[0] == line[..2][0] && line[1] == line[..2][1];
    assert NumberSigns(line) == 2;
  }

  lemma {:induction false} HeadingTextKeepsTail(rest: string, tail: string)
    requires Blank(tail) && HeadingText(rest).Some?
    ensures HeadingText(rest + tail).Some?
  {
    TrimIgnoresTail(rest, tail);
    if Trim(rest) == "" {
      var k :| 1 <= k < |rest| && !IsLineTerminator(rest[k]);
      assert (rest + tail)[k] == rest[k];
    }
  }

  /** Dropping trailing spaces and tabs never turns a line into a heading. */
  lemma {:induction false} StripMakesNoHeading(line: string)
    ensures VersionHeading(StripTail(line)) ==> VersionHeading(line)
    ensures SectionHeading(StripTail(line)).Some? ==> SectionHeading(line).Some?
  {
    var r := StripTail(line);
    var tail := StripShape(line);
    if SectionHeading(r).Some? {
      HeadingTextKeepsTail(r[3..], tail);
      assert line[3..] == r[3..] + tail;
    }
  }

  lemma {:induction false} RenderedText(h: string)
    requires IsHeadingText(h)
    ensures HeadingText(" " + h) == if h == "" then None else Some(h)
  {
    assert IsSpace(' ') && Blank(" ") && Blank("");
    assert " " + h == " " + h + "";
    TrimWithin(" " + h, " ", h, "");
  }

  lemma {:induction false} RenderedSigns(h: string)
    ensures SectionSigns("### " + h) && ("### " + h)[3..] == " " + h && !VersionHeading("### " + h)
  {
    var line := "### " + h;
    assert line[..3] == "###" && line[2] == '#' && line[3] == ' ';
    assert IsSpace(' ') && !IsSpace('#');
  }

  /** A rendered heading line reads back as the heading it was made from, unless that is empty. */
  lemma {:induction false} RenderedHeading(h: string)
    requires IsHeadingText(h)
    ensures SectionHeading("### " + h) == if h == "" then None else Some(h)
  {
    RenderedSigns(h);
    RenderedText(h);
  }

  lemma {:induction false} RenderedIsNotBlank(h: string)
    ensures !Blank("### " + h)
  {
    assert ("### " + h)[0] == '#' && !IsSpace('#');
  }
}
