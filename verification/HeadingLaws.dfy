/** The line tests of the changelog scripts as the texts they match. */
module HeadingLaws {
  import opened ChangelogLines
  import opened Whitespace
  import opened Wrappers

  // ---- Version headings ----

  /** Two number signs, white space, the bracketed word, white space. */
  ghost predicate SpellsUnreleased(line: string, gap: string, tail: string) {
    line == "##" + gap + "[Unreleased]" + tail && gap != "" && Blank(gap) && Blank(tail)
  }

  lemma {:induction false} VersionIff(line: string)
    ensures VersionHeading(line) <==> exists c, rest :: line == "##" + [c] + rest && IsSpace(c)
  {
    hide IsSpace;
    if VersionHeading(line) { assert line == "##" + [line[2]] + line[3..]; }
    if c, rest :| line == "##" + [c] + rest && IsSpace(c) { assert line[..2] == "##" && line[2] == c; }
  }

  lemma {:induction false} UnreleasedIff(line: string)
    ensures UnreleasedHeading(line) <==> exists gap, tail :: SpellsUnreleased(line, gap, tail)
  {
    if UnreleasedHeading(line) {
      var gap, tail := TrimShape(line[2..]);
      assert line == "##" + line[2..];
      TextFollowsGap(line[2..], gap, "[Unreleased]", tail);
      assert SpellsUnreleased(line, gap, tail);
    }
    if gap, tail :| SpellsUnreleased(line, gap, tail) { SpelledIsUnreleased(line, gap, tail); }
  }

  lemma {:induction false} TextFollowsGap(s: string, gap: string, text: string, tail: string)
    requires s == gap + text + tail && s != "" && IsSpace(s[0]) && text != "" && !IsSpace(text[0])
    ensures gap != ""
  {
    hide IsSpace;
    assert s[|gap|] == text[0];
  }

  lemma {:induction false} BracketIsTrimmed()
    ensures Trimmed("[Unreleased]")
  {
    SpaceFacts();
    hide IsSpace;
    assert "[Unreleased]"[11] == ']';
  }

  lemma {:induction false} SpelledIsUnreleased(line: string, gap: string, tail: string)
    requires SpellsUnreleased(line, gap, tail)
    ensures UnreleasedHeading(line)
  {
    BracketIsTrimmed();
    TrimIs(gap, "[Unreleased]", tail);
    hide Trim, IsSpace;
    assert line[..2] == "##" && line[2..] == gap + "[Unreleased]" + tail && line[2] == gap[0];
  }

  // ---- Section headings ----

  /** Three number signs, white space, a trimmed text on one line, white space. */
  ghost predicate SpellsSection(line: string, gap: string, h: string, tail: string) {
    && line == "###" + gap + h + tail && gap != "" && Blank(gap) && Blank(tail) && Trimmed(h)
    && forall i | 0 <= i < |h| :: h[i] !in ['\n', '\r', '\U{2028}', '\U{2029}']
  }

  lemma {:induction false} OneLineIff(h: string)
    ensures HasLineTerminator(h) <==> exists i | 0 <= i < |h| :: h[i] in ['\n', '\r', '\U{2028}', '\U{2029}']
  {
  }

  /** A named section heading is exactly such a line. */
  lemma {:induction false} SectionIff(line: string, h: string)
    requires h != ""
    ensures SectionHeading(line) == Some(h) <==> exists gap, tail :: SpellsSection(line, gap, h, tail)
  {
    OneLineIff(h);
    if SectionHeading(line) == Some(h) {
      var gap, tail := TrimShape(line[3..]);
      hide Trim, IsSpace, HasLineTerminator;
      assert Trim(line[3..]) == h;
      TextFollowsGap(line[3..], gap, h, tail);
      assert line == "###" + line[3..];
      assert SpellsSection(line, gap, h, tail);
    }
    if gap, tail :| SpellsSection(line, gap, h, tail) { SpelledIsSection(line, gap, h, tail); }
  }

  lemma {:induction false} SpelledIsSection(line: string, gap: string, h: string, tail: string)
    requires SpellsSection(line, gap, h, tail) && h != ""
    ensures SectionHeading(line) == Some(h)
  {
    OneLineIff(h);
    TrimIs(gap, h, tail);
    hide Trim, IsSpace, HasLineTerminator;
    assert line[..3] == "###" && line[3..] == gap + h + tail && line[3] == gap[0];
  }

  /** An unnamed one is white space after the signs, with something after its first character that ends no line. */
  lemma {:induction false} UnnamedSectionIff(line: string)
    ensures SectionHeading(line) == Some("") <==>
            && StartsWith(line, "###") && |line| > 4 && Blank(line[3..])
            && exists k | 4 <= k < |line| :: !IsLineTerminator(line[k])
  {
    var rest := if |line| >= 3 then line[3..] else "";
    var a, b := TrimShape(rest);
    if |rest| > 1 && Blank(rest) { assert IsSpace(rest[0]); }
    hide Trim, IsSpace, Blank, HasLineTerminator;
    if k :| 1 <= k < |rest| && !IsLineTerminator(rest[k]) { assert line[k + 3] == rest[k]; }
    if k :| 4 <= k < |line| && |line| >= 3 && !IsLineTerminator(line[k]) { assert rest[k - 3] == line[k]; }
  }

  // ---- Any heading, and bullets ----

  ghost predicate SpellsHeading(line: string, n: nat) {
    0 < n < |line| && (forall i | 0 <= i < n :: line[i] == '#') && IsSpace(line[n])
  }

  lemma {:induction false} HeadingIff(line: string)
    ensures AnyHeading(line) <==> exists n: nat :: SpellsHeading(line, n)
  {
    SpaceFacts();
    hide IsSpace;
    var m := NumberSigns(line);
    if AnyHeading(line) { assert SpellsHeading(line, m); }
    if n: nat :| SpellsHeading(line, n) { assert n == m; }
  }

  ghost predicate SpellsBullet(line: string, lead: string, c: char, text: string) {
    line == lead + "-" + [c] + text && Blank(lead) && IsSpace(c) && !Blank(text)
  }

  /** White space, a dash, white space and something else. */
  lemma {:induction false} BulletIff(line: string)
    ensures Bullet(line) <==> exists lead, c, text :: SpellsBullet(line, lead, c, text)
  {
    hide IsSpace, TrimStart;
    if Bullet(line) {
      var lead := TrimStartShape(line);
      var t := TrimStart(line);
      assert t == "-" + [t[1]] + t[2..] && t[1..] == [t[1]] + t[2..];
      assert t[1..][1..] == t[2..];
      assert line == lead + "-" + [t[1]] + t[2..];
      assert SpellsBullet(line, lead, t[1], t[2..]);
    }
    if lead, c, text :| SpellsBullet(line, lead, c, text) { SpelledIsBullet(line, lead, c, text); }
  }

  lemma {:induction false} SpelledIsBullet(line: string, lead: string, c: char, text: string)
    requires SpellsBullet(line, lead, c, text)
    ensures Bullet(line)
  {
    var t := "-" + [c] + text;
    DashIsNotSpace();
    assert line == lead + t && t[1..] == [c] + text && ([c] + text)[1..] == text;
    TrimStartIs(lead, t);
    hide TrimStart, IsSpace;
  }

  lemma {:induction false} DashIsNotSpace()
    ensures !IsSpace('-')
  {
    GraphicIsNotSpace('-');
  }

  // ---- White space ----

  /** The white space of ECMAScript, character by character. */
  const WHITE: seq<char> := [
    '\t', '\n', '\U{b}', '\U{c}', '\r', ' ', '\U{a0}', '\U{1680}', '\U{2000}', '\U{2001}', '\U{2002}', '\U{2003}', '\U{2004}', '\U{2005}',
    '\U{2006}', '\U{2007}', '\U{2008}', '\U{2009}', '\U{200a}', '\U{2028}', '\U{2029}', '\U{202f}', '\U{205f}', '\U{3000}', '\U{feff}']

  lemma {:induction false} InRangesIff(c: char, ranges: seq<(char, char)>)
    ensures InRanges(c, ranges) <==> exists i | 0 <= i < |ranges| :: ranges[i].0 <= c <= ranges[i].1
  {
    if ranges != [] {
      var rest := ranges[1..];
      InRangesIff(c, rest);
      if i :| 0 <= i < |rest| && rest[i].0 <= c <= rest[i].1 { assert ranges[i + 1] == rest[i]; }
      if i :| 0 <= i < |ranges| && ranges[i].0 <= c <= ranges[i].1 {
        if i > 0 { assert rest[i - 1] == ranges[i]; }
      }
    }
  }

  lemma {:induction false} SpaceIff(c: char)
    ensures IsSpace(c) <==> c in WHITE
  {
    InRangesIff(c, SPACES);
    hide InRanges;
    if c in WHITE {
      assert exists i | 0 <= i < |SPACES| :: SPACES[i].0 <= c <= SPACES[i].1 by {
        var i := if c <= '\r' then 0 else if c == ' ' then 1 else if c == '\U{a0}' then 2 else if c == '\U{1680}' then 3 else if c <= '\U{200a}' then 4
                 else if c <= '\U{2029}' then 5 else if c == '\U{202f}' then 6 else if c == '\U{205f}' then 7 else if c == '\U{3000}' then 8 else 9;
        assert SPACES[i].0 <= c <= SPACES[i].1;
      }
    }
  }

  /** What stripping leaves: the text without a tail of spaces and tabs, and none at its end. */
  lemma {:induction false} StripIff(line: string, r: string)
    ensures StripTail(line) == r <==>
            && (r == "" || r[|r| - 1] !in [' ', '\t'])
            && exists pad :: line == r + pad && forall i | 0 <= i < |pad| :: pad[i] in [' ', '\t']
  {
    var pad := DropEndShape(line, IsPad);
    if pad' :| line == r + pad' && (forall i | 0 <= i < |pad'| :: pad'[i] in [' ', '\t']) && (r == "" || r[|r| - 1] !in [' ', '\t']) {
      DropEndIs(r, pad', IsPad);
    }
  }
}
