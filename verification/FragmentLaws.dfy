/** Which fragment files are accepted, on their lines and on their text. */
module FragmentLaws {
  import opened ChangelogLines
  import opened ChangelogSections
  import opened Text
  import opened Whitespace
  import opened Wrappers

  predicate Opens(line: string) {
    SectionHeading(line).Some?
  }

  /** A bullet at j with no section heading before it. */
  ghost predicate BulletBefore(lines: seq<string>, j: nat) {
    j < |lines| && Bullet(lines[j]) && forall k | 0 <= k < j :: !Opens(lines[k])
  }

  ghost predicate FrontBulleted(lines: seq<string>) {
    exists j: nat :: BulletBefore(lines, j)
  }

  /** A bullet at j with no section heading between it and line i. */
  ghost predicate BulletAfter(lines: seq<string>, i: nat, j: nat) {
    i < j < |lines| && Bullet(lines[j]) && forall k | i < k < j :: !Opens(lines[k])
  }

  ghost predicate SectionBulleted(lines: seq<string>, i: nat) {
    exists j: nat :: BulletAfter(lines, i, j)
  }

  /** The lines before the first section heading. */
  lemma {:induction false} PreambleIs(lines: seq<string>)
    ensures var n := |Sections(lines).preamble|;
            && n <= |lines| && Sections(lines).preamble == lines[..n]
            && (forall k | 0 <= k < n :: !Opens(lines[k])) && (n < |lines| ==> Opens(lines[n]))
            && (n == |lines| <==> Sections(lines).sections == [])
  {
    hide SectionHeading;
    if lines != [] {
      PreambleIs(lines[1..]);
      var m := |Sections(lines[1..]).preamble|;
      if !Opens(lines[0]) { assert lines[..m + 1] == [lines[0]] + lines[1..][..m]; }
    }
  }

  lemma {:induction false} BulletIsNoHeading(line: string)
    requires Bullet(line)
    ensures !Opens(line)
  {
    if Opens(line) { HashIsNoSpace(line); }
    hide IsSpace, TrimStart;
  }

  lemma {:induction false} HashIsNoSpace(line: string)
    requires StartsWith(line, "###")
    ensures TrimStart(line) == line && line[0] == '#'
  {
    SpaceFacts();
    assert line[..3][0] == line[0];
    hide IsSpace;
  }

  /** The preamble has a bullet exactly when one comes before the first section heading. */
  lemma {:induction false} PreambleBullet(lines: seq<string>)
    ensures HasBullet(Sections(lines).preamble) <==> FrontBulleted(lines)
  {
    PreambleIs(lines);
    var preamble := Sections(lines).preamble;
    hide Sections, Opens, Bullet;
    if j :| 0 <= j < |preamble| && Bullet(preamble[j]) { assert BulletBefore(lines, j); }
    if j: nat :| BulletBefore(lines, j) {
      BulletIsNoHeading(lines[j]);
      assert j < |preamble| && preamble[j] == lines[j];
    }
  }

  lemma {:induction false} FirstBulleted(lines: seq<string>)
    requires lines != []
    ensures SectionBulleted(lines, 0) <==> FrontBulleted(lines[1..])
  {
    hide Opens, Bullet;
    var rest := lines[1..];
    if j: nat :| BulletAfter(lines, 0, j) {
      assert forall k | 0 <= k < j - 1 :: rest[k] == lines[k + 1];
      assert BulletBefore(rest, j - 1);
    }
    if j: nat :| BulletBefore(rest, j) {
      assert forall k | 0 < k < j + 1 :: lines[k] == rest[k - 1];
      assert BulletAfter(lines, 0, j + 1);
    }
  }

  lemma {:induction false} LaterBulleted(lines: seq<string>, i: nat)
    requires lines != [] && i > 0
    ensures SectionBulleted(lines, i) <==> SectionBulleted(lines[1..], i - 1)
  {
    hide Opens, Bullet;
    var rest, h: nat := lines[1..], i - 1;
    if j: nat :| BulletAfter(lines, i, j) {
      assert forall k | 0 <= k < |rest| :: rest[k] == lines[k + 1];
      assert BulletAfter(rest, h, j - 1);
    }
    if j: nat :| BulletAfter(rest, h, j) {
      assert forall k | i < k < j + 1 :: lines[k] == rest[k - 1];
      assert BulletAfter(lines, i, j + 1);
    }
  }

  ghost predicate AllBulleted(lines: seq<string>) {
    forall i | 0 <= i < |lines| && Opens(lines[i]) :: SectionBulleted(lines, i)
  }

  lemma {:induction false} AllBulletedIff(lines: seq<string>)
    requires lines != []
    ensures AllBulleted(lines) <==> (Opens(lines[0]) ==> FrontBulleted(lines[1..])) && AllBulleted(lines[1..])
  {
    hide Opens, SectionBulleted, FrontBulleted;
    var rest := lines[1..];
    FirstBulleted(lines);
    if AllBulleted(lines) {
      forall i | 0 <= i < |rest| && Opens(rest[i])
        ensures SectionBulleted(rest, i)
      {
        LaterBulleted(lines, i + 1);
        assert Opens(lines[i + 1]);
      }
    }
    if (Opens(lines[0]) ==> FrontBulleted(rest)) && AllBulleted(rest) {
      forall i | 0 <= i < |lines| && Opens(lines[i])
        ensures SectionBulleted(lines, i)
      {
        if i > 0 {
          LaterBulleted(lines, i);
          assert Opens(rest[i - 1]);
        }
      }
    }
  }

  lemma {:induction false} OneMoreSection(first: Section, more: seq<Section>)
    ensures AllHaveBullets([first] + more) <==> HasBullet(first.lines) && AllHaveBullets(more)
  {
    hide HasBullet;
    var all := [first] + more;
    assert all[0] == first;
    assert forall i | 0 < i < |all| :: all[i] == more[i - 1];
    assert forall i | 0 <= i < |more| :: more[i] == all[i + 1];
  }

  /** Every section has a bullet exactly when one follows each section heading before the next. */
  lemma {:induction false} BulletsIff(lines: seq<string>)
    ensures AllHaveBullets(Sections(lines).sections) <==> AllBulleted(lines)
  {
    if lines != [] {
      BulletsIff(lines[1..]);
      PreambleBullet(lines[1..]);
      AllBulletedIff(lines);
      hide SectionHeading, HasBullet, AllBulleted, FrontBulleted, AllHaveBullets;
      if Opens(lines[0]) {
        OneMoreSection(Section(SectionHeading(lines[0]).value, Sections(lines[1..]).preamble), Sections(lines[1..]).sections);
      }
    }
  }

  /** Blank lines, then a section heading. */
  ghost predicate StartsWithSection(lines: seq<string>, f: nat) {
    f < |lines| && Opens(lines[f]) && forall k | 0 <= k < f :: !Opens(lines[k]) && Blank(lines[k])
  }

  /**
   * A fragment is accepted exactly when every heading line names a section, only blank lines come before the first,
   * and each section heading is followed by a bullet before the next.
   */
  lemma {:induction false} FragmentIff(lines: seq<string>)
    ensures GoodFragment(lines) <==>
            && (forall i | 0 <= i < |lines| && AnyHeading(lines[i]) :: SectionHeading(lines[i]).Some? && SectionHeading(lines[i]).value != "")
            && (exists f: nat :: StartsWithSection(lines, f))
            && (forall i | 0 <= i < |lines| && SectionHeading(lines[i]).Some? :: exists j: nat :: BulletAfter(lines, i, j))
  {
    PreambleIs(lines);
    BulletsIff(lines);
    hide Sections, AnyHeading, SectionHeading, Blank, AllHaveBullets;
    var n := |Sections(lines).preamble|;
    if f: nat :| StartsWithSection(lines, f) { assert n == f; }
    if n < |lines| && AllBlank(Sections(lines).preamble) {
      assert forall k | 0 <= k < n :: lines[k] == Sections(lines).preamble[k];
      assert StartsWithSection(lines, n);
    }
    assert AllBulleted(lines) <==> forall i | 0 <= i < |lines| && SectionHeading(lines[i]).Some? :: SectionBulleted(lines, i);
  }

  // ---- The text ----

  /** Lines, each ended by a line feed or by a carriage return and a line feed. */
  function Written(lines: seq<string>, crlf: seq<bool>): string
    requires |crlf| == |lines|
  {
    if lines == [] then "" else lines[0] + (if crlf[0] then "\r\n" else "\n") + Written(lines[1..], crlf[1..])
  }

  /** Either ending gives back the same lines; only the last line keeps a final carriage return. */
  lemma {:induction false} LinesRead(lines: seq<string>, crlf: seq<bool>, last: string)
    requires |crlf| == |lines| && '\n' !in last
    requires forall i | 0 <= i < |lines| :: '\n' !in lines[i] && (lines[i] == "" || lines[i][|lines[i]| - 1] != '\r')
    ensures FragmentLines(Written(lines, crlf) + last) == lines + [last]
  {
    if lines == [] {
      NothingWritten(lines, crlf, last);
      LastLine(last);
    } else {
      var raw := lines[0] + if crlf[0] then "\r" else "";
      var rest := Written(lines[1..], crlf[1..]) + last;
      WrittenStarts(lines, crlf, last, raw);
      LinesRead(lines[1..], crlf[1..], last);
      hide *;
      SplitAppend(raw, rest, '\n');
      FirstLine(Written(lines, crlf) + last, raw, rest);
      AllLines(lines, last);
    }
  }

  lemma {:induction false} NothingWritten(lines: seq<string>, crlf: seq<bool>, last: string)
    requires lines == [] && |crlf| == |lines|
    ensures Written(lines, crlf) + last == last && lines + [last] == [last]
  {
  }

  lemma {:induction false} AllLines(lines: seq<string>, last: string)
    requires lines != []
    ensures [lines[0]] + (lines[1..] + [last]) == lines + [last]
  {
  }

  lemma {:induction false} LastLine(last: string)
    requires '\n' !in last
    ensures FragmentLines(last) == [last]
  {
    SplitAppend(last, "", '\n');
    hide Split;
  }

  lemma {:induction false} WrittenStarts(lines: seq<string>, crlf: seq<bool>, last: string, raw: string)
    requires |crlf| == |lines| > 0 && raw == lines[0] + if crlf[0] then "\r" else ""
    requires '\n' !in lines[0] && (lines[0] == "" || lines[0][|lines[0]| - 1] != '\r')
    ensures Written(lines, crlf) + last == raw + ['\n'] + (Written(lines[1..], crlf[1..]) + last)
    ensures '\n' !in raw && DropReturn(raw) == lines[0]
  {
    if crlf[0] {
      assert lines[0] + "\r\n" == raw + ['\n'];
    } else {
      assert raw == lines[0];
    }
  }

  lemma {:induction false} FirstLine(content: string, raw: string, rest: string)
    requires Split(content, '\n') == [raw] + Split(rest, '\n')
    ensures FragmentLines(content) == [DropReturn(raw)] + FragmentLines(rest)
  {
    hide Split, DropReturn;
  }
}
