/** Changelog text as sections of lines: splitting, fragments, blank trimming. */
module ChangelogSections {
  import opened ChangelogLines
  import opened Text
  import opened Whitespace
  import opened Wrappers

  datatype Section = Section(heading: string, lines: seq<string>)

  /** Lines before the first section heading, and the sections. */
  datatype Body = Body(preamble: seq<string>, sections: seq<Section>)

  // ---- Splitting ----

  /** A line in front of a body: a heading line takes the preamble as its section's lines. */
  function Under(line: string, rest: Body): Body {
    match SectionHeading(line)
    case Some(h) => Body([], [Section(h, rest.preamble)] + rest.sections)
    case None => Body([line] + rest.preamble, rest.sections)
  }

  /** Each heading line opens a section that owns the lines up to the next one. */
  function Sections(lines: seq<string>): Body {
    if lines == [] then Body([], []) else Under(lines[0], Sections(lines[1..]))
  }

  function AddLine(section: Section, line: string): Section {
    section.(lines := section.lines + [line])
  }

  /** What one more line does to a body. */
  function Push(b: Body, line: string): Body {
    match SectionHeading(line)
    case Some(h) => b.(sections := b.sections + [Section(h, [])])
    case None =>
      if b.sections == [] then b.(preamble := b.preamble + [line])
      else var n := |b.sections| - 1; b.(sections := b.sections[n := AddLine(b.sections[n], line)])
  }

  lemma {:induction false} PushUnder(first: string, rest: Body, line: string)
    ensures Push(Under(first, rest), line) == Under(first, Push(rest, line))
  {
    var b := Under(first, rest);
    if SectionHeading(line).Some? {
    } else if rest.sections == [] {
    } else {
      var n := |rest.sections| - 1;
      if SectionHeading(first).Some? { assert b.sections[n + 1] == rest.sections[n]; }
    }
  }

  lemma {:induction false} SectionsPush(lines: seq<string>, line: string)
    ensures Sections(lines + [line]) == Push(Sections(lines), line)
  {
    if lines == [] {
      assert (lines + [line])[1..] == [];
    } else {
      assert (lines + [line])[1..] == lines[1..] + [line];
      SectionsPush(lines[1..], line);
      PushUnder(lines[0], Sections(lines[1..]), line);
    }
  }

  method SplitSections(body: string) returns (b: Body)
    ensures b == Sections(Split(body, '\n'))
  {
    var preamble, sections := [], [];
    var lines := Split(body, '\n');
    for i := 0 to |lines|
      invariant Body(preamble, sections) == Sections(lines[..i])
    {
      SectionsPush(lines[..i], lines[i]);
      assert lines[..i + 1] == lines[..i] + [lines[i]];
      var heading := SectionHeading(lines[i]);
      if heading.Some? {
        sections := sections + [Section(heading.value, [])];
      } else if sections != [] {
        var current := |sections| - 1;
        sections := sections[current := AddLine(sections[current], lines[i])];
      } else {
        preamble := preamble + [lines[i]];
      }
    }
    assert lines[..|lines|] == lines;
    return Body(preamble, sections);
  }

  // ---- Fragments ----

  /** Lines ended by LF or CRLF. */
  function DropReturn(line: string): string {
    if line != "" && line[|line| - 1] == '\r' then line[..|line| - 1] else line
  }

  function FragmentLines(content: string): (lines: seq<string>)
    ensures lines != []
  {
    var parts := Split(content, '\n');
    seq(|parts|, i requires 0 <= i < |parts| => if i < |parts| - 1 then DropReturn(parts[i]) else parts[i])
  }

  predicate HasBullet(lines: seq<string>) {
    exists i | 0 <= i < |lines| :: Bullet(lines[i])
  }

  predicate AllHaveBullets(sections: seq<Section>) {
    forall i | 0 <= i < |sections| :: HasBullet(sections[i].lines)
  }

  predicate GoodHeading(line: string) {
    AnyHeading(line) ==> SectionHeading(line).Some? && SectionHeading(line).value != ""
  }

  /** Every heading of any level is a non-empty section heading. */
  predicate HeadingsAreSections(lines: seq<string>) {
    forall i | 0 <= i < |lines| :: GoodHeading(lines[i])
  }

  predicate AllBlank(lines: seq<string>) {
    forall i | 0 <= i < |lines| :: Blank(lines[i])
  }

  /** What makes a fragment acceptable. */
  predicate GoodFragment(lines: seq<string>) {
    && HeadingsAreSections(lines) && AllBlank(Sections(lines).preamble)
    && Sections(lines).sections != [] && AllHaveBullets(Sections(lines).sections)
  }

  datatype FragmentError = NotASection(line: nat) | BeforeSection(line: nat) | NoSection | NoBullet(section: nat)

  /** The fault an error names is there, and nothing before it is wrong. */
  predicate ExplainsFault(e: FragmentError, lines: seq<string>) {
    match e
    case NotASection(n) => 0 < n <= |lines| && !GoodHeading(lines[n - 1]) && HeadingsAreSections(lines[..n - 1])
    case BeforeSection(n) =>
      && 0 < n <= |lines| && !AnyHeading(lines[n - 1]) && !Blank(lines[n - 1])
      && Sections(lines[..n - 1]).sections == [] && AllBlank(Sections(lines[..n - 1]).preamble)
    case NoSection => Sections(lines).sections == []
    case NoBullet(i) =>
      var sections := Sections(lines).sections;
      i < |sections| && !HasBullet(sections[i].lines) && AllHaveBullets(sections[..i])
  }

  /** Lines in front of the first heading are the preamble. */
  lemma {:induction false} PreambleStarts(lines: seq<string>, k: nat)
    requires k < |lines| && Sections(lines[..k + 1]).sections == []
    ensures k < |Sections(lines).preamble| && Sections(lines).preamble[k] == lines[k]
  {
    assert lines[..k + 1][0] == lines[0] && lines[..k + 1][1..] == lines[1..][..k];
    if k > 0 { PreambleStarts(lines[1..], k - 1); }
  }

  lemma {:induction false} EmptySections()
    ensures Sections([]) == Body([], [])
  {
  }

  /** The line loop: headings open sections, and only blank lines may come before the first. */
  method ScanFragment(lines: seq<string>) returns (r: Result<seq<Section>, FragmentError>)
    ensures r.Ok? <==> HeadingsAreSections(lines) && AllBlank(Sections(lines).preamble)
    ensures r.Ok? ==> r.value == Sections(lines).sections
    ensures r.Err? ==> ExplainsFault(r.error, lines)
  {
    hide AnyHeading, SectionHeading, Blank, Sections;
    EmptySections();
    assert lines[..0] == [];
    var sections := [];
    ghost var preamble := [];
    for i := 0 to |lines|
      invariant Body(preamble, sections) == Sections(lines[..i]) && AllBlank(preamble)
      invariant forall j | 0 <= j < i :: GoodHeading(lines[j])
    {
      var line := lines[i];
      SectionsPush(lines[..i], line);
      assert lines[..i + 1] == lines[..i] + [line];
      if AnyHeading(line) {
        var heading := SectionHeading(line);
        if heading.None? || heading.value == "" {
          return Err(NotASection(i + 1));
        }
        sections := sections + [Section(heading.value, [])];
        continue;
      }
      NotHeading(line);
      if sections != [] {
        var current := |sections| - 1;
        sections := sections[current := AddLine(sections[current], line)];
        continue;
      }
      if !Blank(line) {
        PreambleStarts(lines, i);
        return Err(BeforeSection(i + 1));
      }
      preamble := preamble + [line];
    }
    assert lines[..|lines|] == lines;
    return Ok(sections);
  }

  /** The first section without a bullet entry. */
  method FindNoBullet(sections: seq<Section>) returns (i: nat)
    ensures i <= |sections| && AllHaveBullets(sections[..i]) && (i < |sections| ==> !HasBullet(sections[i].lines))
    ensures i == |sections| <==> AllHaveBullets(sections)
  {
    i := 0;
    while i < |sections| && HasBullet(sections[i].lines)
      invariant i <= |sections| && AllHaveBullets(sections[..i])
    {
      assert sections[..i + 1] == sections[..i] + [sections[i]];
      i := i + 1;
    }
    assert sections[..|sections|] == sections;
  }

  /** A fragment is accepted exactly when it is well formed, and then split at its headings. */
  method ParseFragment(content: string) returns (r: Result<seq<Section>, FragmentError>)
    ensures r.Ok? <==> GoodFragment(FragmentLines(content))
    ensures r.Ok? ==> r.value == Sections(FragmentLines(content)).sections
    ensures r.Err? ==> ExplainsFault(r.error, FragmentLines(content))
  {
    var lines := FragmentLines(content);
    r := ScanFragment(lines);
    if r.Err? {
      return;
    }
    if r.value == [] {
      return Err(NoSection);
    }
    var missing := FindNoBullet(r.value);
    if missing < |r.value| {
      return Err(NoBullet(missing));
    }
  }

  lemma {:induction false} NotHeading(line: string)
    requires !AnyHeading(line)
    ensures SectionHeading(line).None?
  {
    if SectionHeading(line).Some? { SectionIsHeading(line); }
  }
}
