/** Folding fragments into the unreleased section of a changelog. */
module ChangelogFold {
  import opened ChangelogLines
  import opened ChangelogMerge
  import opened ChangelogSections
  import opened Sorting
  import opened Text
  import opened Whitespace
  import opened Wrappers

  // ---- Plain lines ----

  /** A single line that opens no section and no version. */
  predicate Plain(line: string) {
    '\n' !in line && SectionHeading(line).None? && !VersionHeading(line)
  }

  predicate AllPlain(lines: seq<string>) {
    forall i | 0 <= i < |lines| :: Plain(lines[i])
  }

  predicate PlainSection(s: Section) {
    IsHeadingText(s.heading) && AllPlain(s.lines)
  }

  predicate PlainSections(list: seq<Section>) {
    forall i | 0 <= i < |list| :: PlainSection(list[i])
  }

  /** Single lines none of which opens a version. */
  predicate Unversioned(lines: seq<string>) {
    forall i | 0 <= i < |lines| :: '\n' !in lines[i] && !VersionHeading(lines[i])
  }

  lemma {:induction false} SectionsArePlain(lines: seq<string>)
    requires Unversioned(lines)
    ensures AllPlain(Sections(lines).preamble) && PlainSections(Sections(lines).sections)
  {
    if lines != [] {
      SectionsArePlain(lines[1..]);
      if SectionHeading(lines[0]).Some? { HeadingTextShape(lines[0]); }
    }
  }

  lemma {:induction false} StrippedIsPlain(line: string)
    requires Plain(line)
    ensures Plain(StripTail(line))
  {
    StripMakesNoHeading(line);
  }

  lemma {:induction false} DropBlankIsSlice(lines: seq<string>)
    requires AllPlain(lines)
    ensures AllPlain(DropBlankFront(lines)) && AllPlain(DropBlankBack(lines))
  {
    if lines != [] {
      if Blank(lines[0]) { DropBlankIsSlice(lines[1..]); }
      if Blank(lines[|lines| - 1]) { DropBlankIsSlice(lines[..|lines| - 1]); }
    }
  }

  lemma {:induction false} TrimBlankIsPlain(lines: seq<string>)
    requires AllPlain(lines)
    ensures AllPlain(TrimBlank(lines))
  {
    DropBlankIsSlice(lines);
    DropBlankIsSlice(DropBlankFront(lines));
    var kept := DropBlankBack(DropBlankFront(lines));
    forall i | 0 <= i < |TrimBlank(lines)|
      ensures Plain(TrimBlank(lines)[i])
    {
      StrippedIsPlain(kept[i]);
    }
  }

  lemma {:induction false} JoinedIsPlain(a: Section, b: Section)
    requires PlainSection(a) && PlainSection(b)
    ensures PlainSection(Joined(a, b))
  {
    TrimBlankIsPlain(a.lines);
    TrimBlankIsPlain(b.lines);
  }

  lemma {:induction false} MergeAllIsPlain(lower: Lower, list: seq<Section>, more: seq<Section>)
    requires PlainSections(list) && PlainSections(more)
    ensures PlainSections(MergeAll(lower, list, more))
  {
    if more != [] {
      var n := |more| - 1;
      MergeAllIsPlain(lower, list, more[..n]);
      var all := MergeAll(lower, list, more[..n]);
      var found := LastWith(lower, all, Key(lower, more[n]));
      if found.Some? { JoinedIsPlain(all[found.value], more[n]); }
    }
  }

  lemma {:induction false} MergedIsPlain(lower: Lower, sections: seq<Section>, more: seq<Section>)
    requires PlainSections(sections) && PlainSections(more)
    ensures PlainSections(Merged(lower, sections, more))
  {
    MergeAllIsPlain(lower, sections, more);
    var front, back := MergedParts(lower, sections, more);
    var all, sorted := front + back, Sort(back, ByRank(lower));
    SortPermutes(back, ByRank(lower));
    forall i | 0 <= i < |front + sorted|
      ensures PlainSection((front + sorted)[i])
    {
      if i < |front| {
        assert all[i] == front[i];
      } else {
        var s := sorted[i - |front|];
        assert s in multiset(sorted) && s in multiset(back);
        var k :| 0 <= k < |back| && back[k] == s;
        assert all[|front| + k] == s;
      }
    }
  }

  // ---- Rendering ----

  /** The lines under a heading: entries after one blank line, and one blank line to end with. */
  function Padded(lines: seq<string>): seq<string> {
    var entries := TrimBlank(lines);
    (if entries == [] then [] else [""] + entries) + [""]
  }

  function RenderSections(list: seq<Section>): seq<string> {
    if list == [] then []
    else ["### " + list[0].heading] + Padded(list[0].lines) + RenderSections(list[1..])
  }

  function RenderPreamble(preamble: seq<string>): seq<string> {
    var head := TrimBlank(preamble);
    [""] + if head == [] then [] else head + [""]
  }

  /** The rendered body, line by line. */
  function RenderLines(b: Body): seq<string> {
    RenderPreamble(b.preamble) + RenderSections(b.sections)
  }

  // The text construction: blocks of lines joined by a blank line.

  function SectionBlock(s: Section): (block: seq<string>)
    ensures block != []
  {
    var entries := TrimBlank(s.lines);
    ["### " + s.heading] + if entries == [] then [] else [""] + entries
  }

  /** Blocks with a blank line between them. */
  function Spaced(blocks: seq<seq<string>>): seq<string> {
    if blocks == [] then []
    else if |blocks| == 1 then blocks[0]
    else blocks[0] + [""] + Spaced(blocks[1..])
  }

  function JoinText(texts: seq<string>): string {
    if texts == [] then ""
    else if |texts| == 1 then texts[0]
    else texts[0] + "\n\n" + JoinText(texts[1..])
  }

  function Texts(blocks: seq<seq<string>>): (r: seq<string>)
    ensures |r| == |blocks| && forall i | 0 <= i < |r| :: r[i] == Join(blocks[i], '\n')
  {
    seq(|blocks|, i requires 0 <= i < |blocks| => Join(blocks[i], '\n'))
  }

  lemma {:induction false} JoinAppend(a: seq<string>, b: seq<string>)
    requires a != [] && b != []
    ensures Join(a + b, '\n') == Join(a, '\n') + "\n" + Join(b, '\n')
  {
    if |a| == 1 {
      assert (a + b)[1..] == b && (a + b)[0] == a[0];
    } else {
      assert (a + b)[1..] == a[1..] + b;
      JoinAppend(a[1..], b);
    }
  }

  /** Joining the block texts is joining their lines. */
  lemma {:induction false} JoinTextIs(blocks: seq<seq<string>>)
    requires forall i | 0 <= i < |blocks| :: blocks[i] != []
    ensures JoinText(Texts(blocks)) == Join(Spaced(blocks), '\n')
    ensures blocks != [] ==> Spaced(blocks) != []
  {
    if |blocks| > 1 {
      assert Texts(blocks)[1..] == Texts(blocks[1..]);
      JoinTextIs(blocks[1..]);
      JoinAppend(blocks[0] + [""], Spaced(blocks[1..]));
      JoinAppend(blocks[0], [""]);
    }
  }

  lemma {:induction false} HeadingLineIsSingle(h: string)
    requires IsHeadingText(h)
    ensures '\n' !in "### " + h && !VersionHeading("### " + h)
  {
    RenderedSigns(h);
    assert forall i | 0 <= i < |h| :: !IsLineTerminator(h[i]);
  }

  lemma {:induction false} RenderSectionsUnversioned(list: seq<Section>)
    requires PlainSections(list)
    ensures Unversioned(RenderSections(list))
  {
    if list != [] {
      RenderSectionsUnversioned(list[1..]);
      HeadingLineIsSingle(list[0].heading);
      TrimBlankIsPlain(list[0].lines);
    }
  }

  lemma {:induction false} RenderIsUnversioned(b: Body)
    requires AllPlain(b.preamble) && PlainSections(b.sections)
    ensures Unversioned(RenderLines(b))
  {
    TrimBlankIsPlain(b.preamble);
    RenderSectionsUnversioned(b.sections);
  }

  function SectionBlocks(list: seq<Section>): (r: seq<seq<string>>)
    ensures |r| == |list| && forall i | 0 <= i < |r| :: r[i] == SectionBlock(list[i])
  {
    seq(|list|, i requires 0 <= i < |list| => SectionBlock(list[i]))
  }

  function Blocks(b: Body): (r: seq<seq<string>>)
    ensures forall i | 0 <= i < |r| :: r[i] != []
  {
    var head := TrimBlank(b.preamble);
    (if head == [] then [] else [head]) + SectionBlocks(b.sections)
  }

  lemma {:induction false} SpacedSections(list: seq<Section>)
    requires list != []
    ensures Spaced(SectionBlocks(list)) + [""] == RenderSections(list)
  {
    assert SectionBlock(list[0]) + [""] == ["### " + list[0].heading] + Padded(list[0].lines);
    if |list| > 1 {
      assert SectionBlocks(list)[1..] == SectionBlocks(list[1..]);
      SpacedSections(list[1..]);
    }
  }

  lemma {:induction false} SpacedIsRendered(b: Body)
    requires Blocks(b) != []
    ensures [""] + Spaced(Blocks(b)) + [""] == RenderLines(b)
  {
    var head := TrimBlank(b.preamble);
    if b.sections != [] { SpacedSections(b.sections); }
    if head == [] { assert Blocks(b) == SectionBlocks(b.sections); } else { assert Blocks(b)[1..] == SectionBlocks(b.sections); }
  }

  lemma {:induction false} BlockText(s: Section)
    ensures Join(SectionBlock(s), '\n') ==
            var entries := TrimBlank(s.lines);
            if entries == [] then "### " + s.heading else "### " + s.heading + "\n\n" + Join(entries, '\n')
  {
    var entries := TrimBlank(s.lines);
    if entries != [] {
      JoinAppend(["### " + s.heading], [""] + entries);
      JoinAppend([""], entries);
    }
  }

  lemma {:induction false} InnerLines(lines: seq<string>, rendered: seq<string>)
    requires [""] + lines + [""] == rendered && Unversioned(rendered)
    ensures forall p | p in lines :: '\n' !in p
  {
    hide VersionHeading;
    forall p | p in lines
      ensures '\n' !in p
    {
      var i :| 0 <= i < |lines| && lines[i] == p;
      assert rendered[i + 1] == p;
    }
  }

  lemma {:induction false} SplitSpaced(b: Body)
    requires AllPlain(b.preamble) && PlainSections(b.sections) && Blocks(b) != []
    ensures [""] + Split(JoinText(Texts(Blocks(b))), '\n') + [""] == RenderLines(b)
  {
    RenderIsUnversioned(b);
    SpacedIsRendered(b);
    JoinTextIs(Blocks(b));
    hide VersionHeading, RenderLines, Split, Join, Spaced, Texts, JoinText;
    var lines := Spaced(Blocks(b));
    InnerLines(lines, RenderLines(b));
    SplitJoin(lines, '\n');
  }

  method SectionTexts(list: seq<Section>) returns (texts: seq<string>)
    ensures texts == Texts(SectionBlocks(list))
  {
    hide TrimBlank, SectionBlock, Join;
    texts := [];
    for i := 0 to |list|
      invariant texts == Texts(SectionBlocks(list))[..i]
    {
      var entries := TrimBlankLines(list[i].lines);
      BlockText(list[i]);
      var heading := "### " + list[i].heading;
      texts := texts + [if entries == [] then heading else heading + "\n\n" + Join(entries, '\n')];
    }
  }

  method RenderBodyLines(b: Body) returns (r: seq<string>)
    ensures AllPlain(b.preamble) && PlainSections(b.sections) ==> r == RenderLines(b)
  {
    hide AllPlain, PlainSections, TrimBlank, Join, Split, JoinText, SectionBlocks;
    var head := TrimBlankLines(b.preamble);
    var texts := SectionTexts(b.sections);
    var blocks := (if head == [] then [] else [Join(head, '\n')]) + texts;
    assert blocks == Texts(Blocks(b));
    if blocks == [] {
      return [""];
    }
    if AllPlain(b.preamble) && PlainSections(b.sections) { SplitSpaced(b); }
    return [""] + Split(JoinText(blocks), '\n') + [""];
  }

  // ---- The unreleased region ----

  datatype Region = Region(heading: nat, end: nat)

  /** The first unreleased heading, and the next version heading after it or the end of the file. */
  ghost predicate IsRegion(lines: seq<string>, r: Region) {
    && r.heading < r.end <= |lines| && UnreleasedHeading(lines[r.heading])
    && (forall i | 0 <= i < r.heading :: !UnreleasedHeading(lines[i]))
    && (forall i | r.heading < i < r.end :: !VersionHeading(lines[i]))
    && (r.end < |lines| ==> VersionHeading(lines[r.end]))
  }

  ghost predicate HasUnreleased(lines: seq<string>) {
    exists i | 0 <= i < |lines| :: UnreleasedHeading(lines[i])
  }

  method LocateUnreleased(content: string) returns (r: Option<Region>)
    ensures r.Some? <==> HasUnreleased(Split(content, '\n'))
    ensures r.Some? ==> IsRegion(Split(content, '\n'), r.value)
  {
    var lines := Split(content, '\n');
    for heading := 0 to |lines|
      invariant forall i | 0 <= i < heading :: !UnreleasedHeading(lines[i])
    {
      if UnreleasedHeading(lines[heading]) {
        for next := heading + 1 to |lines|
          invariant forall i | heading < i < next :: !VersionHeading(lines[i])
        {
          if VersionHeading(lines[next]) {
            return Some(Region(heading, next));
          }
        }
        return Some(Region(heading, |lines|));
      }
    }
    return None;
  }

  // ---- The fold ----

  /** The unreleased body's lines as the text between the headings is split again; never empty. */
  function BodyLines(lines: seq<string>, r: Region): seq<string>
    requires r.heading < r.end <= |lines|
  {
    if r.heading + 1 == r.end then [""] else lines[r.heading + 1..r.end]
  }

  function FoldedBody(lower: Lower, lines: seq<string>, r: Region, more: seq<Section>): Body
    requires r.heading < r.end <= |lines|
  {
    var b := Sections(BodyLines(lines, r));
    Body(b.preamble, Merged(lower, b.sections, more))
  }

  function FoldedLines(lower: Lower, lines: seq<string>, r: Region, more: seq<Section>): seq<string>
    requires r.heading < r.end <= |lines|
  {
    lines[..r.heading + 1] + RenderLines(FoldedBody(lower, lines, r, more)) + lines[r.end..]
  }

  predicate SingleLines(lines: seq<string>) {
    forall i | 0 <= i < |lines| :: '\n' !in lines[i]
  }

  lemma {:induction false} BodyIsUnversioned(lines: seq<string>, r: Region)
    requires SingleLines(lines) && IsRegion(lines, r)
    ensures Unversioned(BodyLines(lines, r))
  {
  }

  lemma {:induction false} FoldedBodyIsPlain(lower: Lower, lines: seq<string>, r: Region, more: seq<Section>)
    requires SingleLines(lines) && IsRegion(lines, r) && PlainSections(more)
    ensures AllPlain(FoldedBody(lower, lines, r, more).preamble) && PlainSections(FoldedBody(lower, lines, r, more).sections)
    ensures Unversioned(RenderLines(FoldedBody(lower, lines, r, more)))
  {
    BodyIsUnversioned(lines, r);
    SectionsArePlain(BodyLines(lines, r));
    MergedIsPlain(lower, Sections(BodyLines(lines, r)).sections, more);
    RenderIsUnversioned(FoldedBody(lower, lines, r, more));
  }

  lemma {:induction false} SplitBody(lines: seq<string>, r: Region)
    requires SingleLines(lines) && r.heading < r.end <= |lines|
    ensures Split(Join(lines[r.heading + 1..r.end], '\n'), '\n') == BodyLines(lines, r)
  {
    var slice := lines[r.heading + 1..r.end];
    if slice != [] {
      forall p | p in slice
        ensures '\n' !in p
      {
        var i :| 0 <= i < |slice| && slice[i] == p;
        assert lines[r.heading + 1 + i] == p;
      }
      SplitJoin(slice, '\n');
    }
  }

  lemma {:induction false} SplitOfJoin(lines: seq<string>)
    requires lines != [] && SingleLines(lines)
    ensures Split(Join(lines, '\n'), '\n') == lines
  {
    forall p | p in lines
      ensures '\n' !in p
    {
      var i :| 0 <= i < |lines| && lines[i] == p;
    }
    SplitJoin(lines, '\n');
  }

  lemma {:induction false} SplitIsSingle(content: string)
    ensures SingleLines(Split(content, '\n'))
  {
    var lines := Split(content, '\n');
    forall i | 0 <= i < |lines|
      ensures '\n' !in lines[i]
    {
      assert lines[i] in lines;
    }
  }

  lemma {:induction false} FoldedIsSingle(lower: Lower, lines: seq<string>, r: Region, more: seq<Section>)
    requires SingleLines(lines) && IsRegion(lines, r) && PlainSections(more)
    ensures SingleLines(FoldedLines(lower, lines, r, more)) && FoldedLines(lower, lines, r, more) != []
  {
    FoldedBodyIsPlain(lower, lines, r, more);
    hide VersionHeading, RenderLines, FoldedBody, PlainSections, AllPlain;
    SingleAround(lines[..r.heading + 1], RenderLines(FoldedBody(lower, lines, r, more)), lines[r.end..]);
  }

  lemma {:induction false} SingleAround(a: seq<string>, b: seq<string>, c: seq<string>)
    requires SingleLines(a) && SingleLines(b) && SingleLines(c)
    ensures SingleLines(a + b + c)
  {
  }

  lemma {:induction false} FoldedText(lower: Lower, lines: seq<string>, r: Region, more: seq<Section>, merged: Body, rendered: seq<string>, out: seq<string>)
    requires SingleLines(lines) && IsRegion(lines, r) && PlainSections(more)
    requires merged == FoldedBody(lower, lines, r, more)
    requires AllPlain(merged.preamble) && PlainSections(merged.sections) ==> rendered == RenderLines(merged)
    requires out == lines[..r.heading + 1] + rendered + lines[r.end..]
    ensures Split(Join(out, '\n'), '\n') == FoldedLines(lower, lines, r, more)
  {
    FoldedBodyIsPlain(lower, lines, r, more);
    FoldedIsSingle(lower, lines, r, more);
    SplitOfJoin(out);
  }

  datatype FoldError = NoUnreleasedSection

  method FoldFragmentsIntoChangelog(lower: Lower, content: string, fragments: seq<Fragment>)
    returns (r: Result<string, FoldError>, ghost region: Region)
    ensures fragments == [] ==> r == Ok(content)
    ensures fragments != [] ==> (r.Ok? <==> HasUnreleased(Split(content, '\n')))
    ensures fragments != [] && r.Ok? ==> IsRegion(Split(content, '\n'), region)
    ensures fragments != [] && r.Ok? && PlainSections(Flatten(fragments)) ==>
              Split(r.value, '\n') == FoldedLines(lower, Split(content, '\n'), region, Flatten(fragments))
  {
    region := Region(0, 0);
    if fragments == [] {
      return Ok(content), region;
    }
    var located := LocateUnreleased(content);
    if located.None? {
      return Err(NoUnreleasedSection), region;
    }
    region := located.value;
    var lines, found := Split(content, '\n'), located.value;
    SplitIsSingle(content);
    SplitBody(lines, found);
    var merged := MergeUnreleasedBody(lower, Join(lines[found.heading + 1..found.end], '\n'), fragments);
    var rendered := RenderBodyLines(merged);
    var out := lines[..found.heading + 1] + rendered + lines[found.end..];
    if PlainSections(Flatten(fragments)) { FoldedText(lower, lines, found, Flatten(fragments), merged, rendered, out); }
    return Ok(Join(out, '\n')), region;
  }

  // ---- What a fold keeps ----

  /** Lines outside the body are untouched, and looking again finds the same heading and the same tail. */
  lemma {:induction false} FoldKeepsRest(lower: Lower, lines: seq<string>, r: Region, more: seq<Section>)
    requires SingleLines(lines) && IsRegion(lines, r) && PlainSections(more)
    ensures var out := FoldedLines(lower, lines, r, more);
            var end := r.heading + 1 + |RenderLines(FoldedBody(lower, lines, r, more))|;
            && IsRegion(out, Region(r.heading, end)) && out[..r.heading + 1] == lines[..r.heading + 1]
            && out[end..] == lines[r.end..] && out[r.heading + 1..end] == RenderLines(FoldedBody(lower, lines, r, more))
  {
    var rendered := RenderLines(FoldedBody(lower, lines, r, more));
    FoldedBodyIsPlain(lower, lines, r, more);
    SplicedRegion(lines, r, rendered);
  }

  lemma {:induction false} SplicedRegion(lines: seq<string>, r: Region, rendered: seq<string>)
    requires IsRegion(lines, r) && Unversioned(rendered)
    ensures var out := lines[..r.heading + 1] + rendered + lines[r.end..];
            var end := r.heading + 1 + |rendered|;
            && IsRegion(out, Region(r.heading, end)) && out[..r.heading + 1] == lines[..r.heading + 1]
            && out[end..] == lines[r.end..] && out[r.heading + 1..end] == rendered
  {
    var out, end := lines[..r.heading + 1] + rendered + lines[r.end..], r.heading + 1 + |rendered|;
    assert forall i | 0 <= i <= r.heading :: out[i] == lines[i];
    assert forall i | r.heading < i < end :: out[i] == rendered[i - (r.heading + 1)];
    assert end < |out| ==> out[end] == lines[r.end];
  }

  // ---- What the rendered body contains ----

  lemma {:induction false} PaddedEntries(lines: seq<string>)
    ensures Entries(Padded(lines)) == Entries(lines)
  {
    var entries := TrimBlank(lines);
    EntriesTrim(lines);
    var front := if entries == [] then [] else [""] + entries;
    EntriesAppend(front, [""]);
    EntriesAppend([""], entries);
    assert Entries([""]) == [];
  }

  lemma {:induction false} PreambleEntries(preamble: seq<string>)
    ensures Entries(RenderPreamble(preamble)) == Entries(preamble)
  {
    var head := TrimBlank(preamble);
    EntriesTrim(preamble);
    assert Entries([""]) == [];
    if head != [] {
      EntriesAppend([""], head + [""]);
      EntriesAppend(head, [""]);
    }
  }

  // ---- Splitting the rendered body again ----

  function Headings(list: seq<Section>): seq<string> {
    if list == [] then [] else [list[0].heading] + Headings(list[1..])
  }

  function NonEmpty(headings: seq<string>): seq<string> {
    if headings == [] then []
    else (if headings[0] == "" then [] else [headings[0]]) + NonEmpty(headings[1..])
  }

  function HeadingsIn(lines: seq<string>): seq<string> {
    if lines == [] then []
    else (match SectionHeading(lines[0]) case Some(h) => [h] case None => []) + HeadingsIn(lines[1..])
  }

  lemma {:induction false} SectionsHeadings(lines: seq<string>)
    ensures Headings(Sections(lines).sections) == HeadingsIn(lines)
  {
    if lines != [] {
      SectionsHeadings(lines[1..]);
      var rest := Sections(lines[1..]);
      if SectionHeading(lines[0]).Some? {
        assert Sections(lines).sections[1..] == rest.sections;
      }
    }
  }

  lemma {:induction false} HeadingsInAppend(a: seq<string>, b: seq<string>)
    ensures HeadingsIn(a + b) == HeadingsIn(a) + HeadingsIn(b)
  {
    if a == [] {
      assert a + b == b;
    } else {
      assert (a + b)[1..] == a[1..] + b;
      HeadingsInAppend(a[1..], b);
    }
  }

  lemma {:induction false} PlainHasNoHeadings(lines: seq<string>)
    requires AllPlain(lines)
    ensures HeadingsIn(lines) == []
  {
    if lines != [] { PlainHasNoHeadings(lines[1..]); }
  }

  lemma {:induction false} PaddedIsPlain(lines: seq<string>)
    requires AllPlain(lines)
    ensures AllPlain(Padded(lines))
  {
    TrimBlankIsPlain(lines);
  }

  lemma {:induction false} RenderedHeadings(list: seq<Section>)
    requires PlainSections(list)
    ensures HeadingsIn(RenderSections(list)) == NonEmpty(Headings(list))
  {
    hide SectionHeading, IsHeadingText, AllPlain, Padded;
    if list != [] {
      var line := "### " + list[0].heading;
      RenderedHeading(list[0].heading);
      PaddedIsPlain(list[0].lines);
      PlainHasNoHeadings(Padded(list[0].lines));
      RenderedHeadings(list[1..]);
      HeadingsInAppend([line] + Padded(list[0].lines), RenderSections(list[1..]));
      HeadingsInAppend([line], Padded(list[0].lines));
      assert HeadingsIn([line]) == NonEmpty([list[0].heading]);
    }
  }

  /** Splitting the rendered body finds exactly the headings that are not empty. */
  lemma {:induction false} ResplitHeadings(b: Body)
    requires AllPlain(b.preamble) && PlainSections(b.sections)
    ensures Headings(Sections(RenderLines(b)).sections) == NonEmpty(Headings(b.sections))
  {
    SectionsHeadings(RenderLines(b));
    HeadingsInAppend(RenderPreamble(b.preamble), RenderSections(b.sections));
    TrimBlankIsPlain(b.preamble);
    PlainHasNoHeadings(RenderPreamble(b.preamble));
    RenderedHeadings(b.sections);
  }

  predicate Tight(lines: seq<string>) {
    && (lines == [] || (!Blank(lines[0]) && !Blank(lines[|lines| - 1])))
    && forall i | 0 <= i < |lines| :: StripTail(lines[i]) == lines[i]
  }

  lemma {:induction false} DropFrontIsTight(lines: seq<string>)
    ensures DropBlankFront(lines) == [] || !Blank(DropBlankFront(lines)[0])
  {
    if lines != [] && Blank(lines[0]) { DropFrontIsTight(lines[1..]); }
  }

  lemma {:induction false} DropBackIsTight(lines: seq<string>)
    ensures DropBlankBack(lines) <= lines
    ensures DropBlankBack(lines) == [] || !Blank(DropBlankBack(lines)[|DropBlankBack(lines)| - 1])
  {
    if lines != [] && Blank(lines[|lines| - 1]) { DropBackIsTight(lines[..|lines| - 1]); }
  }

  lemma {:induction false} TrimBlankIsTight(lines: seq<string>)
    ensures Tight(TrimBlank(lines))
  {
    var front := DropBlankFront(lines);
    DropFrontIsTight(lines);
    DropBackIsTight(front);
    var kept := DropBlankBack(front);
    forall i | 0 <= i < |kept|
      ensures StripTail(TrimBlank(lines)[i]) == TrimBlank(lines)[i]
      ensures Blank(TrimBlank(lines)[i]) <==> Blank(kept[i])
    {
      StripTwice(kept[i]);
      StripKeepsBlank(kept[i]);
    }
  }

  /** Blank lines around tight lines are all that trimming removes. */
  lemma {:induction false} TrimPadded(e: seq<string>, padded: seq<string>)
    requires Tight(e) && padded == (if e == [] then [] else [""] + e) + [""]
    ensures TrimBlank(padded) == e
  {
    if e == [] {
      DropFrontSlice(padded, 1);
    } else {
      DropFrontSlice(padded, 1);
      assert padded[1..] == e + [""];
      DropBackSlice(e + [""], |e|);
    }
    assert Stripped(e) == e;
  }

  lemma {:induction false} TrimAgain(lines: seq<string>)
    ensures TrimBlank(Padded(lines)) == TrimBlank(lines)
  {
    TrimBlankIsTight(lines);
    TrimPadded(TrimBlank(lines), Padded(lines));
  }

  function PaddedSections(list: seq<Section>): seq<Section> {
    if list == [] then [] else [Section(list[0].heading, Padded(list[0].lines))] + PaddedSections(list[1..])
  }

  lemma {:induction false} PlainPrefix(a: seq<string>, b: seq<string>)
    requires AllPlain(a)
    ensures Sections(a + b) == Body(a + Sections(b).preamble, Sections(b).sections)
  {
    if a == [] {
      assert a + b == b;
    } else {
      assert (a + b)[1..] == a[1..] + b;
      PlainPrefix(a[1..], b);
    }
  }

  ghost predicate AllNamed(list: seq<Section>) {
    forall i | 0 <= i < |list| :: list[i].heading != ""
  }

  lemma {:induction false} SectionsCons(line: string, tail: seq<string>)
    ensures Sections([line] + tail) == Under(line, Sections(tail))
  {
    assert ([line] + tail)[1..] == tail;
  }

  lemma {:induction false} Associate(line: string, mid: seq<string>, rest: seq<string>)
    ensures [line] + mid + rest == [line] + (mid + rest) && mid + [] == mid
  {
  }

  lemma {:induction false} UnderPlain(line: string, h: string, mid: seq<string>, after: Body, rest: Body)
    requires SectionHeading(line) == Some(h) && after == Body(mid + rest.preamble, rest.sections) && rest.preamble == []
    ensures Under(line, after) == Body([], [Section(h, mid)] + rest.sections)
  {
    assert mid + [] == mid;
  }

  lemma {:induction false} HeadingThenPlain(line: string, h: string, mid: seq<string>, rest: seq<string>)
    requires SectionHeading(line) == Some(h) && AllPlain(mid) && Sections(rest).preamble == []
    ensures Sections([line] + mid + rest) == Body([], [Section(h, mid)] + Sections(rest).sections)
  {
    Associate(line, mid, rest);
    SectionsCons(line, mid + rest);
    PlainPrefix(mid, rest);
    UnderPlain(line, h, mid, Sections(mid + rest), Sections(rest));
  }

  lemma {:induction false} OneSection(s: Section, rest: seq<string>)
    requires PlainSection(s) && s.heading != "" && Sections(rest).preamble == []
    ensures Sections(["### " + s.heading] + Padded(s.lines) + rest)
            == Body([], [Section(s.heading, Padded(s.lines))] + Sections(rest).sections)
  {
    RenderedHeading(s.heading);
    PaddedIsPlain(s.lines);
    HeadingThenPlain("### " + s.heading, s.heading, Padded(s.lines), rest);
  }

  lemma {:induction false} ResplitSections(list: seq<Section>)
    requires PlainSections(list) && AllNamed(list)
    ensures Sections(RenderSections(list)) == Body([], PaddedSections(list))
  {
    if list != [] {
      ResplitSections(list[1..]);
      OneSection(list[0], RenderSections(list[1..]));
    }
  }

  lemma {:induction false} PreambleIsPlain(preamble: seq<string>)
    requires AllPlain(preamble)
    ensures AllPlain(RenderPreamble(preamble))
  {
    TrimBlankIsPlain(preamble);
  }

  lemma {:induction false} TrimPreamble(preamble: seq<string>)
    ensures TrimBlank(RenderPreamble(preamble)) == TrimBlank(preamble)
  {
    TrimBlankIsTight(preamble);
    TrimPadded(TrimBlank(preamble), RenderPreamble(preamble));
  }

  /** With headings that are not empty, splitting the rendered body gives back the same sections up to blank lines. */
  lemma {:induction false} Resplit(b: Body)
    requires AllPlain(b.preamble) && PlainSections(b.sections) && AllNamed(b.sections)
    ensures Sections(RenderLines(b)) == Body(RenderPreamble(b.preamble), PaddedSections(b.sections))
    ensures TrimBlank(RenderPreamble(b.preamble)) == TrimBlank(b.preamble)
    ensures forall i | 0 <= i < |b.sections| :: TrimBlank(Padded(b.sections[i].lines)) == TrimBlank(b.sections[i].lines)
  {
    ResplitSections(b.sections);
    PreambleIsPlain(b.preamble);
    PlainPrefix(RenderPreamble(b.preamble), RenderSections(b.sections));
    TrimPreamble(b.preamble);
    forall i | 0 <= i < |b.sections|
      ensures TrimBlank(Padded(b.sections[i].lines)) == TrimBlank(b.sections[i].lines)
    {
      TrimAgain(b.sections[i].lines);
    }
  }

  // ---- Fragments as parsed ----

  lemma {:induction false} GoodLinesArePlain(lines: seq<string>)
    requires SingleLines(lines) && HeadingsAreSections(lines)
    ensures AllPlain(Sections(lines).preamble) && PlainSections(Sections(lines).sections) && AllNamed(Sections(lines).sections)
  {
    hide SectionHeading, VersionHeading, AnyHeading, IsHeadingText;
    if lines != [] {
      GoodLinesArePlain(lines[1..]);
      assert GoodHeading(lines[0]);
      if SectionHeading(lines[0]).Some? {
        HeadingTextShape(lines[0]);
        SectionIsHeading(lines[0]);
      } else if VersionHeading(lines[0]) {
        VersionIsHeading(lines[0]);
      }
    }
  }

  lemma {:induction false} FragmentLinesAreSingle(content: string)
    ensures SingleLines(FragmentLines(content))
  {
    SplitIsSingle(content);
    hide Split;
  }

  /** Every accepted fragment consists of named sections of plain lines, each with a bullet. */
  lemma {:induction false} ParsedIsPlain(content: string)
    requires GoodFragment(FragmentLines(content))
    ensures PlainSections(Sections(FragmentLines(content)).sections) && AllNamed(Sections(FragmentLines(content)).sections)
    ensures AllHaveBullets(Sections(FragmentLines(content)).sections)
  {
    SplitIsSingle(content);
    FragmentLinesAreSingle(content);
    hide Sections, FragmentLines, SingleLines, PlainSections, AllNamed;
    GoodLinesArePlain(FragmentLines(content));
  }

  lemma {:induction false} FlattenKeeps(fragments: seq<Fragment>, f: Fragment)
    requires PlainSections(Flatten(fragments)) && AllNamed(Flatten(fragments)) && PlainSections(f) && AllNamed(f)
    ensures PlainSections(Flatten(fragments + [f])) && AllNamed(Flatten(fragments + [f]))
  {
    hide PlainSection;
    assert (fragments + [f])[..|fragments|] == fragments;
  }

  predicate ReadsAs(content: string, f: Fragment) {
    GoodFragment(FragmentLines(content)) && f == Sections(FragmentLines(content)).sections
  }

  /** A package's fragments in file order; the first malformed one stops the reading. */
  method ReadPackageFragments(contents: seq<string>) returns (r: Result<seq<Fragment>, FragmentError>)
    ensures r.Ok? <==> forall i | 0 <= i < |contents| :: GoodFragment(FragmentLines(contents[i]))
    ensures r.Ok? ==> |r.value| == |contents| && forall i | 0 <= i < |contents| :: ReadsAs(contents[i], r.value[i])
    ensures r.Ok? ==> PlainSections(Flatten(r.value)) && AllNamed(Flatten(r.value))
    ensures r.Err? ==> exists i | 0 <= i < |contents| ::
              && ExplainsFault(r.error, FragmentLines(contents[i])) && !GoodFragment(FragmentLines(contents[i]))
              && forall j | 0 <= j < i :: GoodFragment(FragmentLines(contents[j]))
  {
    hide GoodFragment, FragmentLines, Sections, PlainSection, ExplainsFault;
    var fragments := [];
    for i := 0 to |contents|
      invariant |fragments| == i && forall j | 0 <= j < i :: ReadsAs(contents[j], fragments[j])
      invariant PlainSections(Flatten(fragments)) && AllNamed(Flatten(fragments))
    {
      var sections := ParseFragment(contents[i]);
      if sections.Err? {
        return Err(sections.error);
      }
      ParsedIsPlain(contents[i]);
      FlattenKeeps(fragments, sections.value);
      fragments := fragments + [sections.value];
    }
    return Ok(fragments);
  }

  // ---- Conservation of entry lines, from text to text ----

  /** The non-blank lines that are not section headings. */
  function TextEntries(lines: seq<string>): seq<string> {
    if lines == [] then []
    else (if SectionHeading(lines[0]).Some? then [] else Entries([lines[0]])) + TextEntries(lines[1..])
  }

  lemma {:induction false} EntriesCons(line: string, rest: seq<string>)
    ensures Entries([line] + rest) == Entries([line]) + Entries(rest)
  {
    EntriesAppend([line], rest);
  }

  lemma {:induction false} BodyEntries(lines: seq<string>)
    ensures TextEntries(lines) == Entries(Sections(lines).preamble) + AllEntries(Sections(lines).sections)
  {
    if lines != [] {
      BodyEntries(lines[1..]);
      var rest := Sections(lines[1..]);
      match SectionHeading(lines[0])
      case Some(h) => assert ([Section(h, rest.preamble)] + rest.sections)[1..] == rest.sections;
      case None => EntriesCons(lines[0], rest.preamble);
    }
  }

  lemma {:induction false} TextEntriesAppend(a: seq<string>, b: seq<string>)
    ensures TextEntries(a + b) == TextEntries(a) + TextEntries(b)
  {
    if a == [] {
      assert a + b == b;
    } else {
      assert (a + b)[1..] == a[1..] + b;
      TextEntriesAppend(a[1..], b);
    }
  }

  lemma {:induction false} PlainTextEntries(lines: seq<string>)
    requires AllPlain(lines)
    ensures TextEntries(lines) == Entries(lines)
  {
    if lines != [] {
      PlainTextEntries(lines[1..]);
      EntriesCons(lines[0], lines[1..]);
      assert lines == [lines[0]] + lines[1..];
    }
  }

  /** Entries as a reader of the rendered text finds them: a heading rendered from nothing reads as an entry. */
  function VisibleEntries(list: seq<Section>): seq<string> {
    if list == [] then []
    else (if list[0].heading == "" then [StripTail("### ")] else []) + Entries(list[0].lines) + VisibleEntries(list[1..])
  }

  lemma {:induction false} HeadingTextEntries(h: string)
    requires IsHeadingText(h)
    ensures TextEntries(["### " + h]) == if h == "" then [StripTail("### ")] else []
  {
    var line := "### " + h;
    RenderedHeading(h);
    RenderedIsNotBlank(h);
    assert [line][1..] == [] && TextEntries([]) == [] && Entries([]) == [];
    if h == "" { assert line == "### "; }
  }

  lemma {:induction false} RenderSectionsText(list: seq<Section>)
    requires PlainSections(list)
    ensures TextEntries(RenderSections(list)) == VisibleEntries(list)
  {
    if list != [] {
      var line := "### " + list[0].heading;
      HeadingTextEntries(list[0].heading);
      PaddedIsPlain(list[0].lines);
      PlainTextEntries(Padded(list[0].lines));
      PaddedEntries(list[0].lines);
      RenderSectionsText(list[1..]);
      TextEntriesAppend([line] + Padded(list[0].lines), RenderSections(list[1..]));
      TextEntriesAppend([line], Padded(list[0].lines));
    }
  }

  lemma {:induction false} RenderText(b: Body)
    requires AllPlain(b.preamble) && PlainSections(b.sections)
    ensures TextEntries(RenderLines(b)) == Entries(b.preamble) + VisibleEntries(b.sections)
  {
    PreambleIsPlain(b.preamble);
    PlainTextEntries(RenderPreamble(b.preamble));
    PreambleEntries(b.preamble);
    RenderSectionsText(b.sections);
    TextEntriesAppend(RenderPreamble(b.preamble), RenderSections(b.sections));
  }

  function Unnamed(list: seq<Section>): nat {
    if list == [] then 0 else (if list[0].heading == "" then 1 else 0) + Unnamed(list[1..])
  }

  lemma {:induction false} VisibleCount(list: seq<Section>)
    ensures |VisibleEntries(list)| == |AllEntries(list)| + Unnamed(list)
    ensures Unnamed(list) == 0 ==> VisibleEntries(list) == AllEntries(list)
    ensures Unnamed(list) == 0 <==> AllNamed(list)
  {
    hide Entries, StripTail;
    if list != [] { VisibleCount(list[1..]); }
  }

  lemma {:induction false} MergedNamed(lower: Lower, sections: seq<Section>, more: seq<Section>)
    requires AllNamed(more)
    ensures AllNamed(Merged(lower, sections, more)) <==> AllNamed(sections)
  {
    MergedShape(lower, sections, more);
    var merged, n := Merged(lower, sections, more), |sections|;
    forall i | n <= i < |merged|
      ensures merged[i].heading != ""
    {
      assert Names(more, merged[n..][i - n].heading);
    }
  }

  lemma {:induction false} Counted(p: seq<string>, v: seq<string>, m: seq<string>, o: seq<string>, f: seq<string>, extra: nat)
    requires |v| == |m| + extra && (extra == 0 ==> v == m) && multiset(m) == multiset(o) + multiset(f)
    ensures multiset(p + v) == multiset(p + o) + multiset(f) <==> extra == 0
  {
    assert |multiset(m)| == |m| && |multiset(o)| == |o| && |multiset(f)| == |f| && |multiset(v)| == |v|;
    assert |multiset(p + v)| == |p + v| && |multiset(p + o)| == |p + o|;
  }

  /**
   * A fold conserves the entry lines of the text, each as often as before, exactly when no section already
   * there has an empty heading.
   */
  lemma {:induction false} FoldConservesIff(lower: Lower, lines: seq<string>, r: Region, more: seq<Section>)
    requires SingleLines(lines) && IsRegion(lines, r) && PlainSections(more) && AllNamed(more)
    ensures multiset(TextEntries(RenderLines(FoldedBody(lower, lines, r, more))))
              == multiset(TextEntries(BodyLines(lines, r))) + multiset(AllEntries(more))
            <==> AllNamed(Sections(BodyLines(lines, r)).sections)
  {
    var b := Sections(BodyLines(lines, r));
    var merged := Merged(lower, b.sections, more);
    FoldedBodyIsPlain(lower, lines, r, more);
    RenderText(FoldedBody(lower, lines, r, more));
    BodyEntries(BodyLines(lines, r));
    MergedConserves(lower, b.sections, more);
    VisibleCount(merged);
    MergedNamed(lower, b.sections, more);
    Counted(Entries(b.preamble), VisibleEntries(merged), AllEntries(merged), AllEntries(b.sections), AllEntries(more), Unnamed(merged));
  }

  lemma {:induction false} BlankHeading()
    ensures SectionHeading("###  ") == Some("") && !VersionHeading("###  ")
  {
    var line := "###  ";
    SpaceFacts();
    SpacesAreBlank();
    hide IsSpace, Blank, Trim;
    var a, b := TrimShape("  ");
    assert line[..3] == "###" && line[2] == '#' && line[3] == ' ' && line[3..] == "  ";
    assert !IsLineTerminator(line[3..][1]);
  }

  lemma {:induction false} UnreleasedLine()
    ensures UnreleasedHeading("## [Unreleased]")
  {
    var top := "## [Unreleased]";
    SpaceFacts();
    SpacesAreBlank();
    hide IsSpace, Blank, Trim;
    assert top[..2] == "##" && top[2] == ' ' && top[2..] == " [Unreleased]";
    assert " " + "[Unreleased]" + "" == " [Unreleased]";
    TrimIs(" ", "[Unreleased]", "");
  }

  lemma {:induction false} OneHeadingLine(line: string)
    requires SectionHeading(line) == Some("")
    ensures !AllNamed(Sections([line]).sections)
  {
    assert [line][1..] == [];
    assert Sections([line]) == Under(line, Sections([]));
    assert Sections([line]).sections[0].heading == "";
  }

  /** Three number signs followed by two spaces, in the unreleased body, come back as an entry no one wrote. */
  lemma {:induction false} FoldCanInventAnEntry(lower: Lower, more: seq<Section>, lines: seq<string>)
    requires PlainSections(more) && AllNamed(more) && lines == ["## [Unreleased]", "###  "]
    ensures IsRegion(lines, Region(0, 2))
    ensures multiset(TextEntries(RenderLines(FoldedBody(lower, lines, Region(0, 2), more))))
              != multiset(TextEntries(BodyLines(lines, Region(0, 2)))) + multiset(AllEntries(more))
  {
    BlankHeading();
    UnreleasedLine();
    hide SectionHeading, UnreleasedHeading, TextEntries, RenderLines, FoldedBody, AllEntries, Sections, PlainSection;
    assert BodyLines(lines, Region(0, 2)) == [lines[1]];
    OneHeadingLine(lines[1]);
    FoldConservesIff(lower, lines, Region(0, 2), more);
  }
}
