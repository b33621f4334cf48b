/** Merging fragment sections into the sections of the unreleased body. */
module ChangelogMerge {
  import opened ChangelogLines
  import opened ChangelogSections
  import opened Sorting
  import opened Text
  import opened Whitespace
  import opened Wrappers

  // ---- Blank lines and entries ----

  function DropBlankFront(lines: seq<string>): seq<string> {
    if lines != [] && Blank(lines[0]) then DropBlankFront(lines[1..]) else lines
  }

  function DropBlankBack(lines: seq<string>): seq<string> {
    if lines != [] && Blank(lines[|lines| - 1]) then DropBlankBack(lines[..|lines| - 1]) else lines
  }

  function Stripped(lines: seq<string>): (r: seq<string>)
    ensures |r| == |lines| && forall i | 0 <= i < |r| :: r[i] == StripTail(lines[i])
  {
    seq(|lines|, i requires 0 <= i < |lines| => StripTail(lines[i]))
  }

  function TrimBlank(lines: seq<string>): seq<string> {
    Stripped(DropBlankBack(DropBlankFront(lines)))
  }

  lemma {:induction false} DropFrontSlice(lines: seq<string>, start: nat)
    requires start <= |lines| && AllBlank(lines[..start]) && (start < |lines| ==> !Blank(lines[start]))
    ensures DropBlankFront(lines) == lines[start..]
  {
    if start > 0 {
      assert lines[..start][0] == lines[0];
      assert lines[1..][..start - 1] == lines[..start][1..];
      DropFrontSlice(lines[1..], start - 1);
      assert lines[1..][start - 1..] == lines[start..];
    }
  }

  lemma {:induction false} DropBackSlice(lines: seq<string>, end: nat)
    requires end <= |lines| && AllBlank(lines[end..]) && (end > 0 ==> !Blank(lines[end - 1]))
    ensures DropBlankBack(lines) == lines[..end]
  {
    if end < |lines| {
      var n := |lines| - 1;
      assert lines[end..][n - end] == lines[n];
      assert forall i | 0 <= i < n - end :: lines[..n][end..][i] == lines[end..][i];
      DropBackSlice(lines[..n], end);
      assert lines[..n][..end] == lines[..end];
    } else {
      assert lines[..end] == lines;
    }
  }

  method TrimBlankLines(lines: seq<string>) returns (r: seq<string>)
    ensures r == TrimBlank(lines)
  {
    var start, end := 0, |lines|;
    while start < end && Blank(lines[start])
      invariant start <= end == |lines| && AllBlank(lines[..start])
    {
      assert lines[..start + 1] == lines[..start] + [lines[start]];
      start := start + 1;
    }
    DropFrontSlice(lines, start);
    while end > start && Blank(lines[end - 1])
      invariant start <= end <= |lines| && AllBlank(lines[end..])
    {
      assert lines[end - 1..] == [lines[end - 1]] + lines[end..];
      end := end - 1;
    }
    assert lines[start..][end - start..] == lines[end..];
    DropBackSlice(lines[start..], end - start);
    assert lines[start..][..end - start] == lines[start..end];
    r := Stripped(lines[start..end]);
  }

  /** The non-blank lines, without trailing spaces and tabs. */
  function Entries(lines: seq<string>): seq<string> {
    if lines == [] then []
    else (if Blank(lines[0]) then [] else [StripTail(lines[0])]) + Entries(lines[1..])
  }

  lemma {:induction false} EntriesAppend(a: seq<string>, b: seq<string>)
    ensures Entries(a + b) == Entries(a) + Entries(b)
  {
    if a == [] {
      assert a + b == b;
    } else {
      assert (a + b)[1..] == a[1..] + b;
      EntriesAppend(a[1..], b);
    }
  }

  lemma {:induction false} EntriesDropFront(lines: seq<string>)
    ensures Entries(DropBlankFront(lines)) == Entries(lines)
  {
    if lines != [] && Blank(lines[0]) { EntriesDropFront(lines[1..]); }
  }

  lemma {:induction false} EntriesDropBack(lines: seq<string>)
    ensures Entries(DropBlankBack(lines)) == Entries(lines)
  {
    if lines != [] && Blank(lines[|lines| - 1]) {
      var n := |lines| - 1;
      EntriesDropBack(lines[..n]);
      assert lines == lines[..n] + [lines[n]];
      EntriesAppend(lines[..n], [lines[n]]);
      assert Entries([lines[n]]) == [];
    }
  }

  lemma {:induction false} EntriesStripped(lines: seq<string>)
    ensures Entries(Stripped(lines)) == Entries(lines)
  {
    if lines != [] {
      StripKeepsBlank(lines[0]);
      StripTwice(lines[0]);
      assert Stripped(lines)[1..] == Stripped(lines[1..]);
      EntriesStripped(lines[1..]);
    }
  }

  /** Trimming loses no entry. */
  lemma {:induction false} EntriesTrim(lines: seq<string>)
    ensures Entries(TrimBlank(lines)) == Entries(lines)
  {
    EntriesDropFront(lines);
    EntriesDropBack(DropBlankFront(lines));
    EntriesStripped(DropBlankBack(DropBlankFront(lines)));
  }

  // ---- Keys and ranks ----

  /** Case folding is a parameter; nothing is assumed of it. */
  type Lower = string -> string

  function Key(lower: Lower, s: Section): string {
    lower(Trim(s.heading))
  }

  const SECTION_ORDER: seq<string> := [
    "Added", "Changed", "Deprecated", "Removed", "Fixed", "Security", "Breaking Changes", "Documentation", "Performance", "Tests"]

  function IndexOfKey(lower: Lower, names: seq<string>, key: string): (i: nat)
    ensures i <= |names| && (i < |names| ==> lower(names[i]) == key)
    ensures forall j | 0 <= j < i :: lower(names[j]) != key
  {
    if names == [] || lower(names[0]) == key then 0 else 1 + IndexOfKey(lower, names[1..], key)
  }

  /** Position of the heading in the standard order; unknown headings come after all known ones. */
  function Rank(lower: Lower, s: Section): nat {
    IndexOfKey(lower, SECTION_ORDER, Key(lower, s))
  }

  function ByRank(lower: Lower): (Section, Section) -> bool {
    (a, b) => Rank(lower, a) <= Rank(lower, b)
  }

  // ---- Merging ----

  /** The last section with a key. */
  function LastWith(lower: Lower, list: seq<Section>, key: string): (r: Option<nat>)
    ensures r.Some? ==> r.value < |list| && Key(lower, list[r.value]) == key
                        && forall j | r.value < j < |list| :: Key(lower, list[j]) != key
    ensures r.None? ==> forall j | 0 <= j < |list| :: Key(lower, list[j]) != key
  {
    if list == [] then None
    else if Key(lower, list[|list| - 1]) == key then Some(|list| - 1)
    else LastWith(lower, list[..|list| - 1], key)
  }

  function Joined(existing: Section, more: Section): Section {
    Section(existing.heading, TrimBlank(existing.lines) + [""] + TrimBlank(more.lines))
  }

  /** One fragment section goes to the last section with its key, or becomes a new one. */
  function MergeOne(lower: Lower, list: seq<Section>, s: Section): seq<Section> {
    match LastWith(lower, list, Key(lower, s))
    case Some(i) => list[i := Joined(list[i], s)]
    case None => list + [s]
  }

  function MergeAll(lower: Lower, list: seq<Section>, more: seq<Section>): seq<Section> {
    if more == [] then list
    else MergeOne(lower, MergeAll(lower, list, more[..|more| - 1]), more[|more| - 1])
  }

  type Fragment = seq<Section>

  function Flatten(fragments: seq<Fragment>): seq<Section> {
    if fragments == [] then [] else Flatten(fragments[..|fragments| - 1]) + fragments[|fragments| - 1]
  }

  /** The merged sections: the body's own first, then the new ones by rank. */
  function Merged(lower: Lower, sections: seq<Section>, more: seq<Section>): seq<Section>
  {
    var all := MergeAll(lower, sections, more);
    if |sections| <= |all| then all[..|sections|] + Sort(all[|sections|..], ByRank(lower)) else all
  }

  lemma {:induction false} MergeAllGrows(lower: Lower, list: seq<Section>, more: seq<Section>)
    ensures |list| <= |MergeAll(lower, list, more)|
    ensures forall i | 0 <= i < |list| :: MergeAll(lower, list, more)[i].heading == list[i].heading
  {
    if more != [] { MergeAllGrows(lower, list, more[..|more| - 1]); }
  }

  /** The heading map finds the last section with each key. */
  ghost predicate Finds(lower: Lower, byHeading: map<string, nat>, all: seq<Section>) {
    forall k :: LastWith(lower, all, k) == if k in byHeading then Some(byHeading[k]) else None
  }

  lemma {:induction false} FindsExtended(lower: Lower, byHeading: map<string, nat>, all: seq<Section>, s: Section)
    requires Finds(lower, byHeading, all)
    ensures Finds(lower, byHeading[Key(lower, s) := |all|], all + [s])
  {
    assert (all + [s])[..|all|] == all;
  }

  lemma {:induction false} FindsUpdated(lower: Lower, byHeading: map<string, nat>, all: seq<Section>, i: nat, s: Section)
    requires Finds(lower, byHeading, all) && i < |all| && Key(lower, s) == Key(lower, all[i])
    ensures Finds(lower, byHeading, all[i := s])
  {
    forall k
      ensures LastWith(lower, all[i := s], k) == LastWith(lower, all, k)
    {
      LastWithUpdated(lower, all, i, s, k);
    }
  }

  lemma {:induction false} LastWithUpdated(lower: Lower, all: seq<Section>, i: nat, s: Section, k: string)
    requires i < |all| && Key(lower, s) == Key(lower, all[i])
    ensures LastWith(lower, all[i := s], k) == LastWith(lower, all, k)
  {
    var n := |all| - 1;
    if i < n {
      assert all[i := s][..n] == all[..n][i := s];
      LastWithUpdated(lower, all[..n], i, s, k);
    } else {
      assert all[i := s][..n] == all[..n];
    }
  }

  lemma {:induction false} MergeAllAppend(lower: Lower, list: seq<Section>, a: seq<Section>, b: seq<Section>, mid: seq<Section>, all: seq<Section>)
    requires mid == MergeAll(lower, list, a) && all == a + b
    ensures MergeAll(lower, list, all) == MergeAll(lower, mid, b)
  {
    hide MergeOne;
    if b == [] {
      assert all == a;
    } else {
      var n := |b| - 1;
      assert all[..|all| - 1] == a + b[..n];
      MergeAllAppend(lower, list, a, b[..n], mid, a + b[..n]);
    }
  }

  method IndexHeadings(lower: Lower, sections: seq<Section>) returns (byHeading: map<string, nat>)
    ensures Finds(lower, byHeading, sections)
  {
    byHeading := map[];
    for i := 0 to |sections|
      invariant Finds(lower, byHeading, sections[..i])
    {
      FindsExtended(lower, byHeading, sections[..i], sections[i]);
      assert sections[..i + 1] == sections[..i] + [sections[i]];
      byHeading := byHeading[Key(lower, sections[i]) := i];
    }
    assert sections[..|sections|] == sections;
  }

  method MergeSection(lower: Lower, all: seq<Section>, byHeading: map<string, nat>, section: Section)
    returns (all': seq<Section>, byHeading': map<string, nat>)
    requires Finds(lower, byHeading, all)
    ensures all' == MergeOne(lower, all, section) && Finds(lower, byHeading', all')
  {
    var key := Key(lower, section);
    if key in byHeading {
      var i := byHeading[key];
      assert LastWith(lower, all, key) == Some(i);
      var kept := TrimBlankLines(all[i].lines);
      var added := TrimBlankLines(section.lines);
      var joined := all[i].(lines := kept + [""] + added);
      FindsUpdated(lower, byHeading, all, i, joined);
      return all[i := joined], byHeading;
    }
    assert LastWith(lower, all, key) == None;
    FindsExtended(lower, byHeading, all, section);
    return all + [section], byHeading[key := |all|];
  }

  method MergeFragment(lower: Lower, all: seq<Section>, byHeading: map<string, nat>, fragment: Fragment)
    returns (all': seq<Section>, byHeading': map<string, nat>)
    requires Finds(lower, byHeading, all)
    ensures all' == MergeAll(lower, all, fragment) && Finds(lower, byHeading', all')
  {
    all', byHeading' := all, byHeading;
    for j := 0 to |fragment|
      invariant Finds(lower, byHeading', all') && all' == MergeAll(lower, all, fragment[..j])
    {
      assert fragment[..j + 1][..j] == fragment[..j];
      all', byHeading' := MergeSection(lower, all', byHeading', fragment[j]);
    }
    assert fragment[..|fragment|] == fragment;
  }

  /** Sections shared between the list and the heading map are modelled by their index in the list. */
  method MergeSections(lower: Lower, sections: seq<Section>, fragments: seq<Fragment>) returns (merged: seq<Section>)
    ensures merged == Merged(lower, sections, Flatten(fragments))
  {
    var byHeading := IndexHeadings(lower, sections);
    var all := sections;
    for f := 0 to |fragments|
      invariant Finds(lower, byHeading, all) && all == MergeAll(lower, sections, Flatten(fragments[..f]))
    {
      assert fragments[..f + 1][..f] == fragments[..f];
      MergeAllAppend(lower, sections, Flatten(fragments[..f]), fragments[f], all, Flatten(fragments[..f + 1]));
      all, byHeading := MergeFragment(lower, all, byHeading, fragments[f]);
    }
    assert fragments[..|fragments|] == fragments;
    MergeAllGrows(lower, sections, Flatten(fragments));
    return all[..|sections|] + Sort(all[|sections|..], ByRank(lower));
  }

  method MergeUnreleasedBody(lower: Lower, body: string, fragments: seq<Fragment>) returns (b: Body)
    ensures b.preamble == Sections(Split(body, '\n')).preamble
    ensures b.sections == Merged(lower, Sections(Split(body, '\n')).sections, Flatten(fragments))
  {
    var split := SplitSections(body);
    var sections := MergeSections(lower, split.sections, fragments);
    return Body(split.preamble, sections);
  }

  // ---- Conservation ----

  /** All entries of a list of sections, in order. */
  function AllEntries(list: seq<Section>): seq<string> {
    if list == [] then [] else Entries(list[0].lines) + AllEntries(list[1..])
  }

  /** The entries filed under one key, in order. */
  function EntriesUnder(lower: Lower, list: seq<Section>, key: string): seq<string> {
    if list == [] then []
    else (if Key(lower, list[0]) == key then Entries(list[0].lines) else []) + EntriesUnder(lower, list[1..], key)
  }

  lemma {:induction false} AllEntriesAppend(a: seq<Section>, b: seq<Section>)
    ensures AllEntries(a + b) == AllEntries(a) + AllEntries(b)
  {
    if a == [] {
      assert a + b == b;
    } else {
      assert (a + b)[1..] == a[1..] + b;
      AllEntriesAppend(a[1..], b);
    }
  }

  lemma {:induction false} JoinedEntries(existing: Section, more: Section)
    ensures Entries(Joined(existing, more).lines) == Entries(existing.lines) + Entries(more.lines)
  {
    var a, b := TrimBlank(existing.lines), TrimBlank(more.lines);
    EntriesTrim(existing.lines);
    EntriesTrim(more.lines);
    EntriesAppend(a + [""], b);
    EntriesAppend(a, [""]);
    assert Entries([""]) == [];
  }

  lemma {:induction false} SplitAt(list: seq<Section>, i: nat, s: Section)
    requires i < |list|
    ensures list == list[..i] + [list[i]] + list[i + 1..] && list[i := s] == list[..i] + [s] + list[i + 1..]
  {
  }

  lemma {:induction false} AllEntriesAt(a: seq<Section>, x: Section, b: seq<Section>)
    ensures AllEntries(a + [x] + b) == AllEntries(a) + Entries(x.lines) + AllEntries(b)
  {
    AllEntriesAppend(a + [x], b);
    AllEntriesAppend(a, [x]);
    assert AllEntries([x]) == Entries(x.lines) + AllEntries([]);
  }

  /** No entry is lost or invented by one merge. */
  lemma {:induction false} MergeOneConserves(lower: Lower, list: seq<Section>, s: Section)
    ensures multiset(AllEntries(MergeOne(lower, list, s))) == multiset(AllEntries(list)) + multiset(Entries(s.lines))
  {
    match LastWith(lower, list, Key(lower, s))
    case Some(i) =>
      SplitAt(list, i, Joined(list[i], s));
      AllEntriesAt(list[..i], list[i], list[i + 1..]);
      AllEntriesAt(list[..i], Joined(list[i], s), list[i + 1..]);
      JoinedEntries(list[i], s);
    case None =>
      AllEntriesAt(list, s, []);
      assert list + [s] + [] == list + [s];
  }

  lemma {:induction false} AllEntriesLast(list: seq<Section>)
    requires list != []
    ensures AllEntries(list) == AllEntries(list[..|list| - 1]) + Entries(list[|list| - 1].lines)
  {
    var n := |list| - 1;
    AllEntriesAt(list[..n], list[n], []);
    assert list == list[..n] + [list[n]] + [];
  }

  lemma {:induction false} MergeAllConserves(lower: Lower, list: seq<Section>, more: seq<Section>)
    ensures multiset(AllEntries(MergeAll(lower, list, more))) == multiset(AllEntries(list)) + multiset(AllEntries(more))
  {
    if more != [] {
      var n := |more| - 1;
      MergeAllConserves(lower, list, more[..n]);
      MergeOneConserves(lower, MergeAll(lower, list, more[..n]), more[n]);
      AllEntriesLast(more);
    }
  }

  lemma {:induction false} UnderNone(lower: Lower, list: seq<Section>, key: string)
    requires forall j | 0 <= j < |list| :: Key(lower, list[j]) != key
    ensures EntriesUnder(lower, list, key) == []
  {
    if list != [] { UnderNone(lower, list[1..], key); }
  }

  lemma {:induction false} UnderAppend(lower: Lower, a: seq<Section>, b: seq<Section>, key: string)
    ensures EntriesUnder(lower, a + b, key) == EntriesUnder(lower, a, key) + EntriesUnder(lower, b, key)
  {
    hide Entries, Key;
    if a == [] {
      assert a + b == b;
    } else {
      var all := a + b;
      assert all[0] == a[0] && all[1..] == a[1..] + b;
      UnderAppend(lower, a[1..], b, key);
    }
  }

  lemma {:induction false} UnderAt(lower: Lower, a: seq<Section>, x: Section, b: seq<Section>, key: string)
    ensures EntriesUnder(lower, a + [x] + b, key) ==
            EntriesUnder(lower, a, key) + EntriesUnder(lower, [x], key) + EntriesUnder(lower, b, key)
  {
    UnderAppend(lower, a + [x], b, key);
    UnderAppend(lower, a, [x], key);
  }

  lemma {:induction false} UnderOne(lower: Lower, x: Section, key: string)
    ensures EntriesUnder(lower, [x], key) == if Key(lower, x) == key then Entries(x.lines) else []
  {
    assert [x][1..] == [] && EntriesUnder(lower, [], key) == [];
  }

  lemma {:induction false} Extended(a: seq<string>, b: seq<string>, c: seq<string>)
    ensures a + (b + c) + [] == (a + b + []) + c
  {
  }

  /** Replacing the last section of its key by an extension appends exactly the extension's entries to that key. */
  lemma {:induction false} UnderReplaced(lower: Lower, a: seq<Section>, x: Section, b: seq<Section>, y: Section, added: seq<string>, key: string)
    requires Key(lower, x) == Key(lower, y) && Entries(y.lines) == Entries(x.lines) + added
    requires forall j | 0 <= j < |b| :: Key(lower, b[j]) != Key(lower, x)
    ensures EntriesUnder(lower, a + [y] + b, key) ==
            EntriesUnder(lower, a + [x] + b, key) + if Key(lower, x) == key then added else []
  {
    UnderAt(lower, a, x, b, key);
    UnderAt(lower, a, y, b, key);
    UnderOne(lower, x, key);
    UnderOne(lower, y, key);
    if Key(lower, x) == key {
      UnderNone(lower, b, key);
      Extended(EntriesUnder(lower, a, key), Entries(x.lines), added);
    }
  }

  lemma {:induction false} MergeOneUnder(lower: Lower, list: seq<Section>, s: Section, key: string)
    ensures EntriesUnder(lower, MergeOne(lower, list, s), key) == EntriesUnder(lower, list, key) + EntriesUnder(lower, [s], key)
  {
    match LastWith(lower, list, Key(lower, s))
    case Some(i) =>
      SplitAt(list, i, Joined(list[i], s));
      JoinedEntries(list[i], s);
      UnderReplaced(lower, list[..i], list[i], list[i + 1..], Joined(list[i], s), Entries(s.lines), key);
    case None =>
      UnderAppend(lower, list, [s], key);
  }

  lemma {:induction false} UnderLast(lower: Lower, more: seq<Section>, key: string)
    requires more != []
    ensures EntriesUnder(lower, more, key) ==
            EntriesUnder(lower, more[..|more| - 1], key) + EntriesUnder(lower, [more[|more| - 1]], key)
  {
    UnderAppend(lower, more[..|more| - 1], [more[|more| - 1]], key);
    assert more == more[..|more| - 1] + [more[|more| - 1]];
  }

  /** Under every key: the old entries, then the fragments' in fragment order. */
  lemma {:induction false} MergeAllUnder(lower: Lower, list: seq<Section>, more: seq<Section>, key: string)
    ensures EntriesUnder(lower, MergeAll(lower, list, more), key) == EntriesUnder(lower, list, key) + EntriesUnder(lower, more, key)
  {
    if more == [] {
    } else {
      var n := |more| - 1;
      MergeAllUnder(lower, list, more[..n], key);
      MergeOneUnder(lower, MergeAll(lower, list, more[..n]), more[n], key);
      UnderLast(lower, more, key);
    }
  }

  // ---- New sections ----

  ghost predicate Names(list: seq<Section>, heading: string) {
    exists j | 0 <= j < |list| :: list[j].heading == heading
  }

  /** New sections have keys of their own, found neither in the body nor twice, and headings from the fragments. */
  ghost predicate NewSections(lower: Lower, list: seq<Section>, more: seq<Section>, introduced: seq<Section>) {
    && (forall i, j | 0 <= i < j < |introduced| :: Key(lower, introduced[i]) != Key(lower, introduced[j]))
    && (forall i, j | 0 <= i < |introduced| && 0 <= j < |list| :: Key(lower, introduced[i]) != Key(lower, list[j]))
    && forall i | 0 <= i < |introduced| :: Names(more, introduced[i].heading)
  }

  lemma {:induction false} MergeAllNew(lower: Lower, list: seq<Section>, more: seq<Section>)
    ensures |list| <= |MergeAll(lower, list, more)|
    ensures NewSections(lower, list, more, MergeAll(lower, list, more)[|list|..])
  {
    MergeAllGrows(lower, list, more);
    if more == [] {
      assert MergeAll(lower, list, more)[|list|..] == [];
    } else {
      var n := |more| - 1;
      MergeAllGrows(lower, list, more[..n]);
      MergeAllNew(lower, list, more[..n]);
      MergeOneNew(lower, list, more, MergeAll(lower, list, more[..n]));
    }
  }

  lemma {:induction false} NewSectionsRenamed(lower: Lower, list: seq<Section>, more: seq<Section>, a: seq<Section>, b: seq<Section>)
    requires more != [] && NewSections(lower, list, more[..|more| - 1], a)
    requires |a| == |b| && forall i | 0 <= i < |a| :: a[i].heading == b[i].heading
    ensures NewSections(lower, list, more, b)
  {
    forall i | 0 <= i < |b|
      ensures Names(more, b[i].heading)
    {
      var earlier := more[..|more| - 1];
      assert Names(earlier, a[i].heading);
      var j :| 0 <= j < |earlier| && earlier[j].heading == a[i].heading;
      assert more[j].heading == b[i].heading;
    }
  }

  lemma {:induction false} NewSectionsGrow(lower: Lower, list: seq<Section>, more: seq<Section>, a: seq<Section>, s: Section)
    requires NewSections(lower, list, more, a) && more != [] && s == more[|more| - 1]
    requires (forall j | 0 <= j < |a| :: Key(lower, a[j]) != Key(lower, s))
    requires (forall j | 0 <= j < |list| :: Key(lower, list[j]) != Key(lower, s))
    ensures NewSections(lower, list, more, a + [s])
  {
    assert more[|more| - 1].heading == (a + [s])[|a|].heading;
  }

  lemma {:induction false} MergeOneNew(lower: Lower, list: seq<Section>, more: seq<Section>, all: seq<Section>)
    requires more != [] && |list| <= |all| && (forall i | 0 <= i < |list| :: all[i].heading == list[i].heading)
    requires NewSections(lower, list, more[..|more| - 1], all[|list|..])
    ensures |list| <= |MergeOne(lower, all, more[|more| - 1])|
    ensures NewSections(lower, list, more, MergeOne(lower, all, more[|more| - 1])[|list|..])
  {
    hide TrimBlank, NewSections;
    var s := more[|more| - 1];
    match LastWith(lower, all, Key(lower, s))
    case Some(i) =>
      NewSectionsRenamed(lower, list, more, all[|list|..], all[i := Joined(all[i], s)][|list|..]);
    case None =>
      NewSectionsRenamed(lower, list, more, all[|list|..], all[|list|..]);
      assert (all + [s])[|list|..] == all[|list|..] + [s];
      forall j | 0 <= j < |list|
        ensures Key(lower, list[j]) != Key(lower, s)
      {
        assert Key(lower, all[j]) != Key(lower, s);
      }
      NewSectionsGrow(lower, list, more, all[|list|..], s);
  }

  // ---- The merged list ----

  lemma {:induction false} OneIsEmpty(a: seq<string>, b: seq<string>, c: seq<string>)
    requires a == [] || b == []
    ensures b + (a + c) == a + (b + c)
  {
  }

  lemma {:induction false} UnderHead(lower: Lower, x: Section, s: seq<Section>, key: string)
    ensures EntriesUnder(lower, [x] + s, key) == EntriesUnder(lower, [x], key) + EntriesUnder(lower, s, key)
  {
    UnderAppend(lower, [x], s, key);
  }

  lemma {:induction false} InsertUnder(lower: Lower, x: Section, s: seq<Section>, key: string)
    ensures EntriesUnder(lower, Insert(x, s, ByRank(lower)), key) == EntriesUnder(lower, [x], key) + EntriesUnder(lower, s, key)
  {
    if s == [] {
    } else if Rank(lower, x) <= Rank(lower, s[0]) {
      UnderHead(lower, x, s, key);
    } else {
      InsertUnder(lower, x, s[1..], key);
      UnderHead(lower, s[0], Insert(x, s[1..], ByRank(lower)), key);
      UnderOne(lower, x, key);
      UnderOne(lower, s[0], key);
      OneIsEmpty(EntriesUnder(lower, [x], key), EntriesUnder(lower, [s[0]], key), EntriesUnder(lower, s[1..], key));
    }
  }

  lemma {:induction false} SortUnder(lower: Lower, s: seq<Section>, key: string)
    ensures EntriesUnder(lower, Sort(s, ByRank(lower)), key) == EntriesUnder(lower, s, key)
  {
    if s != [] {
      SortUnder(lower, s[1..], key);
      InsertUnder(lower, s[0], Sort(s[1..], ByRank(lower)), key);
      UnderAppend(lower, [s[0]], s[1..], key);
      assert s == [s[0]] + s[1..];
    }
  }

  lemma {:induction false} UnderSwapped(lower: Lower, all: seq<Section>, n: nat, sorted: seq<Section>, key: string)
    requires n <= |all| && EntriesUnder(lower, sorted, key) == EntriesUnder(lower, all[n..], key)
    ensures EntriesUnder(lower, all[..n] + sorted, key) == EntriesUnder(lower, all, key)
  {
    UnderAppend(lower, all[..n], all[n..], key);
    UnderAppend(lower, all[..n], sorted, key);
    assert all == all[..n] + all[n..];
  }

  /** Under every key the merged sections list the old entries, then the fragments' in fragment order. */
  lemma {:induction false} MergedUnder(lower: Lower, sections: seq<Section>, more: seq<Section>, key: string)
    ensures EntriesUnder(lower, Merged(lower, sections, more), key)
            == EntriesUnder(lower, sections, key) + EntriesUnder(lower, more, key)
  {
    var all, n := MergeAll(lower, sections, more), |sections|;
    MergeAllGrows(lower, sections, more);
    MergeAllUnder(lower, sections, more, key);
    SortUnder(lower, all[n..], key);
    UnderSwapped(lower, all, n, Sort(all[n..], ByRank(lower)), key);
  }

  lemma {:induction false} InsertConserves(lower: Lower, x: Section, s: seq<Section>)
    ensures multiset(AllEntries(Insert(x, s, ByRank(lower)))) == multiset(Entries(x.lines)) + multiset(AllEntries(s))
  {
    if s == [] || ByRank(lower)(x, s[0]) {
      AllEntriesAppend([x], s);
      AllEntriesAt([], x, []);
      assert [] + [x] + [] == [x] && [x] + [] == [x];
    } else {
      InsertConserves(lower, x, s[1..]);
    }
  }

  lemma {:induction false} SortConserves(lower: Lower, s: seq<Section>)
    ensures multiset(AllEntries(Sort(s, ByRank(lower)))) == multiset(AllEntries(s))
  {
    if s != [] {
      SortConserves(lower, s[1..]);
      InsertConserves(lower, s[0], Sort(s[1..], ByRank(lower)));
    }
  }

  lemma {:induction false} MultisetSwapped(a: seq<string>, b: seq<string>, c: seq<string>)
    requires multiset(b) == multiset(c)
    ensures multiset(a + b) == multiset(a + c)
  {
  }

  lemma {:induction false} ConservedSwapped(front: seq<Section>, back: seq<Section>, sorted: seq<Section>)
    requires multiset(AllEntries(sorted)) == multiset(AllEntries(back))
    ensures multiset(AllEntries(front + sorted)) == multiset(AllEntries(front + back))
  {
    AllEntriesAppend(front, back);
    AllEntriesAppend(front, sorted);
    MultisetSwapped(AllEntries(front), AllEntries(back), AllEntries(sorted));
  }

  lemma {:induction false} MergedParts(lower: Lower, sections: seq<Section>, more: seq<Section>) returns (front: seq<Section>, back: seq<Section>)
    ensures MergeAll(lower, sections, more) == front + back && Merged(lower, sections, more) == front + Sort(back, ByRank(lower))
  {
    MergeAllGrows(lower, sections, more);
    hide MergeAll, Sort;
    var all := MergeAll(lower, sections, more);
    front, back := all[..|sections|], all[|sections|..];
  }

  /** The entries after merging are the old ones and the fragments', each as often as before. */
  lemma {:induction false} MergedConserves(lower: Lower, sections: seq<Section>, more: seq<Section>)
    ensures multiset(AllEntries(Merged(lower, sections, more))) == multiset(AllEntries(sections)) + multiset(AllEntries(more))
  {
    var front, back := MergedParts(lower, sections, more);
    MergeAllConserves(lower, sections, more);
    SortConserves(lower, back);
    ConservedSwapped(front, back, Sort(back, ByRank(lower)));
  }

  // ---- Order of new sections ----

  predicate Files(lower: Lower, list: seq<Section>, key: string) {
    exists j | 0 <= j < |list| :: Key(lower, list[j]) == key
  }

  /** The fragment sections that open a key neither in the body nor in an earlier fragment section. */
  function FirstAppearances(lower: Lower, list: seq<Section>, more: seq<Section>): seq<Section> {
    if more == [] then []
    else
      var n := |more| - 1;
      var earlier := FirstAppearances(lower, list, more[..n]);
      var key := Key(lower, more[n]);
      if Files(lower, list, key) || Files(lower, earlier, key) then earlier else earlier + [more[n]]
  }

  /** The same headings in the same order. */
  ghost predicate SameHeadings(a: seq<Section>, b: seq<Section>) {
    |a| == |b| && forall i | 0 <= i < |a| :: a[i].heading == b[i].heading
  }

  lemma {:induction false} FilesSame(lower: Lower, a: seq<Section>, list: seq<Section>, earlier: seq<Section>, key: string)
    requires SameHeadings(a, list + earlier)
    ensures Files(lower, a, key) <==> Files(lower, list, key) || Files(lower, earlier, key)
  {
    var b := list + earlier;
    assert forall i | 0 <= i < |a| :: Key(lower, a[i]) == Key(lower, b[i]);
    hide Key;
    if j :| 0 <= j < |list| && Key(lower, list[j]) == key { assert Key(lower, a[j]) == Key(lower, b[j]); }
    if j :| 0 <= j < |earlier| && Key(lower, earlier[j]) == key { assert Key(lower, a[|list| + j]) == Key(lower, b[|list| + j]); }
  }

  /** Merging keeps the body's headings and adds the first appearances, in order. */
  lemma {:induction false} MergeAllHeadings(lower: Lower, list: seq<Section>, more: seq<Section>)
    ensures SameHeadings(MergeAll(lower, list, more), list + FirstAppearances(lower, list, more))
  {
    if more != [] {
      var n := |more| - 1;
      var all, earlier := MergeAll(lower, list, more[..n]), FirstAppearances(lower, list, more[..n]);
      MergeAllHeadings(lower, list, more[..n]);
      FilesSame(lower, all, list, earlier, Key(lower, more[n]));
      hide Key, TrimBlank;
    }
  }

  function OfRank(lower: Lower, r: nat): Section -> bool {
    s => Rank(lower, s) == r
  }

  lemma {:induction false} FilterSameHeadings(lower: Lower, a: seq<Section>, b: seq<Section>, r: nat)
    requires SameHeadings(a, b)
    ensures SameHeadings(Filter(a, OfRank(lower, r)), Filter(b, OfRank(lower, r)))
  {
    if a != [] {
      assert Rank(lower, a[0]) == Rank(lower, b[0]);
      hide Rank;
      FilterSameHeadings(lower, a[1..], b[1..], r);
    }
  }

  /** New sections of equal rank stand in the order in which the fragments first name them. */
  lemma {:induction false} EqualRankKeepsOrder(lower: Lower, list: seq<Section>, more: seq<Section>, introduced: seq<Section>, r: nat)
    requires SameHeadings(introduced, FirstAppearances(lower, list, more))
    ensures SameHeadings(Filter(Sort(introduced, ByRank(lower)), OfRank(lower, r)),
                         Filter(FirstAppearances(lower, list, more), OfRank(lower, r)))
  {
    hide Rank;
    SortStable(introduced, ByRank(lower), OfRank(lower, r));
    FilterSameHeadings(lower, introduced, FirstAppearances(lower, list, more), r);
  }

  lemma {:induction false} NewSectionsSorted(lower: Lower, list: seq<Section>, more: seq<Section>, introduced: seq<Section>)
    requires NewSections(lower, list, more, introduced)
    ensures NewSections(lower, list, more, Sort(introduced, ByRank(lower)))
  {
    var sorted, key := Sort(introduced, ByRank(lower)), s => Key(lower, s);
    SortPermutes(introduced, ByRank(lower));
    assert DistinctBy(introduced, key);
    SortDistinct(introduced, ByRank(lower), key);
    forall i, j | 0 <= i < j < |sorted|
      ensures Key(lower, sorted[i]) != Key(lower, sorted[j])
    {
      assert key(sorted[i]) != key(sorted[j]);
    }
    forall i | 0 <= i < |sorted|
      ensures forall j | 0 <= j < |list| :: Key(lower, sorted[i]) != Key(lower, list[j])
      ensures Names(more, sorted[i].heading)
    {
      assert sorted[i] in multiset(sorted) && sorted[i] in multiset(introduced);
      var k :| 0 <= k < |introduced| && introduced[k] == sorted[i];
    }
  }

  /**
   * The body's sections keep their place and heading; new ones follow, one per key, by rank, and within a rank
   * in the order of their first appearance.
   */
  lemma {:induction false} MergedShape(lower: Lower, sections: seq<Section>, more: seq<Section>)
    ensures |sections| <= |Merged(lower, sections, more)|
    ensures forall i | 0 <= i < |sections| :: Merged(lower, sections, more)[i].heading == sections[i].heading
    ensures NewSections(lower, sections, more, Merged(lower, sections, more)[|sections|..])
    ensures SortedBy(Merged(lower, sections, more)[|sections|..], ByRank(lower))
    ensures forall r: nat :: SameHeadings(Filter(Merged(lower, sections, more)[|sections|..], OfRank(lower, r)),
                                          Filter(FirstAppearances(lower, sections, more), OfRank(lower, r)))
  {
    var all, n := MergeAll(lower, sections, more), |sections|;
    MergeAllHeadings(lower, sections, more);
    assert SameHeadings(all[n..], FirstAppearances(lower, sections, more));
    hide SameHeadings, FirstAppearances, Rank, OfRank;
    forall r: nat
      ensures SameHeadings(Filter(Sort(all[n..], ByRank(lower)), OfRank(lower, r)), Filter(FirstAppearances(lower, sections, more), OfRank(lower, r)))
    {
      EqualRankKeepsOrder(lower, sections, more, all[n..], r);
    }
    MergeAllGrows(lower, sections, more);
    MergeAllNew(lower, sections, more);
    NewSectionsSorted(lower, sections, more, all[n..]);
    SortSorts(all[n..], ByRank(lower));
    assert Merged(lower, sections, more)[n..] == Sort(all[n..], ByRank(lower));
  }

  /** The rank of a heading: its place in the standard order when case folding keeps the standard headings apart. */
  lemma {:induction false} RankOf(lower: Lower, s: Section, x: nat)
    requires forall m, n | 0 <= m < n < |SECTION_ORDER| :: lower(SECTION_ORDER[m]) != lower(SECTION_ORDER[n])
    requires x <= |SECTION_ORDER|
    requires if x < |SECTION_ORDER| then Key(lower, s) == lower(SECTION_ORDER[x])
             else forall n | 0 <= n < |SECTION_ORDER| :: Key(lower, s) != lower(SECTION_ORDER[n])
    ensures Rank(lower, s) == x
  {
    var r := Rank(lower, s);
    hide Rank, IndexOfKey;
    assert r == IndexOfKey(lower, SECTION_ORDER, Key(lower, s)) by { RankIs(lower, s); }
    if r < |SECTION_ORDER| && x < |SECTION_ORDER| { assert lower(SECTION_ORDER[r]) == lower(SECTION_ORDER[x]); }
  }

  lemma {:induction false} RankIs(lower: Lower, s: Section)
    ensures Rank(lower, s) == IndexOfKey(lower, SECTION_ORDER, Key(lower, s))
  {
  }

  /** New sections stand as Added, Changed, Deprecated, Removed, Fixed, Security, and so on, unknown ones last. */
  lemma {:induction false} StandardOrder(lower: Lower, sections: seq<Section>, more: seq<Section>, x: nat, y: nat, i: nat, j: nat)
    requires var order := ["Added", "Changed", "Deprecated", "Removed", "Fixed", "Security", "Breaking Changes", "Documentation", "Performance", "Tests"];
             && (forall m, n | 0 <= m < n < 10 :: lower(order[m]) != lower(order[n])) && x < y <= 10
             && |sections| + i < |Merged(lower, sections, more)| && |sections| + j < |Merged(lower, sections, more)|
             && Key(lower, Merged(lower, sections, more)[|sections| + i]) == lower(order[x])
             && if y < 10 then Key(lower, Merged(lower, sections, more)[|sections| + j]) == lower(order[y])
                else forall n | 0 <= n < 10 :: Key(lower, Merged(lower, sections, more)[|sections| + j]) != lower(order[n])
    ensures i < j
  {
    hide Merged, Rank, Key;
    MergedShape(lower, sections, more);
    var merged := Merged(lower, sections, more);
    var introduced := merged[|sections|..];
    assert introduced[i] == merged[|sections| + i] && introduced[j] == merged[|sections| + j];
    RankOf(lower, introduced[i], x);
    RankOf(lower, introduced[j], y);
  }
}
