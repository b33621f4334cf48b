/** The guard that released changelog headings never disappear, and why no fold can trip it. */
module HistoryGuard {
  import opened ChangelogFold
  import opened ChangelogLines
  import opened ChangelogMerge
  import opened ChangelogSections
  import opened Text
  import opened Whitespace
  import opened Wrappers

  /** The bracketed text of a version heading. */
  function ReleaseHeading(line: string): Option<string> {
    if !VersionHeading(line) then None
    else
      var t := TrimStart(line[2..]);
      if t == "" || t[0] != '[' then None
      else
        var close := IndexOf(t, ']');
        if 1 < close < |t| then Some(t[1..close]) else None
  }

  /** The released version a line announces, if any. */
  function Released(lower: Lower, line: string): seq<string> {
    match ReleaseHeading(line)
    case None => []
    case Some(version) => if lower(Trim(version)) == "unreleased" then [] else [Trim(version)]
  }

  function Releases(lower: Lower, lines: seq<string>): seq<string> {
    if lines == [] then [] else Released(lower, lines[0]) + Releases(lower, lines[1..])
  }

  lemma {:induction false} ReleasesAppend(lower: Lower, a: seq<string>, b: seq<string>)
    ensures Releases(lower, a + b) == Releases(lower, a) + Releases(lower, b)
  {
    if a == [] {
      assert a + b == b;
    } else {
      assert (a + b)[1..] == a[1..] + b;
      ReleasesAppend(lower, a[1..], b);
    }
  }

  method ReleaseHeadings(lower: Lower, text: string) returns (headings: seq<string>)
    ensures headings == Releases(lower, Split(text, '\n'))
  {
    hide ReleaseHeading, Trim, Split;
    headings := [];
    var lines := Split(text, '\n');
    for i := 0 to |lines|
      invariant headings == Releases(lower, lines[..i])
    {
      ReleasesAppend(lower, lines[..i], [lines[i]]);
      assert lines[..i + 1] == lines[..i] + [lines[i]];
      assert [lines[i]][1..] == [];
      var version := ReleaseHeading(lines[i]);
      if version.None? {
        continue;
      }
      if lower(Trim(version.value)) == "unreleased" {
        continue;
      }
      headings := headings + [Trim(version.value)];
    }
    assert lines[..|lines|] == lines;
  }

  // ---- Which lines announce a release ----

  /** Two number signs, white space, and a bracketed text that trims to a version other than "unreleased". */
  ghost predicate Announced(lower: Lower, line: string, gap: string, inner: string, rest: string, v: string) {
    && line == "##" + gap + "[" + inner + "]" + rest
    && gap != "" && Blank(gap) && inner != "" && ']' !in inner && Trim(inner) == v && lower(v) != "unreleased"
  }

  ghost predicate Announces(lower: Lower, line: string, v: string) {
    exists gap, inner, rest :: Announced(lower, line, gap, inner, rest, v)
  }

  lemma {:induction false} HeadingIsRead(line: string, gap: string, inner: string, rest: string)
    requires line == "##" + gap + "[" + inner + "]" + rest && gap != "" && Blank(gap) && inner != "" && ']' !in inner
    ensures ReleaseHeading(line) == Some(inner)
  {
    var tail := "[" + inner + "]" + rest;
    assert line == "##" + (gap + tail) && line[..2] == "##" && line[2] == gap[0] && line[2..] == gap + tail;
    SpaceFacts();
    TrimStartIs(gap, tail);
    assert tail == ("[" + inner) + [']'] + rest;
    IndexOfFirst(tail, "[" + inner, ']', rest);
    assert tail[1..1 + |inner|] == inner;
    hide TrimStart, IsSpace;
  }

  lemma {:induction false} HeadingShape(line: string) returns (gap: string, rest: string)
    requires ReleaseHeading(line).Some?
    ensures var inner := ReleaseHeading(line).value;
            line == "##" + gap + "[" + inner + "]" + rest && gap != "" && Blank(gap) && inner != "" && ']' !in inner
  {
    HeadingParts(line);
    hide *;
    gap := TrimStartShape(line[2..]);
    var t := TrimStart(line[2..]);
    BracketCut(t);
    rest := t[IndexOf(t, ']') + 1..];
    HeadingRegroup(line, gap, t, ReleaseHeading(line).value, rest);
    GapIsThere(line[2..], gap, t);
  }

  lemma {:induction false} HeadingParts(line: string)
    requires ReleaseHeading(line).Some?
    ensures |line| > 2 && line[..2] == "##" && IsSpace(line[2])
    ensures var t := TrimStart(line[2..]);
            t != "" && t[0] == '[' && 1 < IndexOf(t, ']') < |t| && ReleaseHeading(line).value == t[1..IndexOf(t, ']')]
  {
    hide IsSpace, TrimStart, IndexOf;
  }

  lemma {:induction false} GapIsThere(s: string, gap: string, t: string)
    requires s == gap + t && s != "" && IsSpace(s[0]) && t != "" && !IsSpace(t[0])
    ensures gap != ""
  {
    hide IsSpace;
    assert gap == "" ==> s == t;
  }

  lemma {:induction false} BracketCut(t: string)
    requires t != "" && t[0] == '[' && 1 < IndexOf(t, ']') < |t|
    ensures var close := IndexOf(t, ']'); t == "[" + t[1..close] + "]" + t[close + 1..] && ']' !in t[1..close]
  {
    hide IndexOf;
  }

  lemma {:induction false} HeadingRegroup(line: string, gap: string, t: string, inner: string, rest: string)
    requires |line| > 2 && line[..2] == "##" && line[2..] == gap + t && t == "[" + inner + "]" + rest
    ensures line == "##" + gap + "[" + inner + "]" + rest
  {
    assert line == line[..2] + line[2..];
  }

  /** A line lists exactly the version it announces. */
  lemma {:induction false} ReleasedIff(lower: Lower, line: string, v: string)
    ensures Released(lower, line) == [v] <==> Announces(lower, line, v)
    ensures |Released(lower, line)| <= 1
  {
    hide ReleaseHeading, Trim;
    if ReleaseHeading(line).Some? && Released(lower, line) == [v] {
      assert Trim(ReleaseHeading(line).value) == Released(lower, line)[0] == [v][0];
      var gap, rest := HeadingShape(line);
      assert Announced(lower, line, gap, ReleaseHeading(line).value, rest, v);
    }
    if gap, inner, rest :| Announced(lower, line, gap, inner, rest, v) { HeadingIsRead(line, gap, inner, rest); }
  }

  /** The listed versions are those of the announcing lines: in line order, each line counted once. */
  lemma {:induction false} ReleasesInOrder(lower: Lower, lines: seq<string>) returns (at: seq<nat>)
    ensures |at| == |Releases(lower, lines)| && forall i, j | 0 <= i < j < |at| :: at[i] < at[j]
    ensures forall i | 0 <= i < |at| :: at[i] < |lines| && Announces(lower, lines[at[i]], Releases(lower, lines)[i])
    ensures forall k, v | 0 <= k < |lines| && Announces(lower, lines[k], v) :: k in at
  {
    hide Announces, Released;
    if lines == [] {
      at := [];
    } else {
      var n := |lines| - 1;
      var front, last := lines[..n], Released(lower, lines[n]);
      at := ReleasesInOrder(lower, front);
      assert lines == front + [lines[n]] && [lines[n]][1..] == [];
      ReleasesAppend(lower, front, [lines[n]]);
      assert Releases(lower, [lines[n]]) == last + Releases(lower, []);
      forall v
        ensures last == [v] <==> Announces(lower, lines[n], v)
        ensures |last| <= 1
      {
        ReleasedIff(lower, lines[n], v);
      }
      if last != [] {
        assert last == [last[0]];
        at := at + [n];
      }
    }
  }

  /** Some line of the text announces the version. */
  ghost predicate Lists(lower: Lower, text: string, v: string) {
    exists line :: line in Split(text, '\n') && Announces(lower, line, v)
  }

  lemma {:induction false} ReleasesIff(lower: Lower, lines: seq<string>, v: string)
    ensures v in Releases(lower, lines) <==> exists line :: line in lines && Announces(lower, line, v)
  {
    hide Announces;
    var at := ReleasesInOrder(lower, lines);
    var releases := Releases(lower, lines);
    if i :| 0 <= i < |releases| && releases[i] == v { assert lines[at[i]] in lines; }
    if line :| line in lines && Announces(lower, line, v) {
      var k :| 0 <= k < |lines| && lines[k] == line;
      var i :| 0 <= i < |at| && at[i] == k;
      OneVersion(lower, line, v, releases[i]);
    }
  }

  lemma {:induction false} OneVersion(lower: Lower, line: string, v: string, w: string)
    requires Announces(lower, line, v) && Announces(lower, line, w)
    ensures v == w
  {
    ReleasedIff(lower, line, v);
    ReleasedIff(lower, line, w);
    assert [v][0] == [w][0];
  }

  // ---- The comparison ----

  datatype Violation = Violation(removed: seq<string>, baseCount: nat, headCount: nat)

  /** Headings of the base that the head lacks. */
  function Missing(before: seq<string>, after: set<string>): (r: seq<string>)
    ensures r == [] <==> forall i | 0 <= i < |before| :: before[i] in after
    ensures forall v :: v in r <==> v in before && v !in after
  {
    if before == [] then []
    else (if before[0] in after then [] else [before[0]]) + Missing(before[1..], after)
  }

  method CompareHistory(lower: Lower, base: Option<string>, head: Option<string>) returns (r: Option<Violation>)
    ensures base.None? ==> r.None?
    ensures base.Some? && head.None? ==>
              var before := Releases(lower, Split(base.value, '\n'));
              && (r.None? <==> before == [])
              && (r.Some? ==> r.value == Violation(before, |before|, 0))
    ensures base.Some? && head.Some? ==>
              var before, after := Releases(lower, Split(base.value, '\n')), Releases(lower, Split(head.value, '\n'));
              && (r.None? <==> forall i | 0 <= i < |before| :: before[i] in after)
              && (r.Some? ==> r.value == Violation(Missing(before, set v | v in after), |before|, |set v | v in after|))
    // On the lines alone: exactly the versions the base announces and the head does not are reported.
    ensures base.Some? ==> forall v :: (r.Some? && v in r.value.removed) <==>
                                       Lists(lower, base.value, v) && !(head.Some? && Lists(lower, head.value, v))
  {
    hide Lists, Releases, Split;
    if base.None? {
      return None;
    }
    var before := ReleaseHeadings(lower, base.value);
    ListedIff(lower, base.value);
    if head.None? {
      return if before == [] then None else Some(Violation(before, |before|, 0));
    }
    var headings := ReleaseHeadings(lower, head.value);
    ListedIff(lower, head.value);
    var after := set v | v in headings;
    var removed := Missing(before, after);
    return if removed == [] then None else Some(Violation(removed, |before|, |after|));
  }

  lemma {:induction false} ListedIff(lower: Lower, text: string)
    ensures forall v :: v in Releases(lower, Split(text, '\n')) <==> Lists(lower, text, v)
  {
    hide Announces, Releases, Split;
    forall v
      ensures v in Releases(lower, Split(text, '\n')) <==> Lists(lower, text, v)
    {
      ReleasesIff(lower, Split(text, '\n'), v);
    }
  }

  // ---- Folds ----

  lemma {:induction false} UnversionedHasNoReleases(lower: Lower, lines: seq<string>)
    requires Unversioned(lines)
    ensures Releases(lower, lines) == []
  {
    if lines != [] { UnversionedHasNoReleases(lower, lines[1..]); }
  }

  lemma {:induction false} ReleasesAround(lower: Lower, a: seq<string>, mid: seq<string>, b: seq<string>)
    requires Unversioned(mid)
    ensures Releases(lower, a + mid + b) == Releases(lower, a) + Releases(lower, b)
  {
    UnversionedHasNoReleases(lower, mid);
    ReleasesAppend(lower, a + mid, b);
    ReleasesAppend(lower, a, mid);
  }

  lemma {:induction false} ReplacedMiddle(lower: Lower, lines: seq<string>, i: nat, j: nat, rendered: seq<string>)
    requires i <= j <= |lines| && Unversioned(lines[i..j]) && Unversioned(rendered)
    ensures Releases(lower, lines[..i] + rendered + lines[j..]) == Releases(lower, lines)
  {
    hide Releases, Unversioned;
    ReleasesAround(lower, lines[..i], rendered, lines[j..]);
    ReleasesAround(lower, lines[..i], lines[i..j], lines[j..]);
    assert lines == lines[..i] + lines[i..j] + lines[j..];
  }

  /** A fold leaves the list of released headings exactly as it was. */
  lemma {:induction false} FoldKeepsReleases(lower: Lower, lines: seq<string>, r: Region, more: seq<Section>)
    requires SingleLines(lines) && IsRegion(lines, r) && PlainSections(more)
    ensures Releases(lower, FoldedLines(lower, lines, r, more)) == Releases(lower, lines)
  {
    FoldedBodyIsPlain(lower, lines, r, more);
    ReplacedMiddle(lower, lines, r.heading + 1, r.end, RenderLines(FoldedBody(lower, lines, r, more)));
  }

  /**
   * Whatever the changelog and the fragment files hold: a fold that happens keeps the released headings, in
   * order, and the guard accepts it.
   */
  method FoldPassesGuard(lower: Lower, content: string, files: seq<string>)
    returns (folded: Option<string>, violation: Option<Violation>)
    ensures folded.Some? <==> (forall i | 0 <= i < |files| :: GoodFragment(FragmentLines(files[i])))
                              && (files == [] || HasUnreleased(Split(content, '\n')))
    ensures folded.Some? ==> Releases(lower, Split(folded.value, '\n')) == Releases(lower, Split(content, '\n'))
    ensures violation.None?
  {
    hide GoodFragment, FragmentLines;
    var fragments := ReadPackageFragments(files);
    if fragments.Err? {
      return None, None;
    }
    var text, region := FoldFragmentsIntoChangelog(lower, content, fragments.value);
    if text.Err? {
      return None, None;
    }
    SplitIsSingle(content);
    if files != [] { FoldKeepsReleases(lower, Split(content, '\n'), region, Flatten(fragments.value)); }
    violation := CompareHistory(lower, Some(content), Some(text.value));
    return Some(text.value), violation;
  }
}
