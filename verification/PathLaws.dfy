/** What the path tests of the planner and its loader mean, segment by segment. */
module PathLaws {
  import opened AffectedTasks
  import opened ChangedPaths
  import opened ChangelogLines
  import opened Sorting
  import opened Text
  import opened Whitespace
  import opened Wrappers

  // ---- Searching and splitting ----

  lemma {:induction false} SplitConcat(a: string, b: string)
    ensures Split(a + "/" + b, '/') == Split(a, '/') + Split(b, '/')
  {
    hide Split;
    var k := IndexOf(a, '/');
    if k == |a| {
      SplitAppend(a, b, '/');
    } else {
      var head, rest := a[..k], a[k + 1..];
      assert a == head + "/" + rest && a + "/" + b == head + "/" + (rest + "/" + b);
      SplitAppend(head, rest, '/');
      SplitAppend(head, rest + "/" + b, '/');
      SplitConcat(rest, b);
    }
  }

  /** The text is what comes before, the part, and what comes after. */
  ghost predicate Around(s: string, part: string, before: string, after: string) {
    s == before + part + after
  }

  lemma {:induction false} ContainsIff(s: string, part: string)
    ensures Contains(s, part) <==> exists before, after :: Around(s, part, before, after)
  {
    if StartsWith(s, part) {
      assert s == "" + part + s[|part|..];
      assert Around(s, part, "", s[|part|..]);
    } else if s != "" {
      ContainsIff(s[1..], part);
      if before, after :| Around(s[1..], part, before, after) {
        assert s == [s[0]] + s[1..];
        assert Around(s, part, [s[0]] + before, after);
      }
    }
    if before, after :| Around(s, part, before, after) { PartIsFound(s, part, before, after); }
  }

  lemma {:induction false} PartIsFound(s: string, part: string, before: string, after: string)
    requires Around(s, part, before, after)
    ensures Contains(s, part)
  {
    if before == "" {
      assert s == part + after && s[..|part|] == part;
    } else {
      assert s[1..] == before[1..] + part + after;
      PartIsFound(s[1..], part, before[1..], after);
    }
  }

  lemma {:induction false} NoSlash(e: string)
    requires '/' !in e
    ensures Split(e, '/') == [e]
  {
    SplitAppend(e, "", '/');
  }

  /** A path from the segment at i on, and up to it. */
  lemma {:induction false} CutAt(e: string, i: nat) returns (before: string, after: string)
    requires 0 < i < |Split(e, '/')|
    ensures e == before + "/" + after && Split(before, '/') == Split(e, '/')[..i] && Split(after, '/') == Split(e, '/')[i..]
  {
    hide Split;
    var k := IndexOf(e, '/');
    hide IndexOf;
    SplitAppend(e[..k], "", '/');
    if k == |e| {
      NoSlash(e);
    } else {
      var head, rest := e[..k], e[k + 1..];
      assert e == head + "/" + rest;
      SplitAppend(head, rest, '/');
      if i == 1 {
        before, after := head, rest;
      } else {
        var b, a := CutAt(rest, i - 1);
        before, after := head + "/" + b, a;
        SplitAppend(head, b, '/');
        assert e == before + "/" + after;
      }
    }
  }

  // ---- Staying inside ----

  /** Walking the segments from that depth never goes above the start. */
  predicate StaysIn(depth: nat, segments: seq<string>)
    decreases |segments|
  {
    || segments == []
    || if segments[0] == "" || segments[0] == "." then StaysIn(depth, segments[1..])
       else if segments[0] == ".." then depth > 0 && StaysIn(depth - 1, segments[1..])
       else StaysIn(depth + 1, segments[1..])
  }

  /** A parent segment, somewhere before the last place or alone. */
  ghost predicate EarlyParent(segments: seq<string>, i: nat) {
    i < |segments| && segments[i] == ".." && (i + 1 < |segments| || i == 0)
  }

  /** The three parent tests on an entry together find a parent segment that is alone or has another after it. */
  lemma {:induction false} ParentIff(e: string)
    ensures (e == ".." || StartsWith(e, "../") || Contains(e, "/../")) <==> exists i: nat :: EarlyParent(Split(e, '/'), i)
  {
    if e == ".." || StartsWith(e, "../") || Contains(e, "/../") { ParentIsEarly(e); }
    if i: nat :| EarlyParent(Split(e, '/'), i) { EarlyIsParent(e, i); }
  }

  lemma {:induction false} ParentIsEarly(e: string)
    requires e == ".." || StartsWith(e, "../") || Contains(e, "/../")
    ensures exists i: nat :: EarlyParent(Split(e, '/'), i)
  {
    if e == ".." {
      SplitAppend("..", "", '/');
      assert EarlyParent(Split(e, '/'), 0);
    } else if StartsWith(e, "../") {
      assert e == ".." + "/" + e[3..];
      SplitAppend("..", e[3..], '/');
      assert EarlyParent(Split(e, '/'), 0);
    } else {
      ContainsIff(e, "/../");
      var before, after :| Around(e, "/../", before, after);
      assert e == before + "/" + (".." + "/" + after);
      SplitConcat(before, ".." + "/" + after);
      SplitAppend("..", after, '/');
      assert EarlyParent(Split(e, '/'), |Split(before, '/')|);
    }
  }

  lemma {:induction false} EarlyIsParent(e: string, i: nat)
    requires EarlyParent(Split(e, '/'), i)
    ensures e == ".." || StartsWith(e, "../") || Contains(e, "/../")
  {
    var segments := Split(e, '/');
    JoinSplit(e, '/');
    if |segments| == 1 {
      assert e == "..";
    } else if i == 0 {
      assert e == ".." + "/" + Join(segments[1..], '/');
      assert e[..3] == "../";
    } else {
      var before, rest := CutAt(e, i);
      assert Split(rest, '/')[0] == ".." && |Split(rest, '/')| > 1;
      JoinSplit(rest, '/');
      var after := Join(Split(rest, '/')[1..], '/');
      assert rest == ".." + "/" + after;
      assert e == before + "/../" + after;
      PartIsFound(e, "/../", before, after);
    }
  }

  lemma {:induction false} LateParentStays(depth: nat, segments: seq<string>)
    requires forall i | 0 <= i < |segments| - 1 :: segments[i] != ".."
    requires depth > 0 || segments == [] || segments[0] != ".."
    requires depth > 0 || |segments| < 2 || (segments[0] != "" && segments[0] != ".")
    ensures StaysIn(depth, segments)
    decreases |segments|
  {
    if segments != [] {
      var rest := segments[1..];
      assert forall i | 0 <= i < |rest| - 1 :: rest[i] == segments[i + 1];
      if segments[0] == ".." {
        assert rest == [];
      } else if segments[0] == "" || segments[0] == "." {
        LateParentStays(depth, rest);
      } else {
        LateParentStays(depth + 1, rest);
      }
    }
  }

  /** An entry is refused exactly for an empty or dot segment, an early parent segment, or a drive letter. */
  lemma {:induction false} UnsafeIff(e: string)
    ensures Unsafe(e) <==>
            || "" in Split(e, '/') || "." in Split(e, '/') || (exists i: nat :: EarlyParent(Split(e, '/'), i))
            || (|e| > 2 && e[0] in LETTERS && e[1..3] == ":/")
  {
    ParentIff(e);
    if e != "" { LettersAre(e[0]); }
    if e == "" || e[0] == '/' { EmptyFirst(e); }
    hide Split, Contains, EarlyParent;
  }

  lemma {:induction false} EmptyFirst(e: string)
    requires e == "" || e[0] == '/'
    ensures "" in Split(e, '/')
  {
    if e != "" {
      assert e == "" + "/" + e[1..];
      SplitAppend("", e[1..], '/');
    }
  }

  /** No accepted changed path leads out of the repository. */
  lemma {:induction false} SafeEntryStaysIn(e: string)
    requires !Unsafe(e)
    ensures StaysIn(0, Split(e, '/'))
  {
    var segments := Split(e, '/');
    forall i: nat
      ensures !EarlyParent(segments, i)
    {
      NoEarlyParent(e, i);
    }
    hide Split;
    forall i | 0 <= i < |segments| - 1
      ensures segments[i] != ".."
    {
      assert !EarlyParent(segments, i);
    }
    assert !EarlyParent(segments, 0);
    LateParentStays(0, segments);
  }

  lemma {:induction false} NoEarlyParent(e: string, i: nat)
    requires !Unsafe(e)
    ensures !EarlyParent(Split(e, '/'), i)
  {
    hide Split, Contains;
    if EarlyParent(Split(e, '/'), i) { EarlyIsParent(e, i); }
  }

  // ---- Cleaning ----

  lemma {:induction false} SlashesAt(s: string, i: nat)
    requires i < |s|
    ensures Slashes(s)[i] == if s[i] == '\\' then '/' else s[i]
  {
    if i > 0 { SlashesAt(s[1..], i - 1); }
  }

  /** White space around a path and one "./" in front of it make no difference. */
  lemma {:induction false} CleanForms(p: string, a: string, b: string)
    requires Blank(a) && Blank(b) && p != "" && Trimmed(p) && '\\' !in a + p + b && !StartsWith(p, "./")
    ensures Clean(a + p + b) == p && Clean(a + ("./" + p) + b) == p
  {
    var dotted := "./" + p;
    DottedIsTrimmed(p);
    TrimIs(a, p, b);
    TrimIs(a, dotted, b);
    hide Trim, IsSpace, Blank, Trimmed;
    Pieces(a, p, b, '\\');
    assert '\\' !in a + dotted + b;
    assert dotted[..2] == "./" && dotted[2..] == p;
  }

  lemma {:induction false} DottedIsTrimmed(p: string)
    requires p != "" && Trimmed(p)
    ensures Trimmed("./" + p)
  {
    SpaceFacts();
    hide IsSpace;
  }

  lemma {:induction false} Pieces(a: string, m: string, b: string, c: char)
    requires c !in a + m + b
    ensures c !in a && c !in m && c !in b
  {
    assert forall i | 0 <= i < |a| :: a[i] == (a + m + b)[i];
    assert forall i | 0 <= i < |m| :: m[i] == (a + m + b)[|a| + i];
    assert forall i | 0 <= i < |b| :: b[i] == (a + m + b)[|a| + |m| + i];
  }

  // ---- Task directories ----

  /** What is left of a stored directory after normalisation. */
  function Normal(dir: string): string {
    StripDot(Slashes(dir))
  }

  lemma {:induction false} NoInnerParent(n: string, i: nat)
    requires !Contains(n, "../") && i + 1 < |Split(n, '/')|
    ensures Split(n, '/')[i] != ".."
  {
    hide Contains, Split;
    if Split(n, '/')[i] == ".." { InnerParent(n, i); }
  }

  lemma {:induction false} OneSegment(s: string, part: string)
    requires Split(s, '/') == [part]
    ensures s == part
  {
    JoinSplit(s, '/');
  }

  lemma {:induction false} InnerParent(n: string, i: nat)
    requires i + 1 < |Split(n, '/')| && Split(n, '/')[i] == ".."
    ensures Contains(n, "../")
  {
    hide Contains, Split;
    var segments := Split(n, '/');
    var before, after := CutAt(n, i + 1);
    if i == 0 {
      assert segments[..1] == [".."];
      OneSegment(before, "..");
      assert n == "" + "../" + after;
      PartIsFound(n, "../", "", after);
    } else {
      var b, a := CutAt(before, i);
      assert segments[..i + 1][i..] == [".."];
      OneSegment(a, "..");
      assert n == (b + "/") + "../" + after;
      PartIsFound(n, "../", b + "/", after);
    }
  }

  /** A directory the loader takes leads out of the repository exactly when it is ".." by itself. */
  lemma {:induction false} AcceptedDirStaysInIff(dir: string)
    requires SafeCwd(Some(dir)) && dir != "."
    ensures StaysIn(0, Split(Normal(dir), '/')) <==> Normal(dir) != ".."
  {
    var n := Normal(dir);
    var segments := Split(n, '/');
    if n == ".." {
      SplitAppend("..", "", '/');
      assert !StaysIn(0, [".."]);
    } else {
      JoinSplit(n, '/');
      forall i | 0 <= i < |segments| - 1
        ensures segments[i] != ".."
      {
        NoInnerParent(n, i);
      }
      assert |segments| == 1 ==> segments[0] == n;
      LateParentStays(0, segments);
    }
  }

  /** And the loader does take that one. */
  lemma {:induction false} ParentIsAccepted()
    ensures SafeCwd(Some("..")) && Normal("..") == ".."
  {
    assert Slashes("..") == "..";
    SplitAppend("..", "", '/');
    assert !StartsWith("..", "../") && !StartsWith("."[0..], "../");
    assert ".."[1..] == "." && "."[1..] == "";
    assert !Contains("", "../") && !Contains(".", "../") && !Contains("..", "../");
    assert Split("..", '/') == [".."];
  }
}
