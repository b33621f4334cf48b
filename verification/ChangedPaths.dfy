/** Changed paths in the canonical form a plan stores and its loader insists on. */
module ChangedPaths {
  import opened ChangelogLines
  import opened Sorting
  import opened Text
  import opened Whitespace
  import opened Wrappers

  function Slashes(s: string): (r: string)
    ensures |r| == |s| && '\\' !in r
    ensures '\\' !in s ==> r == s
  {
    if s == "" then "" else [if s[0] == '\\' then '/' else s[0]] + Slashes(s[1..])
  }

  function StripDot(s: string): string {
    if StartsWith(s, "./") then s[2..] else s
  }

  function Clean(entry: string): string {
    StripDot(Trim(Slashes(entry)))
  }

  predicate IsLetter(c: char) {
    'A' <= c <= 'Z' || 'a' <= c <= 'z'
  }

  predicate Contains(s: string, part: string) {
    StartsWith(s, part) || (s != "" && Contains(s[1..], part))
  }

  predicate Unsafe(e: string) {
    || e == "" || e[0] == '/' || (|e| > 2 && IsLetter(e[0]) && e[1..3] == ":/")
    || e == ".." || StartsWith(e, "../") || Contains(e, "/../")
    || exists i | 0 <= i < |Split(e, '/')| :: Split(e, '/')[i] == "." || Split(e, '/')[i] == ""
  }

  function PathLeq(): (string, string) -> bool {
    (a, b) => LexLeq(a, b, UnitRank)
  }

  /** First occurrences only. */
  function Dedupe(s: seq<string>): seq<string> {
    if s == [] then []
    else
      var n := |s| - 1;
      Dedupe(s[..n]) + if s[n] in s[..n] then [] else [s[n]]
  }

  function CleanAll(paths: seq<string>): (r: seq<string>)
    ensures |r| == |paths| && forall i | 0 <= i < |r| :: r[i] == Clean(paths[i])
  {
    seq(|paths|, i requires 0 <= i < |paths| => Clean(paths[i]))
  }

  datatype PathError = UnsafePath(index: nat)

  predicate AllSafe(paths: seq<string>) {
    forall i | 0 <= i < |paths| :: !Unsafe(paths[i])
  }

  /** The safe cleaned entries, once each, in order. */
  function Canonical(paths: seq<string>): seq<string> {
    Sort(Dedupe(CleanAll(paths)), PathLeq())
  }

  method NormalizeChangedPaths(paths: seq<string>) returns (r: Result<seq<string>, PathError>)
    ensures r.Ok? <==> AllSafe(CleanAll(paths))
    ensures r.Ok? ==> r.value == Canonical(paths)
    ensures r.Err? ==> r.error.index < |paths| && Unsafe(Clean(paths[r.error.index])) && AllSafe(CleanAll(paths)[..r.error.index])
  {
    var normalized := CleanAll(paths);
    for i := 0 to |normalized|
      invariant AllSafe(normalized[..i])
    {
      assert normalized[..i + 1] == normalized[..i] + [normalized[i]];
      if Unsafe(normalized[i]) {
        return Err(UnsafePath(i));
      }
    }
    assert normalized[..|normalized|] == normalized;
    return Ok(Sort(Dedupe(normalized), PathLeq()));
  }

  // ---- When the canonical form is stable ----

  /** After trimming, a leading "./" followed by white space. */
  predicate DotThenSpace(entry: string) {
    var c := Trim(Slashes(entry));
    StartsWith(c, "./") && |c| > 2 && IsSpace(c[2])
  }

  lemma {:induction false} TrimShrinks(s: string)
    ensures |Trim(s)| <= |s| && (|Trim(s)| == |s| ==> Trim(s) == s)
  {
    var a, b := TrimShape(s);
  }

  lemma {:induction false} CleanShrinks(e: string)
    ensures |Clean(e)| <= |e|
    ensures '\\' !in e && |Clean(e)| == |e| ==> Clean(e) == e
  {
    TrimShrinks(Slashes(e));
  }

  lemma {:induction false} NoBackslash(r: string)
    ensures '\\' !in Clean(r)
  {
    var a, b := TrimShape(Slashes(r));
    MiddleLacks(a, Trim(Slashes(r)), b, '\\');
  }

  lemma {:induction false} MiddleLacks(a: string, m: string, b: string, c: char)
    requires c !in a + m + b
    ensures c !in m
  {
    assert forall i | 0 <= i < |m| :: m[i] == (a + m + b)[|a| + i];
  }

  lemma {:induction false} DotIsUnsafe(e: string)
    requires StartsWith(e, "./")
    ensures Unsafe(e)
  {
    assert e[0] == e[..2][0] && e[1] == e[..2][1];
    assert e == "." + ['/'] + e[2..];
    SplitAppend(".", e[2..], '/');
    assert Split(e, '/')[0] == ".";
  }

  lemma {:induction false} TrimmedIsFixed(e: string)
    requires e != "" && Trimmed(e)
    ensures Trim(e) == e
  {
    TrimIs("", e, "");
    assert "" + e + "" == e;
  }

  lemma {:induction false} CleanOfPlain(e: string)
    requires '\\' !in e && !StartsWith(Trim(e), "./")
    ensures Clean(e) == Trim(e)
  {
  }

  lemma {:induction false} NotTrimmedIsChanged(e: string)
    requires e != "" && IsSpace(e[0])
    ensures Trim(e) != e && |Trim(e)| < |e|
  {
    var a, b := TrimShape(e);
    assert !Trimmed(e);
    TrimShrinks(e);
  }

  /** The shape of a cleaned entry: nothing to trim at its end, and white space in front only after a "./". */
  lemma {:induction false} CleanShape(r: string)
    requires Clean(r) != ""
    ensures !IsSpace(Clean(r)[|Clean(r)| - 1]) && (IsSpace(Clean(r)[0]) <==> DotThenSpace(r))
  {
    var c := Trim(Slashes(r));
    var a, b := TrimShape(Slashes(r));
    hide Trim, Slashes, IsSpace;
    if StartsWith(c, "./") { assert Clean(r)[0] == c[2]; }
    assert Clean(r)[|Clean(r)| - 1] == c[|c| - 1];
  }

  /** A cleaned safe entry is cleaned to itself unless it was a "./" before white space. */
  lemma {:induction false} CleanTwice(r: string)
    requires !Unsafe(Clean(r))
    ensures Clean(Clean(r)) == Clean(r) <==> !DotThenSpace(r)
  {
    var e := Clean(r);
    NoBackslash(r);
    CleanShape(r);
    CleanShrinks(e);
    if StartsWith(e, "./") { DotIsUnsafe(e); }
    if DotThenSpace(r) {
      NotTrimmedIsChanged(e);
      CleanShorter(e);
    } else {
      TrimmedIsFixed(e);
      CleanOfPlain(e);
    }
  }

  lemma {:induction false} CleanShorter(e: string)
    requires '\\' !in e && |Trim(e)| < |e|
    ensures |Clean(e)| < |e|
  {
  }

  // ---- From entries to lists ----

  function Length(s: string): nat {
    |s|
  }

  lemma {:induction false} DedupeTotal(s: seq<string>)
    ensures Total(Dedupe(s), Length) <= Total(s, Length)
  {
    if s != [] {
      var n := |s| - 1;
      DedupeTotal(s[..n]);
      TotalAppend(s[..n], [s[n]], Length);
      TotalAppend(Dedupe(s[..n]), if s[n] in s[..n] then [] else [s[n]], Length);
      assert s == s[..n] + [s[n]];
    }
  }

  lemma {:induction false} DedupeFixed(s: seq<string>)
    requires forall i, j | 0 <= i < j < |s| :: s[i] != s[j]
    ensures Dedupe(s) == s
  {
    if s != [] {
      DedupeFixed(s[..|s| - 1]);
      assert s == s[..|s| - 1] + [s[|s| - 1]];
    }
  }

  lemma {:induction false} CleanTotal(paths: seq<string>)
    ensures Total(CleanAll(paths), Length) <= Total(paths, Length)
    ensures (forall i | 0 <= i < |paths| :: '\\' !in paths[i]) && Total(CleanAll(paths), Length) == Total(paths, Length)
            ==> CleanAll(paths) == paths
  {
    hide Clean;
    if paths != [] {
      CleanShrinks(paths[0]);
      CleanTotal(paths[1..]);
      assert CleanAll(paths)[1..] == CleanAll(paths[1..]);
      assert paths == [paths[0]] + paths[1..] && CleanAll(paths) == [Clean(paths[0])] + CleanAll(paths[1..]);
    }
  }

  /** A list that is its own canonical form consists of clean entries. */
  lemma {:induction false} FixedIsClean(paths: seq<string>)
    requires (forall i | 0 <= i < |paths| :: '\\' !in paths[i]) && Canonical(paths) == paths
    ensures CleanAll(paths) == paths
  {
    var cleaned := CleanAll(paths);
    CleanTotal(paths);
    DedupeTotal(cleaned);
    SortPermutes(Dedupe(cleaned), PathLeq());
    TotalPermuted(paths, Dedupe(cleaned), Length);
  }

  lemma {:induction false} PathLeqIsTotal()
    ensures TotalPreorder(PathLeq())
  {
    forall a, b
      ensures PathLeq()(a, b) || PathLeq()(b, a)
    {
      LexTotal(a, b, UnitRank);
    }
    forall a, b, c | PathLeq()(a, b) && PathLeq()(b, c)
      ensures PathLeq()(a, c)
    {
      LexTransitive(a, b, c, UnitRank);
    }
  }

  lemma {:induction false} DedupeDistinct(s: seq<string>)
    ensures forall i, j | 0 <= i < j < |Dedupe(s)| :: Dedupe(s)[i] != Dedupe(s)[j]
    ensures forall x :: x in Dedupe(s) <==> x in s
  {
    if s != [] {
      var n := |s| - 1;
      DedupeDistinct(s[..n]);
      assert s == s[..n] + [s[n]];
    }
  }

  lemma {:induction false} CanonicalMembers(raw: seq<string>)
    ensures forall i | 0 <= i < |raw| :: Clean(raw[i]) in Canonical(raw)
    ensures forall k | 0 <= k < |Canonical(raw)| :: exists i | 0 <= i < |raw| :: Clean(raw[i]) == Canonical(raw)[k]
  {
    var cleaned := CleanAll(raw);
    var once := Dedupe(cleaned);
    DedupeDistinct(cleaned);
    SortPermutes(once, PathLeq());
    MembersFromMultiset(Canonical(raw), once);
    forall i | 0 <= i < |raw|
      ensures Clean(raw[i]) in Canonical(raw)
    {
      assert cleaned[i] in cleaned;
    }
    forall k | 0 <= k < |Canonical(raw)|
      ensures exists i | 0 <= i < |raw| :: Clean(raw[i]) == Canonical(raw)[k]
    {
      assert Canonical(raw)[k] in Canonical(raw) && Canonical(raw)[k] in cleaned;
      var i :| 0 <= i < |cleaned| && cleaned[i] == Canonical(raw)[k];
    }
  }

  lemma {:induction false} CanonicalIsSortedOnce(raw: seq<string>)
    ensures SortedBy(Canonical(raw), PathLeq())
    ensures forall i, j | 0 <= i < j < |Canonical(raw)| :: Canonical(raw)[i] != Canonical(raw)[j]
  {
    var once, id := Dedupe(CleanAll(raw)), (x: string) => x;
    DedupeDistinct(CleanAll(raw));
    PathLeqIsTotal();
    SortSorts(once, PathLeq());
    assert DistinctBy(once, id);
    SortDistinct(once, PathLeq(), id);
    assert forall i, j | 0 <= i < j < |Canonical(raw)| :: id(Canonical(raw)[i]) != id(Canonical(raw)[j]);
  }

  lemma {:induction false} CleanListIsStable(p: seq<string>)
    requires CleanAll(p) == p && SortedBy(p, PathLeq()) && forall i, j | 0 <= i < j < |p| :: p[i] != p[j]
    ensures Canonical(p) == p
  {
    DedupeFixed(p);
    SortFixed(p, PathLeq());
  }

  lemma {:induction false} CanonicalEntry(raw: seq<string>, k: nat) returns (i: nat)
    requires k < |Canonical(raw)|
    ensures i < |raw| && Clean(raw[i]) == Canonical(raw)[k] && '\\' !in Canonical(raw)[k]
  {
    CanonicalMembers(raw);
    i :| 0 <= i < |raw| && Clean(raw[i]) == Canonical(raw)[k];
    NoBackslash(raw[i]);
  }

  lemma {:induction false} StableFromEntries(raw: seq<string>, p: seq<string>)
    requires AllSafe(CleanAll(raw)) && p == Canonical(raw) && forall i | 0 <= i < |raw| :: !DotThenSpace(raw[i])
    ensures CleanAll(p) == p && AllSafe(p)
  {
    forall k | 0 <= k < |p|
      ensures Clean(p[k]) == p[k] && !Unsafe(p[k])
    {
      var i := CanonicalEntry(raw, k);
      assert !Unsafe(CleanAll(raw)[i]);
      CleanTwice(raw[i]);
    }
  }

  lemma {:induction false} EntriesFromStable(raw: seq<string>, p: seq<string>, i: nat)
    requires AllSafe(CleanAll(raw)) && p == Canonical(raw) && CleanAll(p) == p && i < |raw|
    ensures !DotThenSpace(raw[i])
  {
    CanonicalMembers(raw);
    assert Clean(raw[i]) in p;
    var k :| 0 <= k < |p| && p[k] == Clean(raw[i]);
    assert CleanAll(p)[k] == Clean(p[k]) && !Unsafe(CleanAll(raw)[i]);
    CleanTwice(raw[i]);
  }

  /** The stored paths are accepted as canonical exactly when no changed path is a "./" before white space. */
  lemma {:induction false} CanonicalIsStableIff(raw: seq<string>, p: seq<string>)
    requires AllSafe(CleanAll(raw)) && p == Canonical(raw)
    ensures AllSafe(CleanAll(p)) && Canonical(p) == p <==> forall i | 0 <= i < |raw| :: !DotThenSpace(raw[i])
  {
    CanonicalIsSortedOnce(raw);
    if forall i | 0 <= i < |raw| :: !DotThenSpace(raw[i]) {
      StableFromEntries(raw, p);
      CleanListIsStable(p);
    }
    if Canonical(p) == p {
      forall k | 0 <= k < |p|
        ensures '\\' !in p[k]
      {
        var i := CanonicalEntry(raw, k);
      }
      FixedIsClean(p);
      forall i | 0 <= i < |raw|
        ensures !DotThenSpace(raw[i])
      {
        EntriesFromStable(raw, p, i);
      }
    }
  }

  lemma {:induction false} DotSpaceEntry()
    ensures DotThenSpace("./ a") && Clean("./ a") == " a"
  {
    var r := "./ a";
    SpaceFacts();
    hide IsSpace, Trim;
    assert r[0] == '.' && r[3] == 'a';
    TrimmedIsFixed(r);
    assert r[..2] == "./" && r[2..] == " a" && r[2] == ' ';
  }

  lemma {:induction false} SpaceEntryIsSafe()
    ensures !Unsafe(" a")
  {
    SplitAppend(" a", "", '/');
    assert Split(" a", '/') == [" a"];
    assert " a"[1..] == "a" && "a"[1..] == "" && !Contains("", "/../") && !Contains("a", "/../");
  }

  /** A change reported as "./ a" is stored as " a", which its own loader refuses. */
  lemma {:induction false} StoredPathCanBeRefused(p: seq<string>)
    requires p == Canonical(["./ a"])
    ensures AllSafe(CleanAll(["./ a"])) && !(AllSafe(CleanAll(p)) && Canonical(p) == p)
  {
    DotSpaceEntry();
    SpaceEntryIsSafe();
    assert CleanAll(["./ a"]) == [" a"];
    CanonicalIsStableIff(["./ a"], p);
    assert ["./ a"][0] == "./ a";
  }
}
