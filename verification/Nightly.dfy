/** Nightly version derivation: scripts/nightly-release.ts. */
module Nightly {
  import opened Decimal
  import opened SemVer
  import opened Text
  import opened Wrappers

  /** A UTC instant to the second. */
  datatype Utc = Utc(year: int, month: nat, day: nat, hour: nat, minute: nat, second: nat)

  /** An instant a JavaScript date can hold. */
  predicate Calendar(t: Utc) {
    -271821 <= t.year <= 275760 && 1 <= t.month <= 12 && 1 <= t.day <= 31 && t.hour < 24 && t.minute < 60 && t.second < 60
  }

  datatype Error = NoVersions | BadRunId | BadSha | UnstableVersion | MixedLines | InvalidDate

  predicate PositiveNumeral(s: string) {
    Numeral(s) && s[0] != '0'
  }

  predicate SourceSha(s: string) {
    |s| == 40 && forall i | 0 <= i < 40 :: Digit(s[i]) || 'a' <= s[i] <= 'f'
  }

  /** Expanded years outside 0..9999 print with a sign and six digits; the minus sign is stripped. */
  function YearText(year: int): string {
    if 0 <= year <= 9999 then ToFixed(year, 4)
    else if year > 9999 then "+" + ToFixed(year, 6)
    else ToFixed(-year, 6)
  }

  function ClockText(t: Utc): string {
    ToFixed(t.month, 2) + ToFixed(t.day, 2) + ToFixed(t.hour, 2) + ToFixed(t.minute, 2) + ToFixed(t.second, 2)
  }

  /** The first fourteen characters of the ISO timestamp without its separators. */
  function UtcIdentifier(t: Utc): (s: string)
    ensures |s| == 14
  {
    (YearText(t.year) + ClockText(t))[..14]
  }

  function Parsed(v: string): Version
    requires Stable(v)
  {
    ParseCore(v, []).value
  }

  /** The reduction that keeps the larger patch numeral. */
  function HighestPatch(versions: seq<string>): Natural
    requires versions != [] && forall i | 0 <= i < |versions| :: Stable(versions[i])
  {
    var n := |versions| - 1;
    var candidate := Parsed(versions[n]).patch;
    if n == 0 then candidate
    else
      var highest := HighestPatch(versions[..n]);
      if CompareNumericIdentifiers(candidate, highest) > 0 then candidate else highest
  }

  function NextVersion(versions: seq<string>, pre: seq<string>): Version
    requires versions != [] && forall i | 0 <= i < |versions| :: Stable(versions[i])
  {
    var first, next := Parsed(versions[0]), Value(HighestPatch(versions)) + 1;
    ToDecimalValue(next);
    Version(first.major, first.minor, ToDecimal(next), pre)
  }

  predicate OneLine(versions: seq<string>)
    requires versions != [] && forall i | 0 <= i < |versions| :: Stable(versions[i])
  {
    forall i | 0 <= i < |versions| ::
      Parsed(versions[i]).major == Parsed(versions[0]).major && Parsed(versions[i]).minor == Parsed(versions[0]).minor
  }

  function Identifiers(t: Utc, runId: string, sha: string): seq<string>
    requires |sha| >= 12
  {
    ["nightly", UtcIdentifier(t), runId, "g" + sha[..12]]
  }

  function DeriveNightlyVersion(versions: seq<string>, timestamp: Option<Utc>, runId: string, sha: string)
    : Result<string, Error>
  {
    if versions == [] then Err(NoVersions)
    else if !PositiveNumeral(runId) then Err(BadRunId)
    else if !SourceSha(sha) then Err(BadSha)
    else if exists i | 0 <= i < |versions| :: !Stable(versions[i]) then Err(UnstableVersion)
    else if !OneLine(versions) then Err(MixedLines)
    else if timestamp.None? then Err(InvalidDate)
    else
      var next := NextVersion(versions, []);
      Ok(next.major + "." + next.minor + "." + next.patch
         + ("-nightly." + UtcIdentifier(timestamp.value) + "." + runId + ".g" + sha[..12]))
  }

  /** A run id is the decimal numeral of a positive number. */
  lemma {:induction false} RunIdIff(s: string)
    ensures PositiveNumeral(s) <==> exists n: nat :: n > 0 && s == ToDecimal(n)
  {
    if PositiveNumeral(s) {
      var n := Value(s);
      ToDecimalValue(n);
      NumeralsEqual(s, ToDecimal(n));
      LeadingDigitCounts(s);
    }
    if n: nat :| n > 0 && s == ToDecimal(n) {
      ToDecimalValue(n);
      PositiveStarts(s);
    }
  }

  lemma {:induction false} PositiveStarts(s: string)
    requires Numeral(s) && Value(s) > 0
    ensures s[0] != '0'
  {
    assert |s| == 1 ==> s[1..] == "";
  }

  lemma {:induction false} LeadingDigitCounts(s: string)
    requires Digits(s) && s != "" && s[0] != '0'
    ensures Value(s) > 0
  {
    LeadAtLeast(s[0] as int - '0' as int, Pow10(|s| - 1));
  }

  /** A source SHA is forty lower-case hexadecimal digits. */
  lemma {:induction false} ShaIff(s: string)
    ensures SourceSha(s) <==> |s| == 40 && forall i | 0 <= i < 40 :: s[i] in HEX
  {
    forall i | 0 <= i < |s|
      ensures s[i] in HEX <==> Digit(s[i]) || 'a' <= s[i] <= 'f'
    {
      HexAre(s[i]);
    }
  }

  /** A nightly is derived exactly from stable versions of one line, a date, a positive run id and a full SHA. */
  lemma {:induction false} DerivesIff(versions: seq<string>, timestamp: Option<Utc>, runId: string, sha: string)
    ensures DeriveNightlyVersion(versions, timestamp, runId, sha).Ok? <==>
            && versions != [] && timestamp.Some? && (forall i | 0 <= i < |versions| :: Stable(versions[i]))
            && (forall i | 0 <= i < |versions| :: Split(versions[i], '.')[..2] == Split(versions[0], '.')[..2])
            && (exists n: nat :: n > 0 && runId == ToDecimal(n)) && |sha| == 40 && forall i | 0 <= i < 40 :: sha[i] in HEX
  {
    RunIdIff(runId);
    ShaIff(sha);
    if versions != [] && forall i | 0 <= i < |versions| :: Stable(versions[i]) { LineIff(versions); }
    hide PositiveNumeral, SourceSha, Stable, OneLine, UtcIdentifier, NextVersion, Split, ToDecimal;
  }

  lemma {:induction false} LineIff(versions: seq<string>)
    requires versions != [] && forall i | 0 <= i < |versions| :: Stable(versions[i])
    ensures (forall i | 0 <= i < |versions| :: |Split(versions[i], '.')| == 3)
    ensures OneLine(versions) <==> forall i | 0 <= i < |versions| :: Split(versions[i], '.')[..2] == Split(versions[0], '.')[..2]
  {
    forall i | 0 <= i < |versions|
      ensures |Split(versions[i], '.')| == 3
      ensures Split(versions[i], '.')[..2] == [Parsed(versions[i]).major, Parsed(versions[i]).minor]
    {
      assert Stable(versions[i]);
    }
    hide Split, Parsed, Stable;
    forall i | 0 <= i < |versions|
      ensures Split(versions[i], '.')[..2] == Split(versions[0], '.')[..2]
              <==> Parsed(versions[i]).major == Parsed(versions[0]).major && Parsed(versions[i]).minor == Parsed(versions[0]).minor
    {
      TwoTexts(Parsed(versions[i]).major, Parsed(versions[i]).minor, Parsed(versions[0]).major, Parsed(versions[0]).minor);
    }
  }

  lemma {:induction false} TwoTexts(a: string, b: string, c: string, d: string)
    ensures [a, b] == [c, d] <==> a == c && b == d
  {
    assert [a, b][0] == a && [a, b][1] == b && [c, d][0] == c && [c, d][1] == d;
  }

  /** The highest patch is one of the list's, and every other is at most that. */
  lemma {:induction false} HighestPatchIsMaximum(versions: seq<string>, k: nat)
    requires k < |versions| && forall i | 0 <= i < |versions| :: Stable(versions[i])
    ensures Value(Parsed(versions[k]).patch) <= Value(HighestPatch(versions))
    ensures exists i | 0 <= i < |versions| :: Parsed(versions[i]).patch == HighestPatch(versions)
  {
    hide Stable, Parsed, Value, CompareNumericIdentifiers;
    var n := |versions| - 1;
    if n > 0 {
      CompareAgreesWithValue(Parsed(versions[n]).patch, HighestPatch(versions[..n]));
      HighestPatchIsMaximum(versions[..n], if k < n then k else 0);
      if HighestPatch(versions) != Parsed(versions[n]).patch {
        var i :| 0 <= i < n && Parsed(versions[..n][i]).patch == HighestPatch(versions[..n]);
        assert Parsed(versions[i]).patch == HighestPatch(versions);
      }
    }
  }

  lemma {:induction false} JoinFour(a: string, b: string, c: string, d: string)
    ensures Join([a, b, c, d], '.') == a + "." + b + "." + c + "." + d
  {
    assert Join([c, d], '.') == c + ['.'] + d by { assert [c, d][1..] == [d]; }
    assert Join([b, c, d], '.') == b + ['.'] + Join([c, d], '.') by { assert [b, c, d][1..] == [c, d]; }
    assert [a, b, c, d][1..] == [b, c, d];
  }

  lemma {:induction false} UtcHasNoDot(t: Utc)
    ensures '.' !in UtcIdentifier(t)
  {
    assert Digits(ClockText(t));
    assert forall i | 0 <= i < |YearText(t.year)| :: YearText(t.year)[i] != '.';
  }

  lemma {:induction false} TailText(ids: seq<string>, ts: string, runId: string, commit: string)
    requires ids == ["nightly", ts, runId, "g" + commit]
    ensures "-nightly." + ts + "." + runId + ".g" + commit == "-" + Join(ids, '.')
  {
    JoinFour("nightly", ts, runId, "g" + commit);
    assert "-nightly." == "-" + "nightly" + "." && ".g" == "." + "g";
  }

  lemma {:induction false} IdentifiersDotFree(t: Utc, runId: string, sha: string)
    requires PositiveNumeral(runId) && SourceSha(sha)
    ensures forall p | p in Identifiers(t, runId, sha) :: '.' !in p
  {
    UtcHasNoDot(t);
  }

  lemma {:induction false} DerivedText(versions: seq<string>, t: Utc, runId: string, sha: string)
    requires DeriveNightlyVersion(versions, Some(t), runId, sha).Ok?
    ensures DeriveNightlyVersion(versions, Some(t), runId, sha).value ==
            CoreText(NextVersion(versions, [])) + "-" + Join(Identifiers(t, runId, sha), '.')
  {
    var ids := Identifiers(t, runId, sha);
    TailText(ids, UtcIdentifier(t), runId, sha[..12]);
    var core := CoreText(NextVersion(versions, []));
    assert core + ("-" + Join(ids, '.')) == core + "-" + Join(ids, '.');
  }

  /** The derived string parses into the next patch core and four pre-release identifiers. */
  lemma {:induction false} DerivedParses(versions: seq<string>, t: Utc, runId: string, sha: string)
    requires DeriveNightlyVersion(versions, Some(t), runId, sha).Ok?
    ensures Parse(DeriveNightlyVersion(versions, Some(t), runId, sha).value) ==
            Some(NextVersion(versions, Identifiers(t, runId, sha)))
  {
    IdentifiersDotFree(t, runId, sha);
    DerivedText(versions, t, runId, sha);
    ParseRendered(NextVersion(versions, Identifiers(t, runId, sha)));
  }

  /** The derived nightly is above every stable version it was derived from. */
  lemma {:induction false} NightlyAboveStable(versions: seq<string>, t: Utc, runId: string, sha: string, k: nat)
    requires DeriveNightlyVersion(versions, Some(t), runId, sha).Ok? && k < |versions|
    ensures Precedes(versions[k], DeriveNightlyVersion(versions, Some(t), runId, sha).value)
  {
    DerivedParses(versions, t, runId, sha);
    ParseStable(versions[k]);
    HighestPatchIsMaximum(versions, k);
    ToDecimalValue(Value(HighestPatch(versions)) + 1);
  }

  /** ... and below the patch release it leads to, as below every later release. */
  lemma {:induction false} NightlyBelowNextPatch(versions: seq<string>, t: Utc, runId: string, sha: string, release: string)
    requires DeriveNightlyVersion(versions, Some(t), runId, sha).Ok?
    requires Stable(release) && !CoreLess(Parsed(release), NextVersion(versions, []))
    ensures Precedes(DeriveNightlyVersion(versions, Some(t), runId, sha).value, release)
  {
    DerivedParses(versions, t, runId, sha);
    ParseStable(release);
  }

  predicate Before(t: Utc, u: Utc) {
    || t.year < u.year
    || (t.year == u.year && t.month < u.month)
    || (t.year == u.year && t.month == u.month && t.day < u.day)
    || (t.year == u.year && t.month == u.month && t.day == u.day && t.hour < u.hour)
    || (t.year == u.year && t.month == u.month && t.day == u.day && t.hour == u.hour && t.minute < u.minute)
    || (t.year == u.year && t.month == u.month && t.day == u.day && t.hour == u.hour && t.minute == u.minute
        && t.second < u.second)
  }

  function Instant(t: Utc): int {
    ((((t.year * 100 + t.month) * 100 + t.day) * 100 + t.hour) * 100 + t.minute) * 100 + t.second
  }

  lemma {:induction false} Pow10Small()
    ensures Pow10(2) == 100 && Pow10(4) == 10000
  {
    assert Pow10(1) == 10 * Pow10(0) && Pow10(2) == 10 * Pow10(1) && Pow10(3) == 10 * Pow10(2);
  }

  lemma {:induction false} AppendPair(s: string, n: nat)
    requires Digits(s) && n < 100
    ensures Digits(s + ToFixed(n, 2)) && Value(s + ToFixed(n, 2)) == Value(s) * 100 + n
  {
    Pow10Small();
    ToFixedValue(n, 2);
    ValueAppend(s, ToFixed(n, 2));
  }

  lemma {:induction false} UtcIdentifierValue(t: Utc)
    requires Calendar(t) && 0 <= t.year <= 9999
    ensures Digits(UtcIdentifier(t)) && Value(UtcIdentifier(t)) == Instant(t)
  {
    Pow10Small();
    hide Value, Digits, ToFixed;
    var y := ToFixed(t.year, 4);
    ToFixedValue(t.year, 4);
    var mo := y + ToFixed(t.month, 2);
    AppendPair(y, t.month);
    var d := mo + ToFixed(t.day, 2);
    AppendPair(mo, t.day);
    var h := d + ToFixed(t.hour, 2);
    AppendPair(d, t.hour);
    var mi := h + ToFixed(t.minute, 2);
    AppendPair(h, t.minute);
    AppendPair(mi, t.second);
    assert UtcIdentifier(t) == mi + ToFixed(t.second, 2);
  }

  lemma {:induction false} LeadAtLeast(d: int, p: int)
    requires d >= 1 && p >= 0
    ensures p <= d * p
  {
  }

  lemma {:induction false} LeadingDigit(n: nat, w: nat)
    requires w > 0 && n < Pow10(w)
    ensures ToFixed(n, w)[0] == '0' <==> n < Pow10(w - 1)
  {
    var s := ToFixed(n, w);
    ToFixedValue(n, w);
    var d, p := s[0] as int - '0' as int, Pow10(w - 1);
    assert Value(s) == d * p + Value(s[1..]);
    if d > 0 { LeadAtLeast(d, p); }
  }

  lemma {:induction false} Pow10Six()
    ensures Pow10(5) == 100000 && Pow10(6) == 1000000
  {
    Pow10Small();
    assert Pow10(5) == 10 * Pow10(4) && Pow10(6) == 10 * Pow10(5);
  }

  /**
   * The timestamp is a legal numeric identifier exactly for four-digit years without a leading zero, and for
   * years so far before zero that their six digits have none.
   */
  lemma {:induction false} UtcIdentifierIsNumeralIff(t: Utc)
    requires Calendar(t)
    ensures Numeral(UtcIdentifier(t)) <==> 1000 <= t.year <= 9999 || t.year <= -100000
  {
    if t.year > 9999 {
      assert UtcIdentifier(t)[0] == '+';
    } else if t.year >= 0 {
      UtcIdentifierValue(t);
      Pow10Small();
      assert Pow10(4) == 10 * Pow10(3);
      LeadingDigit(t.year, 4);
      assert UtcIdentifier(t)[0] == ToFixed(t.year, 4)[0];
    } else {
      Pow10Six();
      LeadingDigit(-t.year, 6);
      EarlyIdentifier(t);
    }
  }

  lemma {:induction false} EarlyIdentifier(t: Utc)
    requires t.year < 0
    ensures Digits(UtcIdentifier(t)) && UtcIdentifier(t)[0] == ToFixed(-t.year, 6)[0]
  {
    hide ToFixed;
    var text := YearText(t.year) + ClockText(t);
    assert Digits(ClockText(t)) && Digits(YearText(t.year)) && Digits(text);
  }

  lemma {:induction false} IdentifiersOrdered(a: seq<string>, b: seq<string>)
    requires |a| == |b| == 4 && a[0] == b[0]
    requires IdLess(a[1], b[1]) || (a[1] == b[1] && IdLess(a[2], b[2]))
    ensures IdsLess(a, b)
  {
    assert a[1..][0] == a[1] && b[1..][0] == b[1];
    assert a[1..][1..][0] == a[2] && b[1..][1..][0] == b[2];
    assert a[1] == b[1] ==> IdsLess(a[1..][1..], b[1..][1..]);
    assert IdsLess(a[1..], b[1..]);
  }

  lemma {:induction false} BeforeIsEarlier(t: Utc, u: Utc)
    requires Calendar(t) && Calendar(u) && Before(t, u)
    ensures Instant(t) < Instant(u)
  {
  }

  lemma {:induction false} NightlyIdentifiersOrdered(t: Utc, run: string, sha: string, u: Utc, run': string, sha': string)
    requires Calendar(t) && Calendar(u) && 1000 <= t.year <= 9999 && 1000 <= u.year <= 9999
    requires PositiveNumeral(run) && PositiveNumeral(run') && |sha| >= 12 && |sha'| >= 12
    requires Before(t, u) || (t == u && Value(run) < Value(run'))
    ensures IdsLess(Identifiers(t, run, sha), Identifiers(u, run', sha'))
  {
    UtcIdentifierValue(t);
    UtcIdentifierValue(u);
    if Before(t, u) { BeforeIsEarlier(t, u); }
    hide Value, Digits, Instant, Before, UtcIdentifier, IdsLess;
    IdentifiersOrdered(Identifiers(t, run, sha), Identifiers(u, run', sha'));
  }

  lemma {:induction false} DerivedFrom(versions: seq<string>, t: Utc, run: string, sha: string)
    requires DeriveNightlyVersion(versions, Some(t), run, sha).Ok?
    ensures versions != [] && (forall i | 0 <= i < |versions| :: Stable(versions[i])) && PositiveNumeral(run) && |sha| >= 12
  {
    hide Stable, PositiveNumeral, UtcIdentifier, NextVersion, OneLine;
  }

  predicate AllStable(versions: seq<string>) {
    versions != [] && forall i | 0 <= i < |versions| :: Stable(versions[i])
  }

  predicate SameLine(v: seq<string>, w: seq<string>)
    requires AllStable(v) && AllStable(w)
  {
    Parsed(v[0]).major == Parsed(w[0]).major && Parsed(v[0]).minor == Parsed(w[0]).minor
  }

  lemma {:induction false} SameLineLess(v: seq<string>, a: seq<string>, w: seq<string>, b: seq<string>)
    requires AllStable(v) && AllStable(w) && SameLine(v, w) && a != [] && b != []
    requires Value(HighestPatch(v)) < Value(HighestPatch(w))
             || (Value(HighestPatch(v)) == Value(HighestPatch(w)) && IdsLess(a, b))
    ensures Less(NextVersion(v, a), NextVersion(w, b))
  {
    ToDecimalValue(Value(HighestPatch(v)) + 1);
    ToDecimalValue(Value(HighestPatch(w)) + 1);
    hide Stable, Value, IdsLess, HighestPatch, ToDecimal, Parsed;
  }

  /** A later timestamp, or a larger run id at the same time, in years whose timestamps are numeric identifiers. */
  predicate LaterRun(t: Utc, run: string, u: Utc, run': string)
    requires Digits(run) && Digits(run')
  {
    && Calendar(t) && Calendar(u) && 1000 <= t.year <= 9999 && 1000 <= u.year <= 9999
    && (Before(t, u) || (t == u && Value(run) < Value(run')))
  }

  /** Nightlies of one line are ordered by highest patch, then by timestamp, then by run id. */
  lemma {:induction false} NightlyIncreasing(v: seq<string>, t: Utc, run: string, sha: string,
                                             w: seq<string>, u: Utc, run': string, sha': string)
    requires DeriveNightlyVersion(v, Some(t), run, sha).Ok? && DeriveNightlyVersion(w, Some(u), run', sha').Ok?
    requires AllStable(v) && AllStable(w) && SameLine(v, w) && Digits(run) && Digits(run')
    requires Value(HighestPatch(v)) < Value(HighestPatch(w))
             || (Value(HighestPatch(v)) == Value(HighestPatch(w)) && LaterRun(t, run, u, run'))
    ensures Precedes(DeriveNightlyVersion(v, Some(t), run, sha).value, DeriveNightlyVersion(w, Some(u), run', sha').value)
  {
    hide DeriveNightlyVersion, Parse, Value, NextVersion, Less, Stable, Before, HighestPatch, Parsed, Digits;
    DerivedFrom(v, t, run, sha);
    DerivedFrom(w, u, run', sha');
    DerivedParses(v, t, run, sha);
    DerivedParses(w, u, run', sha');
    if LaterRun(t, run, u, run') { NightlyIdentifiersOrdered(t, run, sha, u, run', sha'); }
    SameLineLess(v, Identifiers(t, run, sha), w, Identifiers(u, run', sha'));
  }
}
