/** Precedence as section 11 of Semantic Versioning 2.0.0 defines it, over version strings. */
module SemVer {
  import opened Decimal
  import opened Sorting
  import opened Text
  import opened Wrappers

  type Natural = s: string | Numeral(s) witness "0"

  datatype Version = Version(major: Natural, minor: Natural, patch: Natural, pre: seq<string>)

  function ParseCore(v: string, pre: seq<string>): Option<Version> {
    var parts := Split(v, '.');
    if |parts| == 3 && Numeral(parts[0]) && Numeral(parts[1]) && Numeral(parts[2])
    then Some(Version(parts[0], parts[1], parts[2], pre))
    else None
  }

  /** X.Y.Z[-id.id...]; build metadata is not part of this model. */
  function Parse(v: string): Option<Version> {
    var dash := IndexOf(v, '-');
    ParseCore(v[..dash], if dash < |v| then Split(v[dash + 1..], '.') else [])
  }

  predicate Stable(v: string) {
    ParseCore(v, []).Some?
  }

  predicate CoreLess(a: Version, b: Version) {
    || Value(a.major) < Value(b.major)
    || (Value(a.major) == Value(b.major) && Value(a.minor) < Value(b.minor))
    || (Value(a.major) == Value(b.major) && Value(a.minor) == Value(b.minor) && Value(a.patch) < Value(b.patch))
  }

  predicate CoreEqual(a: Version, b: Version) {
    Value(a.major) == Value(b.major) && Value(a.minor) == Value(b.minor) && Value(a.patch) == Value(b.patch)
  }

  predicate Numeric(id: string) {
    id != [] && Digits(id)
  }

  /** Numeric identifiers compare as numbers and come before alphanumeric ones, which compare in ASCII order. */
  predicate IdLess(a: string, b: string) {
    if Numeric(a) && Numeric(b) then Value(a) < Value(b)
    else if Numeric(a) then true
    else if Numeric(b) then false
    else StringLess(a, b)
  }

  predicate IdSame(a: string, b: string) {
    a == b || (Numeric(a) && Numeric(b) && Value(a) == Value(b))
  }

  /** A longer list of identifiers wins when all earlier ones tie. */
  predicate IdsLess(a: seq<string>, b: seq<string>) {
    b != [] && (a == [] || IdLess(a[0], b[0]) || (IdSame(a[0], b[0]) && IdsLess(a[1..], b[1..])))
  }

  /** A pre-release precedes the release it leads to. */
  predicate Less(a: Version, b: Version) {
    || CoreLess(a, b)
    || (CoreEqual(a, b) && a.pre != [] && (b.pre == [] || IdsLess(a.pre, b.pre)))
  }

  /** Precedence between two version strings. */
  predicate Precedes(a: string, b: string) {
    Parse(a).Some? && Parse(b).Some? && Less(Parse(a).value, Parse(b).value)
  }

  function CoreText(v: Version): string {
    v.major + "." + v.minor + "." + v.patch
  }

  lemma {:induction false} CoreTextSplits(v: Version)
    ensures Split(CoreText(v), '.') == [v.major, v.minor, v.patch]
    ensures '-' !in CoreText(v)
    ensures ParseCore(CoreText(v), v.pre) == Some(v)
  {
    var tail := v.minor + "." + v.patch;
    assert CoreText(v) == v.major + "." + tail;
    SplitAppend(v.major, tail, '.');
    SplitAppend(v.minor, v.patch, '.');
    SplitAppend(v.patch, [], '.');
  }

  lemma {:induction false} CoreTextOfParsed(v: string, pre: seq<string>)
    requires ParseCore(v, pre).Some?
    ensures v == CoreText(ParseCore(v, pre).value)
  {
    var parts := Split(v, '.');
    JoinSplit(v, '.');
    assert parts[1..][1..] == [parts[2]];
    assert Join(parts[1..], '.') == parts[1] + ['.'] + parts[2];
    assert Join(parts, '.') == parts[0] + ['.'] + Join(parts[1..], '.');
  }

  lemma {:induction false} ParseStable(v: string)
    requires Stable(v)
    ensures Parse(v) == ParseCore(v, [])
  {
    CoreTextOfParsed(v, []);
    CoreTextSplits(ParseCore(v, []).value);
    assert v[..|v|] == v;
  }

  lemma {:induction false} ParseRendered(v: Version)
    requires v.pre != [] && forall p | p in v.pre :: '.' !in p
    ensures Parse(CoreText(v) + "-" + Join(v.pre, '.')) == Some(v)
  {
    var a, b := CoreText(v), Join(v.pre, '.');
    CoreTextSplits(v);
    IndexOfFirst(a + "-" + b, a, '-', b);
    SplitJoin(v.pre, '.');
  }

  datatype CompareError = NotStable

  function CompareParts(left: seq<string>, right: seq<string>): int
    requires |left| == |right|
  {
    if left == [] then 0
    else
      var c := CompareNumericIdentifiers(left[0], right[0]);
      if c != 0 then c else CompareParts(left[1..], right[1..])
  }

  function CompareStableVersions(left: string, right: string): Result<int, CompareError> {
    if !Stable(left) || !Stable(right) then Err(NotStable)
    else Ok(CompareParts(Split(left, '.'), Split(right, '.')))
  }

  lemma {:induction false} NumeralsEqual(a: Natural, b: Natural)
    requires Value(a) == Value(b)
    ensures a == b
  {
    CompareAgreesWithValue(a, b);
    LexTotal(a, b, CharRank);
  }

  lemma {:induction false} ComparePartsThree(a: seq<string>, b: seq<string>)
    requires |a| == |b| == 3
    ensures CompareParts(a, b) ==
            var x := CompareNumericIdentifiers(a[0], b[0]);
            var y := CompareNumericIdentifiers(a[1], b[1]);
            if x != 0 then x else if y != 0 then y else CompareNumericIdentifiers(a[2], b[2])
  {
    assert CompareParts(a[1..][1..], b[1..][1..]) == CompareNumericIdentifiers(a[2], b[2]) by {
      assert CompareParts(a[1..][1..][1..], b[1..][1..][1..]) == 0;
    }
  }

  /** The string comparison of stable versions is SemVer precedence, at every size. */
  lemma {:induction false} CompareIsPrecedence(left: string, right: string)
    requires Stable(left) && Stable(right)
    ensures CompareStableVersions(left, right).Ok?
    ensures CompareStableVersions(left, right).value < 0 <==> Precedes(left, right)
    ensures CompareStableVersions(left, right).value > 0 <==> Precedes(right, left)
    ensures CompareStableVersions(left, right).value == 0 <==> left == right
  {
    var a, b := ParseCore(left, []).value, ParseCore(right, []).value;
    ParseStable(left);
    ParseStable(right);
    CoreTextOfParsed(left, []);
    CoreTextOfParsed(right, []);
    ComparePartsThree(Split(left, '.'), Split(right, '.'));
    CompareAgreesWithValue(a.major, b.major);
    CompareAgreesWithValue(a.minor, b.minor);
    CompareAgreesWithValue(a.patch, b.patch);
    if CoreEqual(a, b) {
      NumeralsEqual(a.major, b.major);
      NumeralsEqual(a.minor, b.minor);
      NumeralsEqual(a.patch, b.patch);
    }
  }
}
