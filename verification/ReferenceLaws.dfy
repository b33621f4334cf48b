/** What references select and where they occur, on the values themselves. */
module ReferenceLaws {
  import Decimal
  import opened ReferencePlan
  import opened Text
  import opened Wrappers

  // ---- Children ----

  function Values(fs: Fields): (r: seq<Json>)
    ensures |r| == |Names(fs)|
  {
    match fs
    case End => []
    case Pair(_, value, rest) => [value] + Values(rest)
  }

  /** The first property of that name. */
  ghost predicate Property(fs: Fields, name: string, i: nat) {
    i < |Names(fs)| && Names(fs)[i] == name && forall j | 0 <= j < i :: Names(fs)[j] != name
  }

  /** `w` is the element at that index of an array, or the own property of that name of an object. */
  ghost predicate Child(v: Json, segment: string, w: Json) {
    match v
    case Arr(items) =>
      segment != "" && Decimal.Digits(segment) && Decimal.Value(segment) < |ToSeq(items)| && w == ToSeq(items)[Decimal.Value(segment)]
    case Obj(fs) => exists i | 0 <= i < |Values(fs)| :: Property(fs, segment, i) && w == Values(fs)[i]
    case _ => false
  }

  lemma {:induction false} AtIff(items: Items, i: nat)
    ensures At(items, i) == if i < |ToSeq(items)| then Some(ToSeq(items)[i]) else None
  {
    match items
    case Nil =>
    case Cons(_, tail) => if i > 0 { AtIff(tail, i - 1); }
  }

  lemma {:induction false} LookupFinds(fs: Fields, name: string) returns (i: nat)
    requires Lookup(fs, name).Some?
    ensures Property(fs, name, i) && Lookup(fs, name) == Some(Values(fs)[i])
  {
    match fs
    case Pair(n, _, rest) =>
      if n == name {
        i := 0;
      } else {
        var j := LookupFinds(rest, name);
        assert forall k | 0 <= k < j :: Names(fs)[k + 1] == Names(rest)[k];
        i := j + 1;
      }
  }

  lemma {:induction false} PropertyIsFound(fs: Fields, name: string, i: nat)
    requires Property(fs, name, i)
    ensures Lookup(fs, name) == Some(Values(fs)[i])
  {
    match fs
    case Pair(n, _, rest) =>
      if i > 0 {
        assert Names(fs)[0] == n;
        assert forall k | 0 <= k < i - 1 :: Names(rest)[k] == Names(fs)[k + 1];
        PropertyIsFound(rest, name, i - 1);
      }
  }

  lemma {:induction false} LookupIff(fs: Fields, name: string, w: Json)
    ensures Lookup(fs, name) == Some(w) <==> exists i | 0 <= i < |Values(fs)| :: Property(fs, name, i) && w == Values(fs)[i]
  {
    hide Property, Lookup, Values;
    if Lookup(fs, name) == Some(w) {
      var i := LookupFinds(fs, name);
      PropertyBound(fs, name, i);
    }
    if i :| 0 <= i < |Values(fs)| && Property(fs, name, i) && w == Values(fs)[i] { PropertyIsFound(fs, name, i); }
  }

  lemma {:induction false} PropertyBound(fs: Fields, name: string, i: nat)
    requires Property(fs, name, i)
    ensures i < |Values(fs)|
  {
  }

  lemma {:induction false} NumberIsValue(digits: string)
    requires Decimal.Digits(digits)
    ensures Number(digits) == Decimal.Value(digits)
  {
    if digits != "" {
      var n := |digits| - 1;
      NumberIsValue(digits[..n]);
      assert digits == digits[..n] + [digits[n]];
      Decimal.ValueAppend(digits[..n], [digits[n]]);
      assert Decimal.Pow10(1) == 10 * Decimal.Pow10(0);
      LastDigit(digits[n]);
    }
  }

  lemma {:induction false} LastDigit(c: char)
    requires Decimal.Digit(c)
    ensures Decimal.Value([c]) == (c as int - '0' as int) % 10
  {
    assert [c][1..] == [];
    assert Decimal.Pow10(0) == 1 && Decimal.Value([c]) == (c as int - '0' as int) * 1 + Decimal.Value([]);
  }

  function Next(root: Json, segment: string): Option<Json> {
    match root
    case Arr(items) => if AllDigits(segment) then At(items, Number(segment)) else None
    case Obj(fs) => Lookup(fs, segment)
    case _ => None
  }

  lemma {:induction false} NextIff(root: Json, segment: string, w: Json)
    ensures Next(root, segment) == Some(w) <==> Child(root, segment, w)
  {
    match root
    case Arr(items) =>
      if AllDigits(segment) {
        NumberIsValue(segment);
        AtIff(items, Number(segment));
      }
    case Obj(fs) => LookupIff(fs, segment, w);
    case _ =>
  }

  // ---- Selecting ----

  /** Values met on the way from the root, one child per segment. */
  ghost predicate Path(root: Json, segments: seq<string>, met: seq<Json>) {
    |met| == |segments| + 1 && met[0] == root && forall i | 0 <= i < |segments| :: Child(met[i], segments[i], met[i + 1])
  }

  lemma {:induction false} PathCons(root: Json, segments: seq<string>, met: seq<Json>)
    requires segments != []
    ensures met != [] && Child(root, segments[0], met[0]) && Path(met[0], segments[1..], met) ==> Path(root, segments, [root] + met)
    ensures Path(root, segments, met) ==> |met| > 1 && Child(root, segments[0], met[1]) && Path(met[1], segments[1..], met[1..])
  {
    hide Child;
    assert forall i | 0 < i < |segments| :: segments[i] == segments[1..][i - 1];
  }

  lemma {:induction false} WalkNext(root: Json, segments: seq<string>)
    requires segments != []
    ensures var next := Next(root, segments[0]);
            Walk(root, segments) == if next.None? then Err(Unresolved) else Walk(next.value, segments[1..])
  {
    hide AllDigits, At, Number, Lookup;
  }

  /** Selecting returns the value at the end of the path, one child per segment. */
  lemma {:induction false} WalkIff(root: Json, segments: seq<string>, w: Json)
    ensures Walk(root, segments) == Ok(w) <==> exists met :: Path(root, segments, met) && met[|segments|] == w
    decreases |segments|
  {
    if segments == [] {
      assert Path(root, segments, [root]);
    } else {
      WalkNext(root, segments);
      hide Child, Walk, Next;
      var rest, next := segments[1..], Next(root, segments[0]);
      if next.Some? {
        NextIff(root, segments[0], next.value);
        WalkIff(next.value, rest, w);
        if met :| Path(next.value, rest, met) && met[|rest|] == w {
          PathCons(root, segments, met);
          assert ([root] + met)[|segments|] == w;
        }
      }
      if met :| Path(root, segments, met) && met[|segments|] == w {
        PathCons(root, segments, met);
        NextIff(root, segments[0], met[1]);
        assert met[1..][|rest|] == w;
      }
    }
  }

  /** The text has the part somewhere inside. */
  ghost predicate Substring(part: string, text: string, at: nat) {
    at + |part| <= |text| && text[at..at + |part|] == part
  }

  lemma {:induction false} IncludesIff(text: string, part: string)
    ensures Includes(text, part) <==> exists at: nat :: Substring(part, text, at)
  {
    if |part| <= |text| && text[..|part|] == part {
      assert Substring(part, text, 0);
    } else if text != "" {
      IncludesIff(text[1..], part);
      if at: nat :| Substring(part, text[1..], at) {
        assert text[1..][at..at + |part|] == text[at + 1..at + 1 + |part|];
        assert Substring(part, text, at + 1);
      }
      if at: nat :| Substring(part, text, at) {
        assert at > 0;
        assert text[1..][at - 1..at - 1 + |part|] == text[at..at + |part|];
        assert Substring(part, text[1..], at - 1);
      }
    }
  }

  /** A text, or an array of nothing but texts. */
  ghost predicate Textual(v: Json) {
    v.Str? || (v.Arr? && forall w | w in ToSeq(v.items) :: w.Str?)
  }

  lemma {:induction false} AllStringsIff(items: Items)
    ensures AllStrings(items) <==> forall v | v in ToSeq(items) :: v.Str?
  {
    match items
    case Nil =>
    case Cons(_, tail) => AllStringsIff(tail);
  }

  /** What following a reference yields: the textual value at its dot path, or the literal that value contains. */
  ghost predicate Yields(r: Reference, results: map<string, Json>, met: seq<Json>, v: Json) {
    var segments := Split(r.select, '.');
    && r.id in results && Path(results[r.id], segments, met) && Textual(met[|segments|])
    && match r.contains
       case None => v == met[|segments|]
       case Some(literal) => met[|segments|].Str? && v == Str(literal) && exists at: nat :: Substring(literal, met[|segments|].text, at)
  }

  /** A reference resolves to a value exactly when some way through the named result yields it. */
  lemma {:induction false} FollowIff(r: Reference, results: map<string, Json>, v: Json)
    ensures Follow(r, results) == Ok(v) <==> exists met :: Yields(r, results, met, v)
  {
    if r.id in results {
      var segments := Split(r.select, '.');
      var walked := Walk(results[r.id], segments);
      if walked.Ok? {
        var w := walked.value;
        WalkIff(results[r.id], segments, w);
        if w.Arr? { AllStringsIff(w.items); }
        if r.contains.Some? && w.Str? { IncludesIff(w.text, r.contains.value); }
        var met :| Path(results[r.id], segments, met) && met[|segments|] == w;
        if Follow(r, results) == Ok(v) { assert Yields(r, results, met, v); }
      }
      if met :| Yields(r, results, met, v) { WalkIff(results[r.id], segments, met[|segments|]); }
      hide Walk, Path, Split;
    }
  }

  // ---- Resolving ----

  lemma {:induction false} ResolveItemsAt(items: Items, results: map<string, Json>)
    requires ResolveItems(items, results).Ok?
    ensures var r := ToSeq(ResolveItems(items, results).value);
            |r| == |ToSeq(items)| && forall i | 0 <= i < |r| :: Resolve(ToSeq(items)[i], results) == Ok(r[i])
  {
    match items
    case Nil =>
    case Cons(_, tail) => ResolveItemsAt(tail, results);
  }

  lemma {:induction false} ResolveFieldsAt(fs: Fields, results: map<string, Json>)
    requires ResolveFields(fs, results).Ok?
    ensures var r := ResolveFields(fs, results).value;
            Names(r) == Names(fs) && forall i | 0 <= i < |Values(r)| :: Resolve(Values(fs)[i], results) == Ok(Values(r)[i])
  {
    match fs
    case End =>
    case Pair(_, _, rest) => ResolveFieldsAt(rest, results);
  }

  /** Resolving replaces reference objects by what they yield and changes nothing else, element by element. */
  lemma {:induction false} ResolveIsPointwise(v: Json, results: map<string, Json>)
    requires Resolve(v, results).Ok?
    ensures var r := Resolve(v, results).value;
            match v
            case Arr(items) =>
              r.Arr? && |ToSeq(r.items)| == |ToSeq(items)| && forall i | 0 <= i < |ToSeq(items)| :: Resolve(ToSeq(items)[i], results) == Ok(ToSeq(r.items)[i])
            case Obj(fs) =>
              if "$ref" in Names(fs) then ParseReference(fs).Ok? && exists met :: Yields(ParseReference(fs).value, results, met, r)
              else r.Obj? && Names(r.fields) == Names(fs) && forall i | 0 <= i < |Values(fs)| :: Resolve(Values(fs)[i], results) == Ok(Values(r.fields)[i])
            case _ => r == v
  {
    match v
    case Arr(items) => ResolveItemsAt(items, results);
    case Obj(fs) =>
      LookupNames(fs, "$ref");
      if Has(fs, "$ref") {
        FollowIff(ParseReference(fs).value, results, Resolve(v, results).value);
      } else {
        ResolveFieldsAt(fs, results);
      }
    case _ =>
  }

  // ---- Where references occur ----

  predicate IsReference(v: Json) {
    v.Obj? && "$ref" in Names(v.fields)
  }

  /** An element of an array or the value of a property. */
  predicate Part(v: Json, w: Json) {
    match v
    case Arr(items) => w in ToSeq(items)
    case Obj(fs) => w in Values(fs)
    case _ => false
  }

  /** A way down from a value through parts, none of which but the last is a reference object. */
  ghost predicate Descent(v: Json, met: seq<Json>) {
    met != [] && met[0] == v && forall i | 0 <= i < |met| - 1 :: !IsReference(met[i]) && Part(met[i], met[i + 1])
  }

  predicate Reads(v: Json, r: Result<Reference, PlanError>) {
    IsReference(v) && ParseReference(v.fields) == r
  }

  /** At the end of some way down lies a reference object that parses to this. */
  ghost predicate Holds(v: Json, r: Result<Reference, PlanError>) {
    exists met :: Descent(v, met) && Reads(met[|met| - 1], r)
  }

  lemma {:induction false} HoldsIff(v: Json, r: Result<Reference, PlanError>)
    ensures Holds(v, r) <==> if IsReference(v) then ParseReference(v.fields) == r else exists w :: Part(v, w) && Holds(w, r)
  {
    hide Part, IsReference, ParseReference;
    if met :| Descent(v, met) && Reads(met[|met| - 1], r) {
      if |met| > 1 {
        var rest := met[1..];
        assert Descent(met[1], rest) && rest[|rest| - 1] == met[|met| - 1];
        assert Part(v, met[1]) && Holds(met[1], r);
      }
    }
    if IsReference(v) {
      assert Descent(v, [v]);
    } else if w :| Part(v, w) && Holds(w, r) {
      var met :| Descent(w, met) && Reads(met[|met| - 1], r);
      var more := [v] + met;
      assert forall i | 0 < i < |more| :: more[i] == met[i - 1];
      assert Descent(v, more) && more[|more| - 1] == met[|met| - 1];
    }
  }

  /** What a collection says of the values it was made from: all their references, or one malformed reference. */
  ghost predicate Accounts(refs: Result<seq<Reference>, PlanError>, vs: seq<Json>) {
    match refs
    case Ok(rs) =>
      && (forall r :: r in rs <==> exists i | 0 <= i < |vs| :: Holds(vs[i], Ok(r)))
      && forall i, e | 0 <= i < |vs| :: !Holds(vs[i], Err(e))
    case Err(e) => exists i | 0 <= i < |vs| :: Holds(vs[i], Err(e))
  }

  lemma {:induction false} BothAccount(a: Result<seq<Reference>, PlanError>, b: Result<seq<Reference>, PlanError>, v: Json, vs: seq<Json>)
    requires Accounts(a, [v]) && Accounts(b, vs)
    ensures Accounts(Both(a, b), [v] + vs)
  {
    hide Holds;
    var all := [v] + vs;
    assert all[0] == v && forall i | 0 <= i < |vs| :: all[i + 1] == vs[i];
    if a.Ok? && b.Ok? {
      assert forall i | 0 < i < |all| :: all[i] == vs[i - 1];
      forall r
        ensures r in a.value + b.value <==> exists i | 0 <= i < |all| :: Holds(all[i], Ok(r))
      {
        if r in a.value { assert Holds([v][0], Ok(r)); }
        if r in b.value {
          var i :| 0 <= i < |vs| && Holds(vs[i], Ok(r));
          assert Holds(all[i + 1], Ok(r));
        }
        if i :| 0 <= i < |all| && Holds(all[i], Ok(r)) {
          if i == 0 { assert Holds([v][0], Ok(r)); } else { assert Holds(vs[i - 1], Ok(r)); }
        }
      }
      forall i, e | 0 <= i < |all|
        ensures !Holds(all[i], Err(e))
      {
        if i == 0 { assert !Holds([v][0], Err(e)); } else { assert !Holds(vs[i - 1], Err(e)); }
      }
    } else if a.Err? {
      assert Holds(all[0], Err(a.error));
    } else {
      var i :| 0 <= i < |vs| && Holds(vs[i], Err(b.error));
      assert Holds(all[i + 1], Err(b.error));
    }
  }

  lemma {:induction false} AccountsForParts(refs: Result<seq<Reference>, PlanError>, v: Json, vs: seq<Json>)
    requires Accounts(refs, vs) && !IsReference(v) && forall w :: Part(v, w) <==> w in vs
    ensures Accounts(refs, [v])
  {
    hide Holds, Part, IsReference;
    forall r
      ensures Holds(v, r) <==> exists i | 0 <= i < |vs| :: Holds(vs[i], r)
    {
      HoldsIff(v, r);
      if i :| 0 <= i < |vs| && Holds(vs[i], r) { assert vs[i] in vs; }
    }
    assert [v][0] == v;
  }

  /** Collecting finds exactly the references at any depth, or reports a malformed one that is there. */
  lemma {:induction false} CollectAccounts(v: Json)
    ensures Accounts(Collect(v), [v])
    decreases v, 0
  {
    hide Holds, Accounts;
    match v
    case Arr(items) =>
      CollectItemsAccount(items);
      AccountsForParts(CollectItems(items), v, ToSeq(items));
    case Obj(fs) =>
      LookupNames(fs, "$ref");
      if Has(fs, "$ref") {
        ReferenceAccounts(v);
      } else {
        CollectFieldsAccount(fs);
        AccountsForParts(CollectFields(fs), v, Values(fs));
      }
    case _ => ScalarAccounts(v);
  }

  lemma {:induction false} ReferenceAccounts(v: Json)
    requires IsReference(v)
    ensures Accounts(match ParseReference(v.fields) case Ok(r) => Ok([r]) case Err(e) => Err(e), [v])
  {
    hide Holds, ParseReference;
    assert [v][0] == v;
    forall r
      ensures Holds(v, r) <==> ParseReference(v.fields) == r
    {
      HoldsIff(v, r);
    }
  }

  lemma {:induction false} ScalarAccounts(v: Json)
    requires !v.Arr? && !v.Obj?
    ensures Accounts(Ok([]), [v])
  {
    hide Holds;
    forall r
      ensures !Holds(v, r)
    {
      HoldsIff(v, r);
    }
  }

  lemma {:induction false} CollectItemsAccount(items: Items)
    ensures Accounts(CollectItems(items), ToSeq(items))
  {
    hide Holds, Accounts;
    match items
    case Nil => NothingAccounts();
    case Cons(head, tail) =>
      CollectAccounts(head);
      CollectItemsAccount(tail);
      BothAccount(Collect(head), CollectItems(tail), head, ToSeq(tail));
  }

  lemma {:induction false} CollectFieldsAccount(fs: Fields)
    ensures Accounts(CollectFields(fs), Values(fs))
  {
    hide Holds, Accounts;
    match fs
    case End => NothingAccounts();
    case Pair(_, value, rest) =>
      CollectAccounts(value);
      CollectFieldsAccount(rest);
      BothAccount(Collect(value), CollectFields(rest), value, Values(rest));
  }

  lemma {:induction false} NothingAccounts()
    ensures Accounts(Ok([]), [])
  {
  }

  /** The property of that name holds a reference to that step. */
  ghost predicate Follows(input: Fields, name: string, id: string) {
    exists v, r :: Lookup(input, name) == Some(v) && Holds(v, Ok(r)) && r.id == id
  }

  lemma {:induction false} FieldFollows(input: Fields, name: string, id: string)
    ensures FieldReferences(input, name).Ok? ==> (Mentions(FieldReferences(input, name).value, id) <==> Follows(input, name, id))
    ensures FieldReferences(input, name).Err? <==> exists v, e :: Lookup(input, name) == Some(v) && Holds(v, Err(e))
  {
    hide Holds, Collect;
    if Lookup(input, name).Some? {
      var v := Lookup(input, name).value;
      CollectAccounts(v);
      assert [v][0] == v;
      if Collect(v).Ok? {
        var refs := Collect(v).value;
        if Mentions(refs, id) {
          var i :| 0 <= i < |refs| && refs[i].id == id;
          assert refs[i] in refs;
        }
        if r :| Holds(v, Ok(r)) && r.id == id {
          assert r in refs;
          var i :| 0 <= i < |refs| && refs[i] == r;
        }
      }
    }
  }

  /** The step follows on from another: in its path when reading, in its pattern or paths when searching. */
  ghost predicate FollowsOn(step: Step, id: string) {
    match step.tool
    case Read => Follows(step.input, "path", id)
    case Search => Follows(step.input, "pattern", id) || Follows(step.input, "paths", id)
  }

  lemma {:induction false} MentionsBoth(a: seq<Reference>, b: seq<Reference>, id: string)
    ensures Mentions(a + b, id) <==> Mentions(a, id) || Mentions(b, id)
  {
    if i :| 0 <= i < |a| && a[i].id == id { assert (a + b)[i].id == id; }
    if i :| 0 <= i < |b| && b[i].id == id { assert (a + b)[|a| + i].id == id; }
  }

  lemma {:induction false} DependencyIff(step: Step, id: string)
    requires DependencyReferences(step).Ok?
    ensures Mentions(DependencyReferences(step).value, id) <==> FollowsOn(step, id)
  {
    hide FieldReferences, Follows, Mentions;
    match step.tool
    case Read => FieldFollows(step.input, "path", id);
    case Search =>
      FieldFollows(step.input, "pattern", id);
      FieldFollows(step.input, "paths", id);
      MentionsBoth(FieldReferences(step.input, "pattern").value, FieldReferences(step.input, "paths").value, id);
  }

  lemma {:induction false} FieldIsSound(input: Fields, name: string)
    requires (forall e :: !Holds(Obj(input), Err(e))) && name != "$ref" && name != "select" && name != "contains"
    ensures FieldReferences(input, name).Ok?
  {
    hide Holds, FieldReferences, ParseReference;
    FieldFollows(input, name, "");
    if v, e :| Lookup(input, name) == Some(v) && Holds(v, Err(e)) {
      HoldsIff(Obj(input), Err(e));
      if IsReference(Obj(input)) {
        HoldsIff(Obj(input), ParseReference(input));
        ReferenceHasNoOtherKey(input, name);
      } else {
        LookupIff(input, name, v);
      }
    }
  }

  /**
   * A step is linked exactly when its id is new, every reference at any depth of its input is well formed and names
   * an earlier step, and a later step follows on from the one right before it.
   */
  lemma {:induction false} LinkedIff(step: Step, earlier: seq<Step>)
    ensures Linked(step, earlier) <==>
            && (forall i | 0 <= i < |earlier| :: earlier[i].id != step.id)
            && (forall e :: !Holds(Obj(step.input), Err(e)))
            && (forall r | Holds(Obj(step.input), Ok(r)) :: exists i | 0 <= i < |earlier| :: earlier[i].id == r.id)
            && (earlier != [] ==> FollowsOn(step, earlier[|earlier| - 1].id))
  {
    hide Collect, Holds, FollowsOn, DependencyReferences;
    var v := Obj(step.input);
    CollectAccounts(v);
    assert [v][0] == v;
    var refs := Collect(v);
    if refs.Ok? {
      KnownIff(refs.value, earlier);
      DependencyIsSound(step);
      if earlier != [] { DependencyIff(step, earlier[|earlier| - 1].id); }
    }
  }

  lemma {:induction false} KnownIff(refs: seq<Reference>, earlier: seq<Step>)
    ensures AllKnown(refs, Ids(earlier)) <==> forall r | r in refs :: exists i | 0 <= i < |earlier| :: earlier[i].id == r.id
  {
    if AllKnown(refs, Ids(earlier)) {
      forall r | r in refs
        ensures exists i | 0 <= i < |earlier| :: earlier[i].id == r.id
      {
        var i :| 0 <= i < |refs| && refs[i] == r;
        assert refs[i].id in Ids(earlier);
      }
    } else {
      var i :| 0 <= i < |refs| && refs[i].id !in Ids(earlier);
      assert refs[i] in refs;
    }
  }

  lemma {:induction false} DependencyIsSound(step: Step)
    requires forall e :: !Holds(Obj(step.input), Err(e))
    ensures DependencyReferences(step).Ok?
  {
    hide Holds, FieldReferences;
    FieldIsSound(step.input, "path");
    FieldIsSound(step.input, "pattern");
    FieldIsSound(step.input, "paths");
  }

  // ---- The written forms ----

  lemma {:induction false} CharKinds(c: char)
    ensures Letter(c) <==> c in LETTERS
    ensures ReferencePlan.Digit(c) <==> c in DIGITS
  {
    LettersAre(c);
    DigitsAre(c);
  }

  /** An id is a letter and up to 39 letters, digits, underscores and hyphens. */
  lemma {:induction false} IdIff(s: string)
    ensures ValidId(s) <==> 1 <= |s| <= 40 && s[0] in LETTERS && forall i | 0 < i < |s| :: s[i] in LETTERS + DIGITS + "_-"
  {
    hide Letter, ReferencePlan.Digit;
    forall i | 0 <= i < |s|
      ensures Letter(s[i]) <==> s[i] in LETTERS
      ensures ReferencePlan.Digit(s[i]) <==> s[i] in DIGITS
      ensures s[i] in LETTERS + DIGITS + "_-" <==> s[i] in LETTERS || s[i] in DIGITS || s[i] == '_' || s[i] == '-'
    {
      CharKinds(s[i]);
      assert s[i] in "_-" <==> s[i] == '_' || s[i] == '-';
    }
  }

  /** A name starts with a letter, dollar or underscore and goes on with those and digits. */
  ghost predicate IsName(s: string) {
    s != "" && s[0] in LETTERS + "$_" && forall i | 0 < i < |s| :: s[i] in LETTERS + DIGITS + "$_"
  }

  lemma {:induction false} NameIff(s: string)
    ensures Identifier(s) <==> IsName(s)
    ensures AllDigits(s) <==> s != "" && forall i | 0 <= i < |s| :: s[i] in DIGITS
  {
    hide Letter, ReferencePlan.Digit;
    forall i | 0 <= i < |s|
      ensures Letter(s[i]) <==> s[i] in LETTERS
      ensures ReferencePlan.Digit(s[i]) <==> s[i] in DIGITS
      ensures s[i] in LETTERS + "$_" <==> s[i] in LETTERS || s[i] == '$' || s[i] == '_'
      ensures s[i] in LETTERS + DIGITS + "$_" <==> s[i] in LETTERS || s[i] in DIGITS || s[i] == '$' || s[i] == '_'
    {
      CharKinds(s[i]);
      assert s[i] in "$_" <==> s[i] == '$' || s[i] == '_';
    }
  }

  /** A dot path is a name, then names and numbers, none of which reaches a prototype. */
  lemma {:induction false} SelectIff(s: string)
    ensures SafeSelect(s) <==>
            var segments := Split(s, '.');
            && IsName(segments[0])
            && (forall i | 0 < i < |segments| :: IsName(segments[i]) || (segments[i] != "" && forall j | 0 <= j < |segments[i]| :: segments[i][j] in DIGITS))
            && "__proto__" !in segments && "prototype" !in segments && "constructor" !in segments
  {
    hide Identifier, AllDigits, IsName, Split;
    var segments := Split(s, '.');
    forall i | 0 <= i < |segments|
      ensures Identifier(segments[i]) <==> IsName(segments[i])
      ensures AllDigits(segments[i]) <==> segments[i] != "" && forall j | 0 <= j < |segments[i]| :: segments[i][j] in DIGITS
    {
      NameIff(segments[i]);
    }
  }

  /** A reference object has exactly these properties, each a text of its kind; a literal has at most 256 characters. */
  lemma {:induction false} ReferenceIff(fs: Fields, r: Reference)
    ensures ParseReference(fs) == Ok(r) <==>
            && Lookup(fs, "$ref") == Some(Str(r.id)) && ValidId(r.id)
            && Lookup(fs, "select") == Some(Str(r.select)) && SafeSelect(r.select)
            && match r.contains
               case None => multiset(Names(fs)) == multiset{"$ref", "select"}
               case Some(literal) =>
                 && multiset(Names(fs)) == multiset{"$ref", "select", "contains"}
                 && Lookup(fs, "contains") == Some(Str(literal)) && 1 <= |literal| <= 256
  {
    LookupNames(fs, "contains");
    hide ValidId, SafeSelect, Lookup, Names;
    assert "contains" in Names(fs) <==> "contains" in multiset(Names(fs));
    assert multiset(["$ref", "select"]) == multiset{"$ref", "select"};
    assert multiset(["$ref", "select", "contains"]) == multiset{"$ref", "select", "contains"};
  }

  /** A step is an object of exactly an id, a tool named read or search, and an input object. */
  lemma {:induction false} StepIff(v: Json, step: Step)
    ensures ParseStep(v) == Ok(step) <==>
            && v.Obj? && multiset(Names(v.fields)) == multiset{"id", "tool", "input"}
            && Lookup(v.fields, "id") == Some(Str(step.id)) && ValidId(step.id)
            && Lookup(v.fields, "tool") == Some(Str(match step.tool case Read => "read" case Search => "search"))
            && Lookup(v.fields, "input") == Some(Obj(step.input))
  {
    hide ValidId, Lookup, Names;
    assert multiset(["id", "tool", "input"]) == multiset{"id", "tool", "input"};
  }

  /** A plan is an object with nothing but an array of steps. */
  lemma {:induction false} RawStepsIff(v: Json, raw: seq<Json>)
    ensures RawSteps(v) == Some(raw) <==> exists items :: v == Obj(Pair("steps", Arr(items), End)) && ToSeq(items) == raw
  {
    if RawSteps(v) == Some(raw) {
      OneName(v.fields);
      assert v == Obj(Pair("steps", Arr(Lookup(v.fields, "steps").value.items), End));
    }
    if items :| v == Obj(Pair("steps", Arr(items), End)) && ToSeq(items) == raw {
      assert Names(v.fields) == ["steps"] + Names(End) == ["steps"];
    }
  }

  lemma {:induction false} OneName(fs: Fields)
    requires ExactKeys(fs, ["steps"])
    ensures fs.Pair? && fs.name == "steps" && fs.rest == End
  {
    var names := Names(fs);
    assert |multiset(names)| == |names| && |multiset(["steps"])| == 1;
    match fs
    case Pair(name, _, rest) =>
      assert names == [name] + Names(rest) && names[0] == name && names[0] in multiset(names);
      assert |Names(rest)| == 0;
  }

  /** Reference-free means that no reference object lies at the end of any way down. */
  lemma {:induction false} FreeIff(v: Json)
    ensures ReferenceFree(v) <==> forall r :: !Holds(v, r)
    decreases v, 0
  {
    hide Holds;
    match v
    case Arr(items) =>
      FreeItemsIff(items);
      FreeParts(v, ToSeq(items));
    case Obj(fs) =>
      LookupNames(fs, "$ref");
      if Has(fs, "$ref") {
        HoldsIff(v, ParseReference(fs));
      } else {
        FreeFieldsIff(fs);
        FreeParts(v, Values(fs));
      }
    case _ =>
      forall r
        ensures !Holds(v, r)
      {
        HoldsIff(v, r);
      }
  }

  lemma {:induction false} FreeParts(v: Json, vs: seq<Json>)
    requires !IsReference(v) && forall w :: Part(v, w) <==> w in vs
    ensures (forall r :: !Holds(v, r)) <==> forall w, r | w in vs :: !Holds(w, r)
  {
    hide Holds, Part, IsReference;
    forall r
      ensures Holds(v, r) <==> exists w :: w in vs && Holds(w, r)
    {
      HoldsIff(v, r);
    }
    if forall r :: !Holds(v, r) {
      forall w, r | w in vs
        ensures !Holds(w, r)
      {
        assert !Holds(v, r);
      }
    }
  }

  lemma {:induction false} FreeItemsIff(items: Items)
    ensures ReferenceFreeItems(items) <==> forall w, r | w in ToSeq(items) :: !Holds(w, r)
  {
    hide Holds;
    match items
    case Nil =>
    case Cons(head, tail) =>
      FreeIff(head);
      FreeItemsIff(tail);
      assert ToSeq(items) == [head] + ToSeq(tail);
  }

  lemma {:induction false} FreeFieldsIff(fs: Fields)
    ensures ReferenceFreeFields(fs) <==> forall w, r | w in Values(fs) :: !Holds(w, r)
  {
    hide Holds;
    match fs
    case End =>
    case Pair(_, value, rest) =>
      FreeIff(value);
      FreeFieldsIff(rest);
      assert Values(fs) == [value] + Values(rest);
  }
}
