/** Reference plans: JSON steps validated before execution, and the execution they are sound for. */
module ReferencePlan {
  import opened Text
  import opened Wrappers

  // ---- JSON values ----

  datatype Json = Null | Bool(b: bool) | Num(n: real) | Str(text: string) | Arr(items: Items) | Obj(fields: Fields)
  datatype Items = Nil | Cons(head: Json, tail: Items)

  /** An object's own properties, in order. */
  datatype Fields = End | Pair(name: string, value: Json, rest: Fields)

  function Names(fs: Fields): seq<string> {
    match fs
    case End => []
    case Pair(name, _, rest) => [name] + Names(rest)
  }

  function Lookup(fs: Fields, name: string): Option<Json> {
    match fs
    case End => None
    case Pair(n, v, rest) => if n == name then Some(v) else Lookup(rest, name)
  }

  predicate Has(fs: Fields, name: string) {
    Lookup(fs, name).Some?
  }

  predicate ExactKeys(fs: Fields, expected: seq<string>) {
    multiset(Names(fs)) == multiset(expected)
  }

  // ---- References ----

  predicate Letter(c: char) {
    'A' <= c <= 'Z' || 'a' <= c <= 'z'
  }

  predicate Digit(c: char) {
    '0' <= c <= '9'
  }

  /** A letter, then at most 39 letters, digits, underscores and hyphens. */
  predicate ValidId(s: string) {
    && 1 <= |s| <= 40 && Letter(s[0])
    && forall i | 0 < i < |s| :: Letter(s[i]) || Digit(s[i]) || s[i] == '_' || s[i] == '-'
  }

  predicate Identifier(s: string) {
    && s != "" && (Letter(s[0]) || s[0] == '$' || s[0] == '_')
    && forall i | 0 < i < |s| :: Letter(s[i]) || Digit(s[i]) || s[i] == '_' || s[i] == '$'
  }

  predicate AllDigits(s: string) {
    s != "" && forall i | 0 <= i < |s| :: Digit(s[i])
  }

  /** A dot path that names no prototype. */
  predicate SafeSelect(s: string) {
    var segments := Split(s, '.');
    && Identifier(segments[0])
    && (forall i | 0 < i < |segments| :: Identifier(segments[i]) || AllDigits(segments[i]))
    && forall i | 0 <= i < |segments| :: segments[i] != "__proto__" && segments[i] != "prototype" && segments[i] != "constructor"
  }

  datatype Reference = Reference(id: string, select: string, contains: Option<string>)

  datatype PlanError =
    | BadReference | UnknownReference | Unresolved | NotContained
    | BadPlan | BadStepCount | BadStep | DuplicateStep | NoDependency | InputNotObject | ArgumentsRejected | ToolThrew

  function ParseReference(fs: Fields): Result<Reference, PlanError> {
    var contains := Lookup(fs, "contains");
    var id, select := Lookup(fs, "$ref"), Lookup(fs, "select");
    if !ExactKeys(fs, if contains.None? then ["$ref", "select"] else ["$ref", "select", "contains"]) then Err(BadReference)
    else if id.None? || !id.value.Str? || !ValidId(id.value.text) then Err(BadReference)
    else if select.None? || !select.value.Str? || !SafeSelect(select.value.text) then Err(BadReference)
    else if contains.Some? && (!contains.value.Str? || !(0 < |contains.value.text| <= 256)) then Err(BadReference)
    else Ok(Reference(id.value.text, select.value.text, if contains.Some? then Some(contains.value.text) else None))
  }

  function Both(a: Result<seq<Reference>, PlanError>, b: Result<seq<Reference>, PlanError>): Result<seq<Reference>, PlanError> {
    if a.Err? then a else if b.Err? then b else Ok(a.value + b.value)
  }

  /** Every reference object in a value, or the first malformed one. */
  function Collect(v: Json): Result<seq<Reference>, PlanError>
    decreases v, 0
  {
    match v
    case Arr(items) => CollectItems(items)
    case Obj(fs) =>
      if Has(fs, "$ref") then
        match ParseReference(fs)
        case Ok(r) => Ok([r])
        case Err(e) => Err(e)
      else CollectFields(fs)
    case _ => Ok([])
  }

  function CollectItems(items: Items): Result<seq<Reference>, PlanError> {
    match items
    case Nil => Ok([])
    case Cons(head, tail) => Both(Collect(head), CollectItems(tail))
  }

  function CollectFields(fs: Fields): Result<seq<Reference>, PlanError> {
    match fs
    case End => Ok([])
    case Pair(_, value, rest) => Both(Collect(value), CollectFields(rest))
  }

  // ---- Selecting and resolving ----

  function Number(digits: string): nat {
    if digits == "" then 0 else Number(digits[..|digits| - 1]) * 10 + (digits[|digits| - 1] as int - '0' as int) % 10
  }

  function At(items: Items, i: nat): Option<Json> {
    match items
    case Nil => None
    case Cons(head, tail) => if i == 0 then Some(head) else At(tail, i - 1)
  }

  function Walk(root: Json, segments: seq<string>): Result<Json, PlanError>
    decreases |segments|
  {
    if segments == [] then Ok(root)
    else
      var next :=
        match root
        case Arr(items) => if AllDigits(segments[0]) then At(items, Number(segments[0])) else None
        case Obj(fs) => Lookup(fs, segments[0])
        case _ => None;
      if next.None? then Err(Unresolved) else Walk(next.value, segments[1..])
  }

  predicate AllStrings(items: Items) {
    match items
    case Nil => true
    case Cons(head, tail) => head.Str? && AllStrings(tail)
  }

  predicate Selectable(v: Json) {
    v.Str? || (v.Arr? && AllStrings(v.items))
  }

  function Select(root: Json, select: string): Result<Json, PlanError> {
    var v :- Walk(root, Split(select, '.'));
    if Selectable(v) then Ok(v) else Err(Unresolved)
  }

  predicate Includes(s: string, part: string) {
    (|part| <= |s| && s[..|part|] == part) || (s != "" && Includes(s[1..], part))
  }

  function Follow(r: Reference, results: map<string, Json>): Result<Json, PlanError> {
    if r.id !in results then Err(UnknownReference)
    else
      var selected :- Select(results[r.id], r.select);
      match r.contains
      case None => Ok(selected)
      case Some(literal) => if selected.Str? && Includes(selected.text, literal) then Ok(Str(literal)) else Err(NotContained)
  }

  function Resolve(v: Json, results: map<string, Json>): Result<Json, PlanError>
    decreases v, 0
  {
    match v
    case Arr(items) =>
      var r :- ResolveItems(items, results);
      Ok(Arr(r))
    case Obj(fs) =>
      if Has(fs, "$ref") then
        var r :- ParseReference(fs);
        Follow(r, results)
      else
        var r :- ResolveFields(fs, results);
        Ok(Obj(r))
    case _ => Ok(v)
  }

  function ResolveItems(items: Items, results: map<string, Json>): Result<Items, PlanError> {
    match items
    case Nil => Ok(Nil)
    case Cons(head, tail) =>
      var h :- Resolve(head, results);
      var t :- ResolveItems(tail, results);
      Ok(Cons(h, t))
  }

  function ResolveFields(fs: Fields, results: map<string, Json>): Result<Fields, PlanError> {
    match fs
    case End => Ok(End)
    case Pair(name, value, rest) =>
      var v :- Resolve(value, results);
      var r :- ResolveFields(rest, results);
      Ok(Pair(name, v, r))
  }

  // ---- Static validation is sound for resolution ----

  /** No reference object at any depth. */
  predicate ReferenceFree(v: Json)
    decreases v, 0
  {
    match v
    case Arr(items) => ReferenceFreeItems(items)
    case Obj(fs) => !Has(fs, "$ref") && ReferenceFreeFields(fs)
    case _ => true
  }

  predicate ReferenceFreeItems(items: Items) {
    match items
    case Nil => true
    case Cons(head, tail) => ReferenceFree(head) && ReferenceFreeItems(tail)
  }

  predicate ReferenceFreeFields(fs: Fields) {
    match fs
    case End => true
    case Pair(_, value, rest) => ReferenceFree(value) && ReferenceFreeFields(rest)
  }

  lemma {:induction false} StringsAreReferenceFree(items: Items)
    requires AllStrings(items)
    ensures ReferenceFreeItems(items)
  {
    match items
    case Nil =>
    case Cons(head, tail) => StringsAreReferenceFree(tail);
  }

  /** Errors that depend on what the tools returned, not on the plan. */
  predicate DataError(e: PlanError) {
    e.Unresolved? || e.NotContained?
  }

  lemma {:induction false} WalkErrors(root: Json, segments: seq<string>)
    ensures Walk(root, segments).Err? ==> Walk(root, segments).error == Unresolved
    decreases |segments|
  {
    if segments != [] {
      var next :=
        match root
        case Arr(items) => if AllDigits(segments[0]) then At(items, Number(segments[0])) else None
        case Obj(fs) => Lookup(fs, segments[0])
        case _ => None;
      if next.Some? { WalkErrors(next.value, segments[1..]); }
    }
  }

  lemma {:induction false} FollowIsSound(r: Reference, results: map<string, Json>)
    requires r.id in results
    ensures Follow(r, results).Err? ==> DataError(Follow(r, results).error)
    ensures Follow(r, results).Ok? ==> ReferenceFree(Follow(r, results).value)
  {
    WalkErrors(results[r.id], Split(r.select, '.'));
    var selected := Select(results[r.id], r.select);
    if selected.Ok? && selected.value.Arr? { StringsAreReferenceFree(selected.value.items); }
  }

  predicate AllKnown(refs: seq<Reference>, known: set<string>) {
    forall i | 0 <= i < |refs| :: refs[i].id in known
  }

  lemma {:induction false} BothKnown(a: Result<seq<Reference>, PlanError>, b: Result<seq<Reference>, PlanError>, known: set<string>)
    requires Both(a, b).Ok? && AllKnown(Both(a, b).value, known)
    ensures a.Ok? && b.Ok? && AllKnown(a.value, known) && AllKnown(b.value, known)
  {
    forall i | 0 <= i < |b.value|
      ensures b.value[i].id in known
    {
      assert (a.value + b.value)[|a.value| + i] == b.value[i];
    }
    forall i | 0 <= i < |a.value|
      ensures a.value[i].id in known
    {
      assert (a.value + b.value)[i] == a.value[i];
    }
  }

  /** A value whose references are well formed and known resolves, unless the data itself does not fit. */
  lemma {:induction false} ResolveIsSound(v: Json, results: map<string, Json>)
    requires Collect(v).Ok? && AllKnown(Collect(v).value, results.Keys)
    ensures Resolve(v, results).Err? ==> DataError(Resolve(v, results).error)
    ensures Resolve(v, results).Ok? ==> ReferenceFree(Resolve(v, results).value)
    decreases v, 0
  {
    match v
    case Arr(items) => ResolveItemsIsSound(items, results);
    case Obj(fs) =>
      if Has(fs, "$ref") {
        assert Collect(v).value[0] == ParseReference(fs).value;
        FollowIsSound(ParseReference(fs).value, results);
      } else {
        ResolveFieldsIsSound(fs, results);
        ResolveKeepsNames(fs, results, "$ref");
      }
    case _ =>
  }

  lemma {:induction false} ResolveItemsIsSound(items: Items, results: map<string, Json>)
    requires CollectItems(items).Ok? && AllKnown(CollectItems(items).value, results.Keys)
    ensures ResolveItems(items, results).Err? ==> DataError(ResolveItems(items, results).error)
    ensures ResolveItems(items, results).Ok? ==> ReferenceFreeItems(ResolveItems(items, results).value)
  {
    match items
    case Nil =>
    case Cons(head, tail) =>
      BothKnown(Collect(head), CollectItems(tail), results.Keys);
      ResolveIsSound(head, results);
      ResolveItemsIsSound(tail, results);
  }

  lemma {:induction false} ResolveFieldsIsSound(fs: Fields, results: map<string, Json>)
    requires CollectFields(fs).Ok? && AllKnown(CollectFields(fs).value, results.Keys)
    ensures ResolveFields(fs, results).Err? ==> DataError(ResolveFields(fs, results).error)
    ensures ResolveFields(fs, results).Ok? ==> ReferenceFreeFields(ResolveFields(fs, results).value)
  {
    match fs
    case End =>
    case Pair(_, value, rest) =>
      BothKnown(Collect(value), CollectFields(rest), results.Keys);
      ResolveIsSound(value, results);
      ResolveFieldsIsSound(rest, results);
  }

  lemma {:induction false} ResolveKeepsNames(fs: Fields, results: map<string, Json>, name: string)
    ensures ResolveFields(fs, results).Ok? ==> (Has(ResolveFields(fs, results).value, name) <==> Has(fs, name))
  {
    match fs
    case End =>
    case Pair(_, _, rest) => ResolveKeepsNames(rest, results, name);
  }

  lemma {:induction false} KnownBoth(a: Result<seq<Reference>, PlanError>, b: Result<seq<Reference>, PlanError>, known: set<string>)
    requires a.Ok? && b.Ok? && AllKnown(a.value, known) && AllKnown(b.value, known)
    ensures Both(a, b).Ok? && AllKnown(Both(a, b).value, known)
  {
  }

  /** Conversely, only values whose references are well formed and known resolve. */
  lemma {:induction false} ResolvedWasKnown(v: Json, results: map<string, Json>)
    requires Resolve(v, results).Ok?
    ensures Collect(v).Ok? && AllKnown(Collect(v).value, results.Keys)
    decreases v, 0
  {
    match v
    case Arr(items) => ResolvedItemsWereKnown(items, results);
    case Obj(fs) => if !Has(fs, "$ref") { ResolvedFieldsWereKnown(fs, results); }
    case _ =>
  }

  lemma {:induction false} ResolvedItemsWereKnown(items: Items, results: map<string, Json>)
    requires ResolveItems(items, results).Ok?
    ensures CollectItems(items).Ok? && AllKnown(CollectItems(items).value, results.Keys)
  {
    match items
    case Nil =>
    case Cons(head, tail) =>
      ResolvedWasKnown(head, results);
      ResolvedItemsWereKnown(tail, results);
      KnownBoth(Collect(head), CollectItems(tail), results.Keys);
  }

  lemma {:induction false} ResolvedFieldsWereKnown(fs: Fields, results: map<string, Json>)
    requires ResolveFields(fs, results).Ok?
    ensures CollectFields(fs).Ok? && AllKnown(CollectFields(fs).value, results.Keys)
  {
    match fs
    case End =>
    case Pair(_, value, rest) =>
      ResolvedWasKnown(value, results);
      ResolvedFieldsWereKnown(rest, results);
      KnownBoth(Collect(value), CollectFields(rest), results.Keys);
  }

  // ---- Plans ----

  datatype Tool = Read | Search
  datatype Step = Step(id: string, tool: Tool, input: Fields)

  function ToolOf(v: Json): Option<Tool> {
    if v == Str("read") then Some(Read) else if v == Str("search") then Some(Search) else None
  }

  function FieldReferences(fs: Fields, name: string): Result<seq<Reference>, PlanError> {
    match Lookup(fs, name)
    case None => Ok([])
    case Some(v) => Collect(v)
  }

  /** References in the part of the input that must follow on from the preceding step. */
  function DependencyReferences(step: Step): Result<seq<Reference>, PlanError> {
    match step.tool
    case Read => FieldReferences(step.input, "path")
    case Search => Both(FieldReferences(step.input, "pattern"), FieldReferences(step.input, "paths"))
  }

  predicate Mentions(refs: seq<Reference>, id: string) {
    exists i | 0 <= i < |refs| :: refs[i].id == id
  }

  /** The shape of one step. */
  function ParseStep(v: Json): Result<Step, PlanError> {
    if !v.Obj? || !ExactKeys(v.fields, ["id", "tool", "input"]) then Err(BadStep)
    else
      var id, tool, input := Lookup(v.fields, "id"), Lookup(v.fields, "tool"), Lookup(v.fields, "input");
      if id.None? || !id.value.Str? || !ValidId(id.value.text) then Err(BadStep)
      else if tool.None? || ToolOf(tool.value).None? then Err(BadStep)
      else if input.None? || !input.value.Obj? then Err(BadStep)
      else Ok(Step(id.value.text, ToolOf(tool.value).value, input.value.fields))
  }

  /** A step whose references reach back to earlier steps, and to the preceding one where it matters. */
  predicate Linked(step: Step, earlier: seq<Step>) {
    && (forall i | 0 <= i < |earlier| :: earlier[i].id != step.id)
    && Collect(Obj(step.input)).Ok? && AllKnown(Collect(Obj(step.input)).value, Ids(earlier))
    && (earlier != [] ==>
          DependencyReferences(step).Ok? && Mentions(DependencyReferences(step).value, earlier[|earlier| - 1].id))
  }

  /** A later step that nowhere follows on from the preceding one. */
  predicate Detached(step: Step, earlier: seq<Step>) {
    && earlier != [] && DependencyReferences(step).Ok?
    && !Mentions(DependencyReferences(step).value, earlier[|earlier| - 1].id)
  }

  function Ids(steps: seq<Step>): set<string> {
    set i | 0 <= i < |steps| :: steps[i].id
  }

  function ToSeq(items: Items): seq<Json> {
    match items
    case Nil => []
    case Cons(head, tail) => [head] + ToSeq(tail)
  }

  /** The steps of a plan object, or none when its outer shape is wrong. */
  function RawSteps(v: Json): Option<seq<Json>> {
    if v.Obj? && ExactKeys(v.fields, ["steps"]) && Has(v.fields, "steps") && Lookup(v.fields, "steps").value.Arr?
    then Some(ToSeq(Lookup(v.fields, "steps").value.items)) else None
  }

  predicate ParsesTo(raw: seq<Json>, steps: seq<Step>) {
    |raw| == |steps| && forall i | 0 <= i < |raw| :: ParseStep(raw[i]) == Ok(steps[i])
  }

  predicate AllLinked(steps: seq<Step>) {
    forall k | 0 <= k < |steps| :: Linked(steps[k], steps[..k])
  }

  /** What makes a plan acceptable. */
  ghost predicate Acceptable(v: Json, steps: seq<Step>) {
    && RawSteps(v).Some? && 3 <= |RawSteps(v).value| <= 8
    && ParsesTo(RawSteps(v).value, steps) && AllLinked(steps)
  }

  /** validateScriptPlan: accepts exactly the acceptable plans. */
  method ValidateScriptPlan(v: Json) returns (r: Result<seq<Step>, PlanError>)
    ensures r.Ok? <==> exists steps :: Acceptable(v, steps)
    ensures r.Ok? ==> Acceptable(v, r.value)
  {
    hide Collect, DependencyReferences, ParseStep;
    var raw := RawSteps(v);
    if raw.None? {
      return Err(BadPlan);
    }
    if |raw.value| < 3 || |raw.value| > 8 {
      return Err(BadStepCount);
    }
    var seen: set<string>, steps: seq<Step> := {}, [];
    for index := 0 to |raw.value|
      invariant |steps| == index && ParsesTo(raw.value[..index], steps) && AllLinked(steps) && seen == Ids(steps)
    {
      var parsed := ParseStep(raw.value[index]);
      if parsed.Err? {
        return Err(parsed.error);
      }
      var step := parsed.value;
      var problem := CheckStep(step, steps, seen);
      if problem.Some? {
        NotLinkedIsNotAcceptable(v, raw.value, steps, step);
        return Err(problem.value);
      }
      LinkedExtends(raw.value, steps, step);
      seen, steps := seen + {step.id}, steps + [step];
    }
    assert raw.value[..|raw.value|] == raw.value;
    assert Acceptable(v, steps);
    return Ok(steps);
  }

  method CheckStep(step: Step, earlier: seq<Step>, seen: set<string>) returns (problem: Option<PlanError>)
    requires seen == Ids(earlier)
    ensures problem.None? <==> Linked(step, earlier)
    ensures step.id in seen ==> problem == Some(DuplicateStep)
    ensures var refs := Collect(Obj(step.input));
            step.id !in seen ==>
              && (refs.Err? ==> problem == Some(refs.error))
              && (refs.Ok? && !AllKnown(refs.value, seen) ==> problem == Some(UnknownReference))
              && (refs.Ok? && AllKnown(refs.value, seen) && Detached(step, earlier) ==> problem == Some(NoDependency))
  {
    hide Collect, DependencyReferences;
    if step.id in seen {
      return Some(DuplicateStep);
    }
    var refs := Collect(Obj(step.input));
    if refs.Err? {
      return Some(refs.error);
    }
    for i := 0 to |refs.value|
      invariant forall j | 0 <= j < i :: refs.value[j].id in seen
    {
      if refs.value[i].id !in seen {
        return Some(UnknownReference);
      }
    }
    if earlier != [] {
      var back := DependencyReferences(step);
      if back.Err? {
        return Some(back.error);
      }
      if !Mentions(back.value, earlier[|earlier| - 1].id) {
        return Some(NoDependency);
      }
    }
    return None;
  }

  lemma {:induction false} LinkedExtends(raw: seq<Json>, steps: seq<Step>, step: Step)
    requires |steps| < |raw| && ParsesTo(raw[..|steps|], steps) && AllLinked(steps)
    requires ParseStep(raw[|steps|]) == Ok(step) && Linked(step, steps)
    ensures ParsesTo(raw[..|steps| + 1], steps + [step]) && AllLinked(steps + [step])
    ensures Ids(steps + [step]) == Ids(steps) + {step.id}
  {
    hide Linked, ParseStep;
    var more := steps + [step];
    forall k | 0 <= k < |more|
      ensures Linked(more[k], more[..k])
    {
      assert more[..k] == steps[..k];
      if k == |steps| { assert steps[..k] == steps; }
    }
    assert raw[..|steps| + 1] == raw[..|steps|] + [raw[|steps|]];
    assert more[|steps|].id == step.id;
    forall id | id in Ids(steps)
      ensures id in Ids(more)
    {
      var i :| 0 <= i < |steps| && steps[i].id == id;
      assert more[i].id == id;
    }
  }

  lemma {:induction false} NotLinkedIsNotAcceptable(v: Json, raw: seq<Json>, steps: seq<Step>, step: Step)
    requires RawSteps(v) == Some(raw) && |steps| < |raw| && ParsesTo(raw[..|steps|], steps)
    requires ParseStep(raw[|steps|]) == Ok(step) && !Linked(step, steps)
    ensures forall other :: !Acceptable(v, other)
  {
    hide Linked, ParseStep;
    forall other: seq<Step> | Acceptable(v, other)
      ensures false
    {
      SameParse(raw, steps, step, other);
    }
  }

  lemma {:induction false} SameParse(raw: seq<Json>, steps: seq<Step>, step: Step, other: seq<Step>)
    requires |steps| < |raw| && ParsesTo(raw[..|steps|], steps) && ParseStep(raw[|steps|]) == Ok(step)
    requires ParsesTo(raw, other) && AllLinked(other)
    ensures Linked(step, steps)
  {
    hide Linked, ParseStep;
    var k := |steps|;
    forall i | 0 <= i < k
      ensures other[i] == steps[i]
    {
      assert raw[..k][i] == raw[i];
    }
    assert other[..k] == steps && other[k] == step;
  }

  // ---- Execution ----

  /** What a tool call comes to: arguments refused, an exception, or a result. */
  datatype Handled = Refused | Raised | Answered(result: Json, isError: bool)

  datatype Outcome = Completed | StepFailed(at: nat) | Aborted(at: nat, error: PlanError)

  lemma {:induction false} LookupNames(fs: Fields, name: string)
    ensures Has(fs, name) <==> name in Names(fs)
  {
    match fs
    case End =>
    case Pair(_, _, rest) => LookupNames(rest, name);
  }

  lemma {:induction false} ReferenceHasNoOtherKey(fs: Fields, name: string)
    requires ParseReference(fs).Ok? && name != "$ref" && name != "select" && name != "contains"
    ensures Lookup(fs, name).None?
  {
    LookupNames(fs, name);
    assert name in Names(fs) <==> name in multiset(Names(fs));
  }

  /** No accepted step is itself a reference, so its input stays an object. */
  lemma {:induction false} LinkedInputIsPlain(step: Step, earlier: seq<Step>)
    requires Linked(step, earlier)
    ensures !Has(step.input, "$ref")
  {
    if Has(step.input, "$ref") {
      assert Collect(Obj(step.input)).value[0] == ParseReference(step.input).value;
      ReferenceHasNoOtherKey(step.input, "path");
      ReferenceHasNoOtherKey(step.input, "pattern");
      ReferenceHasNoOtherKey(step.input, "paths");
    }
  }

  /** When every earlier step has a result, an accepted step resolves to a reference-free object or fails on data alone. */
  lemma {:induction false} AcceptedStepResolves(step: Step, earlier: seq<Step>, results: map<string, Json>)
    requires Linked(step, earlier) && results.Keys == Ids(earlier)
    ensures Resolve(Obj(step.input), results).Err? ==> DataError(Resolve(Obj(step.input), results).error)
    ensures Resolve(Obj(step.input), results).Ok? ==>
              Resolve(Obj(step.input), results).value.Obj? && ReferenceFree(Resolve(Obj(step.input), results).value)
  {
    ResolveIsSound(Obj(step.input), results);
    LinkedInputIsPlain(step, earlier);
  }

  predicate Succeeded(h: Handled) {
    h.Answered? && !h.isError
  }

  /** The results recorded before step k, by step id. */
  function ResultsBefore(steps: seq<Step>, inputs: seq<Fields>, handle: (nat, Fields) -> Handled, k: nat): map<string, Json>
    requires k <= |inputs| && k <= |steps|
  {
    if k == 0 then map[]
    else
      var before := ResultsBefore(steps, inputs, handle, k - 1);
      match handle(k - 1, inputs[k - 1])
      case Answered(result, _) => before[steps[k - 1].id := result]
      case _ => before
  }

  lemma {:induction false} ResultsPrefix(steps: seq<Step>, inputs: seq<Fields>, more: Fields, handle: (nat, Fields) -> Handled, k: nat)
    requires k <= |inputs| && k <= |steps|
    ensures ResultsBefore(steps, inputs + [more], handle, k) == ResultsBefore(steps, inputs, handle, k)
  {
    if k > 0 { ResultsPrefix(steps, inputs, more, handle, k - 1); }
  }

  /** Each input is its step's, resolved against the results recorded before it. */
  predicate Ran(steps: seq<Step>, inputs: seq<Fields>, handle: (nat, Fields) -> Handled) {
    && |inputs| <= |steps|
    && forall i | 0 <= i < |inputs| :: Resolve(Obj(steps[i].input), ResultsBefore(steps, inputs, handle, i)) == Ok(Obj(inputs[i]))
  }

  lemma {:induction false} RanExtends(steps: seq<Step>, inputs: seq<Fields>, more: Fields, handle: (nat, Fields) -> Handled)
    requires Ran(steps, inputs, handle) && |inputs| < |steps|
    requires Resolve(Obj(steps[|inputs|].input), ResultsBefore(steps, inputs, handle, |inputs|)) == Ok(Obj(more))
    ensures Ran(steps, inputs + [more], handle)
  {
    hide Resolve, ResultsBefore;
    var all := inputs + [more];
    forall i | 0 <= i < |all|
      ensures Resolve(Obj(steps[i].input), ResultsBefore(steps, all, handle, i)) == Ok(Obj(all[i]))
    {
      ResultsPrefix(steps, inputs, more, handle, i);
      if i == |inputs| { assert all[i] == more; } else { assert all[i] == inputs[i]; }
    }
  }

  lemma {:induction false} ResultsNext(steps: seq<Step>, inputs: seq<Fields>, more: Fields, handle: (nat, Fields) -> Handled)
    requires |inputs| < |steps| && handle(|inputs|, more).Answered?
    ensures ResultsBefore(steps, inputs + [more], handle, |inputs| + 1)
              == ResultsBefore(steps, inputs, handle, |inputs|)[steps[|inputs|].id := handle(|inputs|, more).result]
  {
    ResultsPrefix(steps, inputs, more, handle, |inputs|);
  }

  predicate AllSucceeded(inputs: seq<Fields>, n: nat, handle: (nat, Fields) -> Handled)
    requires n <= |inputs|
  {
    forall i | 0 <= i < n :: Succeeded(handle(i, inputs[i]))
  }

  predicate AllFree(inputs: seq<Fields>) {
    forall i | 0 <= i < |inputs| :: ReferenceFree(Obj(inputs[i]))
  }

  /** Why a run stops at step k without an answer: its input does not resolve to an object, or the call is refused or throws. */
  predicate StoppedBy(steps: seq<Step>, inputs: seq<Fields>, handle: (nat, Fields) -> Handled, k: nat, e: PlanError)
    requires k < |steps| && k <= |inputs| <= k + 1
  {
    if |inputs| == k then
      match Resolve(Obj(steps[k].input), ResultsBefore(steps, inputs, handle, k))
      case Err(error) => e == error
      case Ok(v) => !v.Obj? && e == InputNotObject
    else
      match handle(k, inputs[k])
      case Refused => e == ArgumentsRejected
      case Raised => e == ToolThrew
      case Answered(_, _) => false
  }

  /** The step loop of the exec tool; `handle` gives each call's outcome. */
  method Execute(steps: seq<Step>, handle: (nat, Fields) -> Handled) returns (inputs: seq<Fields>, outcome: Outcome)
    ensures Ran(steps, inputs, handle)
    ensures outcome.Completed? ==> |inputs| == |steps| && AllSucceeded(inputs, |inputs|, handle)
    ensures outcome.StepFailed? ==>
              && |inputs| == outcome.at + 1 && AllSucceeded(inputs, outcome.at, handle)
              && handle(outcome.at, inputs[outcome.at]).Answered? && !Succeeded(handle(outcome.at, inputs[outcome.at]))
    ensures outcome.Aborted? ==>
              && outcome.at < |steps| && outcome.at <= |inputs| <= outcome.at + 1 && AllSucceeded(inputs, outcome.at, handle)
              && StoppedBy(steps, inputs, handle, outcome.at, outcome.error)
    ensures AllLinked(steps) ==> AllFree(inputs)
    ensures AllLinked(steps) && outcome.Aborted? ==>
              DataError(outcome.error) || outcome.error == ArgumentsRejected || outcome.error == ToolThrew
  {
    hide Resolve, Linked, ReferenceFree, ResultsBefore, Ran;
    inputs := [];
    var results: map<string, Json> := map[];
    NothingRan(steps, handle);
    for k := 0 to |steps|
      invariant |inputs| == k && results.Keys == Ids(steps[..k]) && results == ResultsBefore(steps, inputs, handle, k)
      invariant Ran(steps, inputs, handle) && AllSucceeded(inputs, k, handle) && (AllLinked(steps) ==> AllFree(inputs))
    {
      if AllLinked(steps) { AcceptedStepResolves(steps[k], steps[..k], results); }
      IdsNext(steps, k);
      var resolved := Resolve(Obj(steps[k].input), results);
      if resolved.Err? {
        return inputs, Aborted(k, resolved.error);
      }
      if !resolved.value.Obj? {
        return inputs, Aborted(k, InputNotObject);
      }
      RanExtends(steps, inputs, resolved.value.fields, handle);
      if handle(k, resolved.value.fields).Answered? { ResultsNext(steps, inputs, resolved.value.fields, handle); }
      inputs := inputs + [resolved.value.fields];
      match handle(k, resolved.value.fields)
      case Refused => return inputs, Aborted(k, ArgumentsRejected);
      case Raised => return inputs, Aborted(k, ToolThrew);
      case Answered(result, isError) =>
        results := results[steps[k].id := result];
        if isError {
          return inputs, StepFailed(k);
        }
    }
    return inputs, Completed;
  }

  lemma {:induction false} NothingRan(steps: seq<Step>, handle: (nat, Fields) -> Handled)
    ensures Ran(steps, [], handle) && ResultsBefore(steps, [], handle, 0) == map[] && Ids(steps[..0]) == {}
  {
  }

  lemma {:induction false} IdsNext(steps: seq<Step>, k: nat)
    requires k < |steps|
    ensures Ids(steps[..k + 1]) == Ids(steps[..k]) + {steps[k].id}
  {
    var a, b := steps[..k], steps[..k + 1];
    forall id | id in Ids(a)
      ensures id in Ids(b)
    {
      var i :| 0 <= i < |a| && a[i].id == id;
      assert b[i].id == id;
    }
    assert b[k].id == steps[k].id;
  }
}
