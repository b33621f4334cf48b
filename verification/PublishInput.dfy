/** Validation of evidence records against the publish configuration, and the whole plan. */
module PublishInput {
  import opened Dag
  import opened PublishPlan
  import opened Sorting
  import opened Text
  import opened Wrappers

  /** Evidence definitions by directory, configured directories in declaration order, the version pattern. */
  datatype Config = Config(definitions: map<string, Name>, dirs: seq<string>, supported: string -> bool)

  /** `declared` is the records rearranged into configuration order. */
  ghost predicate Selected(records: seq<Record>, config: Config, declared: seq<Record>) {
    && |declared| == |config.dirs|
    && (forall i | 0 <= i < |declared| ::
          config.dirs[i] in config.definitions && declared[i].name == config.definitions[config.dirs[i]]
          && declared[i].dir == config.dirs[i])
    && DistinctNames(declared) && multiset(declared) == multiset(records)
  }

  ghost predicate Configured(config: Config) {
    multiset(config.dirs) == multiset(config.definitions.Keys)
  }

  /** The records indexed by name. */
  ghost predicate Indexes(byName: map<Name, Record>, records: seq<Record>) {
    && (forall n | n in byName :: byName[n].name == n && byName[n] in records)
    && (forall r | r in records :: r.name in byName && byName[r.name] == r)
  }

  method IndexByName(records: seq<Record>) returns (r: Result<map<Name, Record>, PlanError>)
    ensures r.Ok? <==> DistinctNames(records)
    ensures r.Ok? ==> Indexes(r.value, records)
    ensures r.Err? ==> r.error == DuplicateRecord
  {
    var byName := map[];
    for i := 0 to |records|
      invariant DistinctNames(records[..i]) && Indexes(byName, records[..i])
    {
      var name := records[i].name;
      assert records[..i + 1] == records[..i] + [records[i]];
      if name in byName {
        assert byName[name] in records[..i];
        return Err(DuplicateRecord);
      }
      forall j | 0 <= j < i
        ensures records[j].name != name
      {
        assert records[..i][j] in records[..i];
      }
      byName := byName[name := records[i]];
    }
    assert records[..|records|] == records;
    return Ok(byName);
  }

  /** A directory's record, or why there is none. */
  function Declared(config: Config, byName: map<Name, Record>, taken: set<Name>, dir: string): Result<Record, PlanError> {
    if dir !in config.definitions then Err(Misconfigured)
    else
      var name := config.definitions[dir];
      if name in taken then Err(DuplicateDeclaration)
      else if name !in byName then Err(MissingRecord)
      else if byName[name].dir != dir then Err(WrongDirectory)
      else Ok(byName[name])
  }

  /** The first k declared records. */
  ghost predicate Picked(config: Config, byName: map<Name, Record>, declared: seq<Record>, k: nat) {
    && |declared| == k <= |config.dirs| && DistinctNames(declared)
    && forall i | 0 <= i < k ::
         && config.dirs[i] in config.definitions && declared[i].name == config.definitions[config.dirs[i]]
         && declared[i].dir == config.dirs[i] && declared[i].name in byName && declared[i] == byName[declared[i].name]
  }

  /** Any valid selection agrees with the records picked so far. */
  lemma {:induction false} SelectionAgrees(records: seq<Record>, config: Config, byName: map<Name, Record>, other: seq<Record>, i: nat)
    requires Indexes(byName, records) && Selected(records, config, other) && i < |other|
    ensures other[i].name in byName && other[i] == byName[other[i].name]
  {
    assert other[i] in multiset(other) && other[i] in multiset(records);
    assert other[i] in records;
  }

  lemma {:induction false} PickedIsSelected(records: seq<Record>, config: Config, byName: map<Name, Record>, declared: seq<Record>)
    requires DistinctNames(records) && Indexes(byName, records)
    requires Picked(config, byName, declared, |config.dirs|)
    requires byName.Keys <= Elems(Names(declared))
    ensures Selected(records, config, declared)
  {
    assert DistinctBy(records, NameOf) && DistinctBy(declared, NameOf);
    forall r | r in declared
      ensures r in records
    {
      var i :| 0 <= i < |declared| && declared[i] == r;
    }
    forall r | r in records
      ensures r in declared
    {
      assert r.name in Elems(Names(declared));
      var i :| 0 <= i < |declared| && Names(declared)[i] == r.name;
      assert declared[i] == byName[r.name] == r;
    }
    SameMembersPermute(declared, records, NameOf);
  }

  lemma {:induction false} SelectedCovers(records: seq<Record>, config: Config, byName: map<Name, Record>, declared: seq<Record>)
    requires Indexes(byName, records) && Selected(records, config, declared)
    ensures byName.Keys <= Elems(Names(declared))
  {
    forall n | n in byName
      ensures n in Elems(Names(declared))
    {
      assert byName[n] in multiset(records) && byName[n] in multiset(declared);
      var i :| 0 <= i < |declared| && declared[i] == byName[n];
      assert Names(declared)[i] == n;
    }
  }

  /** Two valid selections of the same records are the same list. */
  lemma {:induction false} SelectionUnique(records: seq<Record>, config: Config, a: seq<Record>, b: seq<Record>)
    requires Selected(records, config, a) && Selected(records, config, b)
    ensures a == b
  {
    forall i | 0 <= i < |a|
      ensures a[i] == b[i]
    {
      assert a[i] in multiset(a) && a[i] in multiset(b);
      var j :| 0 <= j < |b| && b[j] == a[i];
      assert i == j;
    }
  }

  lemma {:induction false} DistinctRecords(records: seq<Record>, config: Config, declared: seq<Record>)
    requires Selected(records, config, declared)
    ensures DistinctNames(records)
  {
    assert DistinctBy(declared, NameOf);
    forall i, j | 0 <= i < j < |records| && records[i].name == records[j].name
      ensures false
    {
      assert records[i] in multiset(declared) && records[j] in multiset(declared);
      var a :| 0 <= a < |declared| && declared[a] == records[i];
      var b :| 0 <= b < |declared| && declared[b] == records[j];
      assert a == b;
      DistinctMultiplicity(declared, NameOf, records[i]);
      TwiceCounted(records, i, j);
    }
  }

  lemma {:induction false} TwiceCounted(s: seq<Record>, i: nat, j: nat)
    requires i < j < |s| && s[i] == s[j]
    ensures multiset(s)[s[i]] >= 2
  {
    assert s == s[..i] + [s[i]] + s[i + 1..j] + [s[j]] + s[j + 1..];
  }

  ghost predicate Selectable(records: seq<Record>, config: Config) {
    Configured(config) && exists declared :: Selected(records, config, declared)
  }

  lemma {:induction false} PickFails(records: seq<Record>, config: Config, byName: map<Name, Record>, declared: seq<Record>, k: nat, taken: set<Name>)
    requires Indexes(byName, records) && Picked(config, byName, declared, k) && k < |config.dirs|
    requires taken == Elems(Names(declared)) && Declared(config, byName, taken, config.dirs[k]).Err?
    ensures forall other :: !Selected(records, config, other)
  {
    forall other: seq<Record> | Selected(records, config, other)
      ensures false
    {
      SelectionAgrees(records, config, byName, other, k);
    }
  }

  /** The defect an error names is really there. */
  ghost predicate Explains(error: PlanError, records: seq<Record>, config: Config) {
    match error
    case Misconfigured => !Configured(config)
    case DuplicateRecord => !DistinctNames(records)
    case DuplicateDeclaration =>
      exists i, j | 0 <= i < j < |config.dirs| && config.dirs[i] in config.definitions && config.dirs[j] in config.definitions ::
        config.definitions[config.dirs[i]] == config.definitions[config.dirs[j]]
    case MissingRecord =>
      exists dir | dir in config.dirs && dir in config.definitions :: forall r | r in records :: r.name != config.definitions[dir]
    case WrongDirectory =>
      exists dir, r | dir in config.dirs && dir in config.definitions && r in records ::
        r.name == config.definitions[dir] && r.dir != dir
    case UnexpectedRecord =>
      exists r | r in records :: forall dir | dir in config.dirs && dir in config.definitions :: config.definitions[dir] != r.name
    case _ => false
  }

  lemma {:induction false} PickErrorExplained(records: seq<Record>, config: Config, byName: map<Name, Record>, declared: seq<Record>, k: nat, taken: set<Name>)
    requires Configured(config) && Indexes(byName, records) && Picked(config, byName, declared, k) && k < |config.dirs|
    requires taken == Elems(Names(declared)) && Declared(config, byName, taken, config.dirs[k]).Err?
    ensures Explains(Declared(config, byName, taken, config.dirs[k]).error, records, config)
  {
    var dir := config.dirs[k];
    assert dir in multiset(config.dirs);
    assert dir in config.definitions;
    var name := config.definitions[dir];
    if name in taken {
      var i :| 0 <= i < |declared| && Names(declared)[i] == name;
      assert config.definitions[config.dirs[i]] == config.definitions[config.dirs[k]];
    }
  }

  lemma {:induction false} LeftoverExplained(records: seq<Record>, config: Config, byName: map<Name, Record>, declared: seq<Record>, n: Name)
    requires Indexes(byName, records) && Picked(config, byName, declared, |config.dirs|)
    requires n in byName && n !in Elems(Names(declared))
    ensures Explains(UnexpectedRecord, records, config)
  {
    forall dir | dir in config.dirs && dir in config.definitions
      ensures config.definitions[dir] != byName[n].name
    {
      var i :| 0 <= i < |config.dirs| && config.dirs[i] == dir;
      assert Names(declared)[i] == config.definitions[dir];
    }
  }

  /** Records in configuration order, or the first reason there is no such arrangement. */
  method SelectDeclared(records: seq<Record>, config: Config) returns (r: Result<seq<Record>, PlanError>)
    ensures r.Ok? <==> Selectable(records, config)
    ensures r.Ok? ==> Selected(records, config, r.value)
    ensures r.Err? ==> Explains(r.error, records, config)
  {
    if multiset(config.dirs) != multiset(config.definitions.Keys) {
      return Err(Misconfigured);
    }
    var index := IndexByName(records);
    if index.Err? {
      forall declared | Selected(records, config, declared)
        ensures false
      {
        DistinctRecords(records, config, declared);
      }
      return Err(index.error);
    }
    var byName, declared, taken := index.value, [], {};
    assert Elems(Names(declared)) == {};
    for k := 0 to |config.dirs|
      invariant Picked(config, byName, declared, k) && taken == Elems(Names(declared))
    {
      var record := Declared(config, byName, taken, config.dirs[k]);
      if record.Err? {
        PickFails(records, config, byName, declared, k, taken);
        PickErrorExplained(records, config, byName, declared, k, taken);
        return Err(record.error);
      }
      assert Names(declared + [record.value]) == Names(declared) + [record.value.name];
      forall i | 0 <= i < k
        ensures declared[i].name != record.value.name
      {
        assert Names(declared)[i] in taken;
      }
      declared, taken := declared + [record.value], taken + {record.value.name};
    }
    if byName.Keys - taken != {} {
      forall other | Selected(records, config, other)
        ensures false
      {
        UnmatchedRecord(records, config, byName, declared, other);
      }
      var n :| n in byName.Keys - taken;
      LeftoverExplained(records, config, byName, declared, n);
      return Err(UnexpectedRecord);
    }
    assert byName.Keys <= taken by { assert byName.Keys == (byName.Keys - taken) + byName.Keys * taken; }
    PickedIsSelected(records, config, byName, declared);
    return Ok(declared);
  }

  lemma {:induction false} UnmatchedRecord(records: seq<Record>, config: Config, byName: map<Name, Record>, declared: seq<Record>, other: seq<Record>)
    requires Indexes(byName, records) && Picked(config, byName, declared, |config.dirs|) && Selected(records, config, other)
    ensures byName.Keys <= Elems(Names(declared))
  {
    SelectedCovers(records, config, byName, other);
    assert Names(other) == Names(declared);
  }

  // ---- Versions and dependencies ----

  /** One supported version, and dependencies pinned to it on known, present packages. */
  ghost predicate Pinned(declared: seq<Record>, config: Config) {
    && declared != [] && config.supported(declared[0].version)
    && (forall i | 0 <= i < |declared| :: declared[i].version == declared[0].version)
    && forall i, d | 0 <= i < |declared| && d in declared[i].dependencies ::
         && d in config.definitions.Values && declared[i].dependencies[d] == declared[0].version
         && d in Names(declared)
  }

  predicate RecordPinned(r: Record, version: string, config: Config, names: seq<Name>) {
    forall d | d in r.dependencies :: d in config.definitions.Values && r.dependencies[d] == version && d in names
  }

  /** The order in which dependency names are visited. */
  predicate NameLeq(a: Name, b: Name) {
    LexLeq(a.text, b.text, UnitRank)
  }

  ghost predicate Least(d: Name, s: set<Name>) {
    d in s && forall e | e in s :: NameLeq(d, e)
  }

  lemma {:induction false} NameLeqIsTotal(a: Name, b: Name, c: Name)
    ensures NameLeq(a, b) || NameLeq(b, a)
    ensures NameLeq(a, b) && NameLeq(b, c) ==> NameLeq(a, c)
  {
    LexTotal(a.text, b.text, UnitRank);
    if NameLeq(a, b) && NameLeq(b, c) { LexTransitive(a.text, b.text, c.text, UnitRank); }
  }

  lemma {:induction false} LeastExists(s: set<Name>) returns (d: Name)
    requires s != {}
    ensures Least(d, s)
    decreases |s|
  {
    hide NameLeq;
    d :| d in s;
    NameLeqIsTotal(d, d, d);
    if s != {d} {
      var e := LeastExists(s - {d});
      NameLeqIsTotal(d, e, e);
      if NameLeq(d, e) {
        forall f | f in s
          ensures NameLeq(d, f)
        {
          NameLeqIsTotal(d, e, f);
        }
      } else {
        d := e;
      }
    }
  }

  lemma {:induction false} LeastIsUnique(d: Name, e: Name, s: set<Name>)
    requires Least(d, s) && Least(e, s)
    ensures d == e
  {
    LexAntisymmetric(d.text, e.text, UnitRank);
  }

  /** Dependencies on unknown packages, or not pinned to the version. */
  function Unpinned(r: Record, version: string, config: Config): set<Name> {
    set d | d in r.dependencies && (d !in config.definitions.Values || r.dependencies[d] != version)
  }

  /** The first fault of one record: its first unpinned dependency by name, or one on an absent package. */
  ghost predicate RecordFault(e: PlanError, r: Record, version: string, config: Config, names: seq<Name>) {
    if Unpinned(r, version, config) == {} then e == AbsentDependency && exists d | d in r.dependencies :: d !in names
    else exists d | Least(d, Unpinned(r, version, config)) ::
           e == if d !in config.definitions.Values then UnknownDependency else InexactDependency
  }

  /** The first fault of the declared records. */
  ghost predicate FirstFault(e: PlanError, declared: seq<Record>, config: Config) {
    if declared == [] then e == NoRecords
    else
      var version := declared[0].version;
      if exists i | 0 <= i < |declared| :: declared[i].version != version then e == MixedVersions
      else if !config.supported(version) then e == UnsupportedVersion
      else exists i | 0 <= i < |declared| ::
             && RecordFault(e, declared[i], version, config, Names(declared))
             && forall j | 0 <= j < i :: RecordPinned(declared[j], version, config, Names(declared))
  }

  method FaultOf(r: Record, version: string, config: Config, names: seq<Name>) returns (e: PlanError)
    requires !RecordPinned(r, version, config, names)
    ensures RecordFault(e, r, version, config, names)
  {
    var unpinned := Unpinned(r, version, config);
    if unpinned == {} {
      assert exists d | d in r.dependencies :: d !in names by {
        var d :| d in r.dependencies && !(d in config.definitions.Values && r.dependencies[d] == version && d in names);
        assert d !in unpinned;
      }
      return AbsentDependency;
    }
    ghost var least := LeastExists(unpinned);
    assert exists d :: d in unpinned && forall e | e in unpinned :: NameLeq(d, e);
    forall d, d' | Least(d, unpinned) && Least(d', unpinned)
      ensures d == d'
    {
      LeastIsUnique(d, d', unpinned);
    }
    var d :| d in unpinned && forall e | e in unpinned :: NameLeq(d, e);
    assert Least(d, unpinned);
    return if d !in config.definitions.Values then UnknownDependency else InexactDependency;
  }

  method ValidateDependencies(declared: seq<Record>, config: Config) returns (e: Option<PlanError>)
    ensures e.None? <==> Pinned(declared, config)
    ensures e.Some? ==> FirstFault(e.value, declared, config)
  {
    if declared == [] {
      return Some(NoRecords);
    }
    var version := declared[0].version;
    if exists i | 0 <= i < |declared| :: declared[i].version != version {
      return Some(MixedVersions);
    }
    for i := 0 to |declared|
      invariant i > 0 ==> config.supported(version)
      invariant forall j | 0 <= j < i :: RecordPinned(declared[j], version, config, Names(declared))
    {
      if !config.supported(version) {
        return Some(UnsupportedVersion);
      }
      if !RecordPinned(declared[i], version, config, Names(declared)) {
        var fault := FaultOf(declared[i], version, config, Names(declared));
        hide RecordFault;
        return Some(fault);
      }
    }
    return None;
  }

  /** What a plan that succeeds looks like. */
  ghost predicate Planned(records: seq<Record>, config: Config, plan: seq<Record>) {
    exists declared | Selected(records, config, declared) ::
      Pinned(declared, config) && LeastOrder(GraphOf(declared), Names(plan)) && multiset(plan) == multiset(records)
  }

  /** Valid input whose dependency graph has a cycle. */
  ghost predicate Cyclic(records: seq<Record>, config: Config) {
    && Configured(config)
    && exists declared | Selected(records, config, declared) :: Pinned(declared, config) && HasCycle(GraphOf(declared))
  }

  ghost predicate ValidInput(records: seq<Record>, config: Config) {
    && Configured(config)
    && exists declared | Selected(records, config, declared) :: Pinned(declared, config)
  }

  /** The publication plan over arbitrary records and configuration. */
  method PlanExpectedEvidencePublication(records: seq<Record>, config: Config) returns (r: Result<seq<Record>, PlanError>)
    ensures r == Err(DependencyCycle) <==> Cyclic(records, config)
    ensures r.Ok? <==> ValidInput(records, config) && !Cyclic(records, config)
    ensures r.Ok? ==> Planned(records, config, r.value)
    ensures r.Err? && r.error != DependencyCycle ==>
              || Explains(r.error, records, config)
              || exists declared | Selected(records, config, declared) :: FirstFault(r.error, declared, config)
  {
    var selected := SelectDeclared(records, config);
    if selected.Err? {
      return Err(selected.error);
    }
    var declared := selected.value;
    forall other | Selected(records, config, other)
      ensures other == declared
    {
      SelectionUnique(records, config, other, declared);
    }
    var invalid := ValidateDependencies(declared, config);
    if invalid.Some? {
      return Err(invalid.value);
    }
    r := PlanDeclared(declared);
  }
}
