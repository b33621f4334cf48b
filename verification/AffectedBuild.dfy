/** Build tasks appended to a targeted plan. */
module AffectedBuild {
  import opened AffectedPaths
  import opened AffectedPlan
  import opened AffectedTasks
  import opened ChangedPaths
  import opened ChangelogLines
  import opened PlannerKeys
  import opened Sorting
  import opened TaskIdentity
  import opened Text
  import opened Wrappers

  datatype TsUnit = TsUnit(id: string, name: string, dir: string, nativeConsumer: bool, nativeProducer: bool)
  datatype CargoUnit = CargoUnit(id: string, name: string, manifestPath: string, nativeAddonSource: bool)

  // ---- The three build domains ----

  /** Runs at the repository root. */
  const NATIVE_PRODUCER :=
    Task("native-linux-x64", Some("native" + ":" + "linux-x64:baseline-modern"), Some(""), Some(Capabilities(true, false, false, true)), Some(NativeProducer))

  const EMERGENCY :=
    Task("cargo-build:" + "emergency:workspace", Some("emergency" + ":" + "cargo-workspace:root"), Some(""), Some(Capabilities(true, false, false, false)), Some(CargoBuild))

  function TsTask(u: TsUnit): Task {
    var identity := Stable("ts", u.id, u.dir);
    Task("ts-build:" + identity, Some(identity), Some(u.dir), Some(Capabilities(false, false, u.nativeConsumer, u.nativeProducer)), Some(TsBuild))
  }

  function CargoTask(u: CargoUnit): Task {
    var identity := Stable("cargo", u.id, u.manifestPath);
    Task("cargo-build:" + identity, Some(identity), Some(""), Some(Capabilities(true, false, false, false)), Some(CargoBuild))
  }

  function TsTasks(us: seq<TsUnit>): (r: seq<Task>)
    ensures |r| == |us| && forall i | 0 <= i < |r| :: r[i] == TsTask(us[i])
  {
    seq(|us|, i requires 0 <= i < |us| => TsTask(us[i]))
  }

  /** Selected crates, or the whole workspace when a selected name is ambiguous. */
  datatype CargoSelection = Units(units: seq<CargoUnit>) | Workspace

  function CargoTasks(c: CargoSelection): seq<Task> {
    match c
    case Units(us) => seq(|us|, i requires 0 <= i < |us| => CargoTask(us[i]))
    case Workspace => [EMERGENCY]
  }

  /** Planner items as tasks. */
  function ToTasks(items: seq<Item>): (r: seq<Task>)
    ensures |r| == |items|
    ensures forall i | 0 <= i < |r| :: r[i] == Task(Render(items[i].key), None, items[i].cwd, items[i].capabilities, None)
  {
    seq(|items|, i requires 0 <= i < |items| => Task(Render(items[i].key), None, items[i].cwd, items[i].capabilities, None))
  }

  predicate NotNative(t: Task) {
    !NativeBuildKey(t.key)
  }

  function WithoutNative(ts: seq<Task>): seq<Task> {
    Filter(ts, NotNative)
  }

  /** The crate that is the source of the native addon is built, alone or with the workspace. */
  predicate CargoNeedsProducer(inventory: seq<CargoUnit>, cargo: seq<Task>) {
    exists i, j | 0 <= i < |inventory| && 0 <= j < |cargo| ::
      && inventory[i].nativeAddonSource
      && (cargo[j].key == EMERGENCY.key || cargo[j].identity == Some(Stable("cargo", inventory[i].id, inventory[i].manifestPath)))
  }

  predicate NeedsProducer(legacy: seq<Task>, ts: seq<TsUnit>, inventory: seq<CargoUnit>, cargo: seq<Task>) {
    || (exists i | 0 <= i < |legacy| :: NativeBuildKey(legacy[i].key) || NeedsNative(legacy[i].key))
    || (exists i | 0 <= i < |ts| :: ts[i].nativeConsumer || ts[i].nativeProducer)
    || CargoNeedsProducer(inventory, cargo)
  }

  function Producer(needed: bool): seq<Task> {
    if needed then [NATIVE_PRODUCER] else []
  }

  /** appendBuildTasks. */
  function AppendBuildTasks(legacy: seq<Task>, ts: seq<TsUnit>, inventory: seq<CargoUnit>, cargo: CargoSelection): seq<Task> {
    WithoutNative(legacy) + Producer(NeedsProducer(legacy, ts, inventory, CargoTasks(cargo))) + TsTasks(ts) + CargoTasks(cargo)
  }

  // ---- Ambiguous crate names ----

  function Count(us: seq<CargoUnit>, name: string): nat {
    if us == [] then 0 else Count(us[..|us| - 1], name) + if us[|us| - 1].name == name then 1 else 0
  }

  /** Two crates bear the name. */
  ghost predicate Shared(us: seq<CargoUnit>, name: string) {
    exists i, j | 0 <= i < j < |us| :: us[i].name == name && us[j].name == name
  }

  lemma {:induction false} CountIff(us: seq<CargoUnit>, name: string)
    ensures Count(us, name) > 0 <==> exists i | 0 <= i < |us| :: us[i].name == name
  {
    if us != [] { CountIff(us[..|us| - 1], name); }
  }

  lemma {:induction false} SharedIff(us: seq<CargoUnit>, name: string)
    ensures Count(us, name) > 1 <==> Shared(us, name)
  {
    if us != [] {
      var n := |us| - 1;
      CountIff(us[..n], name);
      SharedIff(us[..n], name);
      if i, j :| 0 <= i < j < |us[..n]| && us[..n][i].name == name && us[..n][j].name == name { assert us[i].name == name && us[j].name == name; }
      if i :| 0 <= i < n && us[..n][i].name == name { assert us[i].name == name; }
      if i, j :| 0 <= i < j < |us| && us[i].name == name && us[j].name == name {
        assert us[..n][i].name == name;
        if j < n { assert us[..n][j].name == name; }
      }
    }
  }

  method RequiresCargoWorkspaceEmergency(selected: seq<CargoUnit>, supported: seq<CargoUnit>) returns (required: bool)
    ensures required <==> exists i | 0 <= i < |selected| :: Count(supported, selected[i].name) > 1
    ensures required <==> exists i | 0 <= i < |selected| :: Shared(supported, selected[i].name)
  {
    forall name
      ensures Count(supported, name) > 1 <==> Shared(supported, name)
    {
      SharedIff(supported, name);
    }
    var counts: map<string, nat> := map[];
    for i := 0 to |supported|
      invariant forall n :: Count(supported[..i], n) == if n in counts then counts[n] else 0
    {
      var name := supported[i].name;
      assert supported[..i + 1][..i] == supported[..i];
      counts := counts[name := (if name in counts then counts[name] else 0) + 1];
    }
    assert supported[..|supported|] == supported;
    return exists i | 0 <= i < |selected| :: selected[i].name in counts && counts[selected[i].name] > 1;
  }

  // ---- Domains of keys and identities ----

  /** Which part of the plan a key belongs to. */
  function KeyClass(k: string): nat {
    if |k| > 1 && k[0] == 't' && k[1] == 's' then 2
    else if |k| > 1 && k[0] == 'c' && k[1] == 'a' then 3
    else if NativeBuildKey(k) then 1
    else 0
  }

  function Domain(identity: string): string {
    Split(identity, ':')[0]
  }

  function DomainClass(identity: string): nat {
    if Domain(identity) == "legacy" then 0
    else if Domain(identity) == "native" then 1
    else if Domain(identity) == "ts" then 2
    else 3
  }

  ghost predicate InClass(ts: seq<Task>, c: nat) {
    forall i | 0 <= i < |ts| :: KeyClass(ts[i].key) == c && DomainClass(Identity(ts[i])) == c
  }

  ghost predicate BelowClass(ts: seq<Task>, c: nat) {
    forall i | 0 <= i < |ts| :: KeyClass(ts[i].key) < c && DomainClass(Identity(ts[i])) < c
  }

  ghost predicate Distinct(ts: seq<Task>) {
    DistinctKeys(ts) && DistinctIdentities(ts)
  }

  lemma {:induction false} DistinctAppend(a: seq<Task>, b: seq<Task>, c: nat)
    requires Distinct(a) && Distinct(b) && BelowClass(a, c) && InClass(b, c)
    ensures Distinct(a + b) && BelowClass(a + b, c + 1)
  {
  }

  lemma {:induction false} StableDomain(domain: string, id: string, location: string)
    requires ':' !in domain
    ensures Domain(Stable(domain, id, location)) == domain
  {
    Fields(domain, id, location);
  }

  lemma {:induction false} LegacyClass(t: Task)
    requires t.identity.None?
    ensures DomainClass(Identity(t)) == 0
  {
    StableDomain("legacy", t.key, RelativeCwd(t.cwd));
  }

  lemma {:induction false} FirstField(domain: string, rest: string)
    requires ':' !in domain
    ensures Domain(domain + ":" + rest) == domain
  {
    SplitAppend(domain, rest, ':');
  }

  lemma {:induction false} ProducerClass()
    ensures KeyClass(NATIVE_PRODUCER.key) == 1 && DomainClass(Identity(NATIVE_PRODUCER)) == 1
  {
    hide Split;
    FirstField("native", "linux-x64:baseline-modern");
  }

  lemma {:induction false} EmergencyClass()
    ensures KeyClass(EMERGENCY.key) == 3 && DomainClass(Identity(EMERGENCY)) == 3
  {
    hide Split;
    FirstField("emergency", "cargo-workspace:root");
  }

  lemma {:induction false} TsClass(u: TsUnit)
    ensures KeyClass(TsTask(u).key) == 2 && DomainClass(Identity(TsTask(u))) == 2
  {
    StableDomain("ts", u.id, u.dir);
  }

  lemma {:induction false} CargoClass(u: CargoUnit)
    ensures KeyClass(CargoTask(u).key) == 3 && DomainClass(Identity(CargoTask(u))) == 3
  {
    StableDomain("cargo", u.id, u.manifestPath);
  }

  // ---- Distinctness ----

  lemma {:induction false} RenderedFixed(k: Key)
    ensures k.Fixed? ==> |Render(k)| > 1 && Render(k)[1] == Second(k.kind) && !(Render(k)[0] == 't' && Render(k)[1] == 's')
                         && !(Render(k)[0] == 'c' && Render(k)[1] == 'a')
  {
    if k.Fixed? { TextShape(k.kind); }
  }

  lemma {:induction false} RenderClass(k: Key)
    ensures KeyClass(Render(k)) == if BuildsNative(k) then 1 else 0
  {
    NativeAgrees(k);
    PrefixShape(k);
    RenderedFixed(k);
    hide Render, NativeBuildKey, WantsNative;
  }

  lemma {:induction false} PlannerTasksAreDistinct(items: seq<Item>, packages: seq<AffectedPaths.Workspace>)
    requires PlannerItems(items, packages)
    ensures Distinct(ToTasks(items))
  {
    hide Render, Stable, Housed;
    var ts := ToTasks(items);
    forall i, j | 0 <= i < j < |ts|
      ensures ts[i].key != ts[j].key && Identity(ts[i]) != Identity(ts[j])
    {
      if ts[i].key == ts[j].key { RenderIsInjective(items[i].key, items[j].key); }
      if Identity(ts[i]) == Identity(ts[j]) {
        StableIsInjective("legacy", ts[i].key, RelativeCwd(ts[i].cwd), "legacy", ts[j].key, RelativeCwd(ts[j].cwd));
      }
    }
  }

  lemma {:induction false} FilterKeepsDistinct(ts: seq<Task>)
    requires Distinct(ts)
    ensures Distinct(WithoutNative(ts))
  {
    hide Identity, NativeBuildKey, Filter;
    var kept := WithoutNative(ts);
    forall i, j | 0 <= i < j < |kept|
      ensures kept[i].key != kept[j].key && Identity(kept[i]) != Identity(kept[j])
    {
      var x, y := FilteredFrom(ts, NotNative, i, j);
    }
  }

  lemma {:induction false} LegacyIsBelow(items: seq<Item>)
    ensures BelowClass(WithoutNative(ToTasks(items)), 1)
  {
    var ts := WithoutNative(ToTasks(items));
    forall i | 0 <= i < |ts|
      ensures KeyClass(ts[i].key) == 0 && DomainClass(Identity(ts[i])) == 0
    {
      assert ts[i] in ts && ts[i] in ToTasks(items);
      var j :| 0 <= j < |items| && ToTasks(items)[j] == ts[i];
      RenderClass(items[j].key);
      NativeAgrees(items[j].key);
      LegacyClass(ts[i]);
    }
  }

  ghost predicate UniqueTs(us: seq<TsUnit>) {
    forall i, j | 0 <= i < j < |us| :: us[i].id != us[j].id
  }

  ghost predicate UniqueCargo(us: seq<CargoUnit>) {
    forall i, j | 0 <= i < j < |us| :: us[i].id != us[j].id
  }

  lemma {:induction false} TsAreDistinct(us: seq<TsUnit>)
    requires UniqueTs(us)
    ensures Distinct(TsTasks(us)) && InClass(TsTasks(us), 2)
  {
    forall i | 0 <= i < |us|
      ensures KeyClass(TsTask(us[i]).key) == 2 && DomainClass(Identity(TsTask(us[i]))) == 2
    {
      TsClass(us[i]);
    }
    forall i, j | 0 <= i < j < |us|
      ensures TsTask(us[i]).key != TsTask(us[j]).key && Identity(TsTask(us[i])) != Identity(TsTask(us[j]))
    {
      PrefixedDistinct("ts-build:", "ts", us[i].id, us[i].dir, us[j].id, us[j].dir);
    }
  }

  lemma {:induction false} PrefixedDistinct(prefix: string, domain: string, id: string, location: string, id': string, location': string)
    requires ':' !in domain && id != id'
    ensures Stable(domain, id, location) != Stable(domain, id', location')
    ensures prefix + Stable(domain, id, location) != prefix + Stable(domain, id', location')
  {
    var a, b := Stable(domain, id, location), Stable(domain, id', location');
    if a == b { StableIsInjective(domain, id, location, domain, id', location'); }
    assert (prefix + a)[|prefix|..] == a && (prefix + b)[|prefix|..] == b;
  }

  lemma {:induction false} CargoAreDistinct(c: CargoSelection)
    requires c.Units? ==> UniqueCargo(c.units)
    ensures Distinct(CargoTasks(c)) && InClass(CargoTasks(c), 3)
  {
    match c
    case Workspace => EmergencyClass();
    case Units(us) =>
      forall i | 0 <= i < |us|
        ensures KeyClass(CargoTask(us[i]).key) == 3 && DomainClass(Identity(CargoTask(us[i]))) == 3
      {
        CargoClass(us[i]);
      }
      forall i, j | 0 <= i < j < |us|
        ensures CargoTask(us[i]).key != CargoTask(us[j]).key && Identity(CargoTask(us[i])) != Identity(CargoTask(us[j]))
      {
        PrefixedDistinct("cargo-build:", "cargo", us[i].id, us[i].manifestPath, us[j].id, us[j].manifestPath);
      }
  }

  lemma {:induction false} ProducerIsDistinct(needed: bool)
    ensures Distinct(Producer(needed)) && InClass(Producer(needed), 1)
  {
    ProducerClass();
  }

  /** Keys and identities are pairwise distinct across the planner, native, TypeScript and Cargo tasks. */
  lemma {:induction false} PlanIsDistinct(items: seq<Item>, packages: seq<AffectedPaths.Workspace>, ts: seq<TsUnit>, inventory: seq<CargoUnit>, cargo: CargoSelection)
    requires PlannerItems(items, packages) && UniqueTs(ts) && (cargo.Units? ==> UniqueCargo(cargo.units))
    ensures Distinct(AppendBuildTasks(ToTasks(items), ts, inventory, cargo))
  {
    var legacy := WithoutNative(ToTasks(items));
    var producer := Producer(NeedsProducer(ToTasks(items), ts, inventory, CargoTasks(cargo)));
    PlannerTasksAreDistinct(items, packages);
    FilterKeepsDistinct(ToTasks(items));
    LegacyIsBelow(items);
    ProducerIsDistinct(NeedsProducer(ToTasks(items), ts, inventory, CargoTasks(cargo)));
    TsAreDistinct(ts);
    CargoAreDistinct(cargo);
    hide *;
    DistinctAppend(legacy, producer, 1);
    DistinctAppend(legacy + producer, TsTasks(ts), 2);
    DistinctAppend(legacy + producer + TsTasks(ts), CargoTasks(cargo), 3);
  }

  // ---- The native producer ----

  lemma {:induction false} KeptIsNotNative(legacy: seq<Task>, i: nat)
    requires i < |WithoutNative(legacy)|
    ensures WithoutNative(legacy)[i] in legacy && !NativeBuildKey(WithoutNative(legacy)[i].key)
  {
    assert WithoutNative(legacy)[i] in WithoutNative(legacy);
  }

  lemma {:induction false} OnlyProducerBuilds(legacy: seq<Task>, ts: seq<TsUnit>, inventory: seq<CargoUnit>, cargo: CargoSelection, i: nat)
    requires i < |AppendBuildTasks(legacy, ts, inventory, cargo)|
    requires NativeBuildKey(AppendBuildTasks(legacy, ts, inventory, cargo)[i].key)
    ensures i == |WithoutNative(legacy)| && NeedsProducer(legacy, ts, inventory, CargoTasks(cargo))
  {
    var kept, needed := WithoutNative(legacy), NeedsProducer(legacy, ts, inventory, CargoTasks(cargo));
    var plan := AppendBuildTasks(legacy, ts, inventory, cargo);
    if i < |kept| {
      KeptIsNotNative(legacy, i);
    } else if i >= |kept| + |Producer(needed)| {
      var k := i - |kept| - |Producer(needed)|;
      if k < |ts| { TsIsNotNative(ts[k]); } else { CargoIsNotNative(cargo, k - |ts|); }
    }
  }

  lemma {:induction false} TsIsNotNative(u: TsUnit)
    ensures !NativeBuildKey(TsTask(u).key)
  {
    assert TsTask(u).key[0] == 't';
  }

  lemma {:induction false} CargoIsNotNative(c: CargoSelection, i: nat)
    requires i < |CargoTasks(c)|
    ensures !NativeBuildKey(CargoTasks(c)[i].key)
  {
    match c
    case Units(us) => assert CargoTask(us[i]).key[0] == 'c';
    case Workspace => EmergencyClass();
  }

  /** At most one native producer, in front of every TypeScript and Cargo build. */
  lemma {:induction false} ProducerOnceAndFirst(legacy: seq<Task>, ts: seq<TsUnit>, inventory: seq<CargoUnit>, cargo: CargoSelection, i: nat, j: nat)
    requires (forall t | t in legacy :: t.phase.None?)
    requires i < |AppendBuildTasks(legacy, ts, inventory, cargo)| && j < |AppendBuildTasks(legacy, ts, inventory, cargo)|
    requires NativeBuildKey(AppendBuildTasks(legacy, ts, inventory, cargo)[i].key)
    ensures AppendBuildTasks(legacy, ts, inventory, cargo)[i] == NATIVE_PRODUCER
    ensures NativeBuildKey(AppendBuildTasks(legacy, ts, inventory, cargo)[j].key) ==> j == i
    ensures AppendBuildTasks(legacy, ts, inventory, cargo)[j].phase in [Some(TsBuild), Some(CargoBuild)] ==> i < j
  {
    var kept, plan := WithoutNative(legacy), AppendBuildTasks(legacy, ts, inventory, cargo);
    OnlyProducerBuilds(legacy, ts, inventory, cargo, i);
    assert plan[i] == NATIVE_PRODUCER;
    if NativeBuildKey(plan[j].key) { OnlyProducerBuilds(legacy, ts, inventory, cargo, j); }
    if j < |kept| { assert plan[j] == kept[j] && kept[j] in kept; }
  }

  predicate Consumes(t: Task) {
    Describe(t).native
  }

  lemma {:induction false} CargoDoesNotConsume(c: CargoSelection, i: nat)
    requires i < |CargoTasks(c)|
    ensures !Consumes(CargoTasks(c)[i])
  {
  }

  /** A plan with a task that consumes the native addon contains the producer. */
  lemma {:induction false} ConsumerHasProducer(legacy: seq<Task>, ts: seq<TsUnit>, inventory: seq<CargoUnit>, cargo: CargoSelection, i: nat)
    requires forall t | t in legacy && t.capabilities.Some? :: !t.capabilities.value.nativeConsumer
    requires i < |AppendBuildTasks(legacy, ts, inventory, cargo)| && Consumes(AppendBuildTasks(legacy, ts, inventory, cargo)[i])
    ensures NATIVE_PRODUCER in AppendBuildTasks(legacy, ts, inventory, cargo)
  {
    hide NeedsNative, NativeBuildKey, CargoNeedsProducer, Stable, NeedsRust, RustTestKey;
    var kept, plan := WithoutNative(legacy), AppendBuildTasks(legacy, ts, inventory, cargo);
    var needed := NeedsProducer(legacy, ts, inventory, CargoTasks(cargo));
    if i < |kept| {
      KeptIsNotNative(legacy, i);
      var j :| 0 <= j < |legacy| && legacy[j] == kept[i];
    } else if i >= |kept| + |Producer(needed)| {
      var k := i - |kept| - |Producer(needed)|;
      if k < |ts| { assert ts[k].nativeConsumer; } else { CargoDoesNotConsume(cargo, k - |ts|); }
    }
    assert needed;
    assert plan[|kept|] == NATIVE_PRODUCER;
  }

  /** The producer is planned exactly when something planned builds or needs the addon, or its crate is built. */
  lemma {:induction false} ProducerIff(legacy: seq<Task>, ts: seq<TsUnit>, inventory: seq<CargoUnit>, cargo: CargoSelection)
    requires UniqueCargo(inventory) && FromInventory(inventory, cargo)
    ensures NATIVE_PRODUCER in AppendBuildTasks(legacy, ts, inventory, cargo) <==>
            || (exists t :: t in legacy && (t.key == "native-build" || t.key == "native-linux-x64" || NeedsNative(t.key)))
            || (exists u :: u in ts && (u.nativeConsumer || u.nativeProducer))
            || (exists u :: u in (if cargo.Units? then cargo.units else inventory) && u.nativeAddonSource)
  {
    hide NeedsNative, CargoNeedsProducer, FromInventory, UniqueCargo, AppendBuildTasks, NeedsProducer, CargoTasks;
    CargoProducerIff(inventory, cargo);
    NeededIff(legacy, ts, inventory, CargoTasks(cargo));
    PlannedProducerIff(legacy, ts, inventory, cargo);
    var built := if cargo.Units? then cargo.units else inventory;
    assert (exists k | 0 <= k < |built| :: built[k].nativeAddonSource) <==> exists u :: u in built && u.nativeAddonSource;
  }

  lemma {:induction false} PlannedProducerIff(legacy: seq<Task>, ts: seq<TsUnit>, inventory: seq<CargoUnit>, cargo: CargoSelection)
    ensures NATIVE_PRODUCER in AppendBuildTasks(legacy, ts, inventory, cargo) <==> NeedsProducer(legacy, ts, inventory, CargoTasks(cargo))
  {
    NoOtherProducer(legacy, ts, cargo);
    hide NeedsProducer, CargoTasks, TsTasks, WithoutNative;
  }

  lemma {:induction false} NeededIff(legacy: seq<Task>, ts: seq<TsUnit>, inventory: seq<CargoUnit>, cargo: seq<Task>)
    ensures NeedsProducer(legacy, ts, inventory, cargo) <==>
            || (exists t :: t in legacy && (t.key == "native-build" || t.key == "native-linux-x64" || NeedsNative(t.key)))
            || (exists u :: u in ts && (u.nativeConsumer || u.nativeProducer))
            || CargoNeedsProducer(inventory, cargo)
  {
    hide NeedsNative, CargoNeedsProducer;
    assert forall t: Task :: NativeBuildKey(t.key) <==> t.key == "native-build" || t.key == "native-linux-x64";
    hide NativeBuildKey;
    assert (exists i | 0 <= i < |legacy| :: NativeBuildKey(legacy[i].key) || NeedsNative(legacy[i].key))
           <==> exists t :: t in legacy && (NativeBuildKey(t.key) || NeedsNative(t.key));
    assert (exists i | 0 <= i < |ts| :: ts[i].nativeConsumer || ts[i].nativeProducer) <==> exists u :: u in ts && (u.nativeConsumer || u.nativeProducer);
  }

  lemma {:induction false} NoOtherProducer(legacy: seq<Task>, ts: seq<TsUnit>, cargo: CargoSelection)
    ensures NATIVE_PRODUCER !in WithoutNative(legacy) && NATIVE_PRODUCER !in TsTasks(ts) && NATIVE_PRODUCER !in CargoTasks(cargo)
  {
    assert !NotNative(NATIVE_PRODUCER);
    assert forall u: TsUnit :: TsTask(u).phase == Some(TsBuild);
    assert forall u: CargoUnit :: CargoTask(u).phase == Some(CargoBuild);
    hide NotNative, TsTask, CargoTask;
  }

  /** Selected units come from the inventory. */
  ghost predicate FromInventory(inventory: seq<CargoUnit>, cargo: CargoSelection) {
    cargo.Units? ==> forall u | u in cargo.units :: u in inventory
  }

  /** The crate-level trigger means what it says: the addon's crate is built, by itself or with the whole workspace. */
  lemma {:induction false} CargoProducerIff(inventory: seq<CargoUnit>, cargo: CargoSelection)
    requires UniqueCargo(inventory) && FromInventory(inventory, cargo)
    ensures CargoNeedsProducer(inventory, CargoTasks(cargo)) <==>
            var built := if cargo.Units? then cargo.units else inventory;
            exists k | 0 <= k < |built| :: built[k].nativeAddonSource
  {
    if cargo.Units? {
      UnitsProducerIff(inventory, cargo);
    } else {
      assert CargoTasks(cargo)[0].key == EMERGENCY.key;
    }
  }

  lemma {:induction false} UnitsProducerIff(inventory: seq<CargoUnit>, cargo: CargoSelection)
    requires cargo.Units? && UniqueCargo(inventory) && FromInventory(inventory, cargo)
    ensures CargoNeedsProducer(inventory, CargoTasks(cargo)) <==> exists k | 0 <= k < |cargo.units| :: cargo.units[k].nativeAddonSource
  {
    var us := cargo.units;
    if CargoNeedsProducer(inventory, CargoTasks(cargo)) {
      var i, j :| 0 <= i < |inventory| && 0 <= j < |CargoTasks(cargo)| && inventory[i].nativeAddonSource
        && (CargoTasks(cargo)[j].key == EMERGENCY.key
            || CargoTasks(cargo)[j].identity == Some(Stable("cargo", inventory[i].id, inventory[i].manifestPath)));
      SameCrate(us[j], inventory[i]);
      assert us[j] in us && us[j] in inventory;
      var m :| 0 <= m < |inventory| && inventory[m] == us[j];
      assert m == i && us[j].nativeAddonSource;
    }
    if exists k | 0 <= k < |us| :: us[k].nativeAddonSource {
      var k :| 0 <= k < |us| && us[k].nativeAddonSource;
      assert us[k] in us;
      var i :| 0 <= i < |inventory| && inventory[i] == us[k];
      assert CargoTasks(cargo)[k].identity == Some(Stable("cargo", inventory[i].id, inventory[i].manifestPath));
    }
  }

  lemma {:induction false} CrateIsNotEmergency(u: CargoUnit)
    ensures CargoTask(u).key != EMERGENCY.key
  {
    var x, y := "cargo-build:" + Stable("cargo", u.id, u.manifestPath), "cargo-build:" + "emergency:workspace";
    assert x[12] == 'c' && y[12] == 'e';
  }

  lemma {:induction false} SameCrate(a: CargoUnit, b: CargoUnit)
    requires CargoTask(a).key == EMERGENCY.key || CargoTask(a).identity == Some(Stable("cargo", b.id, b.manifestPath))
    ensures a.id == b.id
  {
    CrateIsNotEmergency(a);
    StableIsInjective("cargo", a.id, a.manifestPath, "cargo", b.id, b.manifestPath);
  }
}
