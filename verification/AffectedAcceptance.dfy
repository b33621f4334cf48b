/** Why the plan loader accepts what the pull-request planner emits, and exactly when. */
module AffectedAcceptance {
  import opened AffectedBuild
  import opened AffectedPaths
  import opened AffectedPlan
  import opened AffectedTasks
  import opened ChangedPaths
  import opened ChangelogLines
  import opened PlannerKeys
  import opened Sorting
  import opened TaskIdentity
  import opened Text
  import opened Whitespace
  import opened Wrappers

  // ---- From changed paths to an accepted plan ----

  /** What a pull-request plan consists of; documentation-only changes get no builds. */
  function Resolve(items: seq<Item>, ts: seq<TsUnit>, inventory: seq<CargoUnit>, cargo: CargoSelection, docsOnly: bool): seq<Task> {
    if docsOnly then ToTasks(items) else AppendBuildTasks(ToTasks(items), ts, inventory, cargo)
  }

  lemma {:induction false} ResolvedKeeps(items: seq<Item>, ts: seq<TsUnit>, inventory: seq<CargoUnit>, cargo: CargoSelection, docsOnly: bool, i: nat)
    requires i < |items| && !BuildsNative(items[i].key)
    ensures ToTasks(items)[i] in Resolve(items, ts, inventory, cargo, docsOnly)
  {
    hide Render, NativeBuildKey, NeedsProducer, CargoTasks, TsTasks;
    var tasks, plan := ToTasks(items), Resolve(items, ts, inventory, cargo, docsOnly);
    NativeAgrees(items[i].key);
    if docsOnly {
      assert plan[i] == tasks[i];
    } else {
      var kept := WithoutNative(tasks);
      assert tasks[i] in tasks && NotNative(tasks[i]);
      var j :| 0 <= j < |kept| && kept[j] == tasks[i];
      assert plan[j] == kept[j];
    }
  }

  /** No changed package test that exists is left out of the resolved plan. */
  lemma {:induction false} ResolvedCovers(s: Scope, paths: seq<string>, items: seq<Item>, ts: seq<TsUnit>, inventory: seq<CargoUnit>, cargo: CargoSelection, docsOnly: bool)
    requires KeySet(items) == PlanKeys(s, paths)
    ensures NoneOmitted(paths, Resolve(items, ts, inventory, cargo, docsOnly), p => PackageTestExists(p, s.tables.present))
  {
    hide PlanKeys, Resolve, PackageTest, PackageTestExists;
    forall k | 0 <= k < |paths| && PackageTestExists(paths[k], s.tables.present)
      ensures HasKey(Resolve(items, ts, inventory, cargo, docsOnly), "test:" + paths[k])
    {
      NoTestOmitted(s, paths, paths[k]);
      assert Test(paths[k]) in KeySet(items);
      var i :| 0 <= i < |items| && items[i].key == Test(paths[k]);
      ResolvedKeeps(items, ts, inventory, cargo, docsOnly, i);
      var plan := Resolve(items, ts, inventory, cargo, docsOnly);
      var j :| 0 <= j < |plan| && plan[j] == ToTasks(items)[i];
      assert plan[j].key == "test:" + paths[k];
    }
  }

  lemma {:induction false} ResolvedIsDistinct(items: seq<Item>, packages: seq<AffectedPaths.Workspace>, ts: seq<TsUnit>, inventory: seq<CargoUnit>, cargo: CargoSelection, docsOnly: bool)
    requires PlannerItems(items, packages) && UniqueTs(ts) && (cargo.Units? ==> UniqueCargo(cargo.units))
    ensures Distinct(Resolve(items, ts, inventory, cargo, docsOnly)) && Identified(Resolve(items, ts, inventory, cargo, docsOnly))
  {
    if docsOnly {
      PlannerTasksAreDistinct(items, packages);
    } else {
      PlanIsDistinct(items, packages, ts, inventory, cargo);
    }
    ResolvedIsIdentified(items, ts, inventory, cargo, docsOnly);
  }

  lemma {:induction false} ResolvedIsIdentified(items: seq<Item>, ts: seq<TsUnit>, inventory: seq<CargoUnit>, cargo: CargoSelection, docsOnly: bool)
    ensures Identified(Resolve(items, ts, inventory, cargo, docsOnly))
  {
    hide Field, Render, NeedsProducer, NativeBuildKey;
    var plan, kept := Resolve(items, ts, inventory, cargo, docsOnly), WithoutNative(ToTasks(items));
    forall i | 0 <= i < |plan|
      ensures Identity(plan[i]) != ""
    {
      if !docsOnly && i < |kept| { assert kept[i] in kept; }
    }
  }

  lemma {:induction false} ContainsFirst(s: string, part: string)
    requires Contains(s, part) && part != ""
    ensures part[0] in s
  {
    if StartsWith(s, part) {
      assert s[..|part|][0] == s[0];
    } else {
      ContainsFirst(s[1..], part);
    }
  }

  lemma {:induction false} PlainDirIsSafe(a: string, b: string)
    requires a != "" && b != "" && '/' !in a && '/' !in b && '.' !in a && '.' !in b && '\\' !in a && '\\' !in b
    ensures SafeCwd(Some(a + "/" + b))
  {
    var v := a + "/" + b;
    assert '\\' !in v && '.' !in v && v[0] == a[0];
    if StartsWith(v, "./") { FirstChar(v, "./"); }
    if Contains(v, "../") { ContainsFirst(v, "../"); }
    assert v == a + ['/'] + b;
    SplitAppend(a, b, '/');
    SplitAppend(b, "", '/');
  }

  predicate SafeDir(dir: string) {
    SafeCwd(Some(RelativeCwd(Some(dir))))
  }

  lemma {:induction false} CodingAgentIsSafe()
    ensures SafeDir(CODING_AGENT_DIR)
  {
    PlainDirIsSafe("packages", "coding-agent");
    hide UnsafeInventoryPath;
  }

  lemma {:induction false} RootIsSafe()
    ensures SafeDir("")
  {
  }

  // ---- Directories ----

  /** Some planner task runs in the package's directory. */
  predicate OwnsTask(items: seq<Item>, w: AffectedPaths.Workspace) {
    exists i | 0 <= i < |items| :: items[i].cwd == Some(w.dir)
  }

  /** Safe directories wherever a package or a TypeScript unit gets a task of its own. */
  predicate DirsAreSafe(items: seq<Item>, packages: seq<AffectedPaths.Workspace>, ts: seq<TsUnit>, docsOnly: bool) {
    && (forall i | 0 <= i < |packages| && OwnsTask(items, packages[i]) :: SafeDir(packages[i].dir))
    && (docsOnly || forall i | 0 <= i < |ts| :: SafeDir(ts[i].dir))
  }

  /** A task of its own is the check or the test suite of a package in that directory, or the isolated host test. */
  lemma {:induction false} OwnTaskIsDemanded(items: seq<Item>, packages: seq<AffectedPaths.Workspace>, w: AffectedPaths.Workspace)
    requires PlannerItems(items, packages) && OwnsTask(items, w)
    ensures || (w.dir == CODING_AGENT_DIR && SdkHostKey() in KeySet(items))
            || exists j | 0 <= j < |packages| :: packages[j].dir == w.dir
                 && (Check(packages[j].name) in KeySet(items) || Test(packages[j].name) in KeySet(items))
  {
    hide SdkHostKey;
    var i :| 0 <= i < |items| && items[i].cwd == Some(w.dir);
    assert Housed(items[i], packages) && items[i].key in KeySet(items);
    if j :| 0 <= j < |packages| && RunsIn(items[i], packages[j]) { assert packages[j].dir == w.dir; }
  }

  /** A demanded check of a package whose name no other package bears is a task of its own. */
  lemma {:induction false} DemandedCheckOwnsTask(items: seq<Item>, packages: seq<AffectedPaths.Workspace>, i: nat)
    requires PlannerItems(items, packages) && i < |packages| && Check(packages[i].name) in KeySet(items)
    requires forall j | 0 <= j < |packages| && packages[j].name == packages[i].name :: j == i
    ensures OwnsTask(items, packages[i])
  {
    var k :| 0 <= k < |items| && items[k].key == Check(packages[i].name);
    assert Housed(items[k], packages);
  }

  lemma {:induction false} ItemIsPlaced(t: Item, items: seq<Item>, packages: seq<AffectedPaths.Workspace>)
    requires t in items && Housed(t, packages)
    requires forall i | 0 <= i < |packages| && OwnsTask(items, packages[i]) :: SafeDir(packages[i].dir)
    ensures SafeCwd(Some(RelativeCwd(t.cwd)))
  {
    CodingAgentIsSafe();
    RootIsSafe();
    hide UnsafeInventoryPath, SdkHostKey;
    var k :| 0 <= k < |items| && items[k] == t;
    if t.cwd.Some? && t.cwd.value != CODING_AGENT_DIR {
      var i :| 0 <= i < |packages| && RunsIn(t, packages[i]);
      assert items[k].cwd == Some(packages[i].dir);
      assert OwnsTask(items, packages[i]);
    }
  }

  lemma {:induction false} BuildsArePlaced(needed: bool, ts: seq<TsUnit>, cargo: CargoSelection)
    requires forall i | 0 <= i < |ts| :: SafeDir(ts[i].dir)
    ensures Placed(Producer(needed)) && Placed(TsTasks(ts)) && Placed(CargoTasks(cargo))
  {
    RootIsSafe();
    hide UnsafeInventoryPath, Stable;
  }

  lemma {:induction false} SafeDirsPlace(items: seq<Item>, packages: seq<AffectedPaths.Workspace>, ts: seq<TsUnit>, inventory: seq<CargoUnit>, cargo: CargoSelection, docsOnly: bool)
    requires PlannerItems(items, packages) && DirsAreSafe(items, packages, ts, docsOnly)
    ensures Placed(Resolve(items, ts, inventory, cargo, docsOnly))
  {
    var tasks := ToTasks(items);
    forall t | t in tasks
      ensures SafeCwd(Some(RelativeCwd(t.cwd)))
    {
      var i :| 0 <= i < |tasks| && tasks[i] == t;
      ItemIsPlaced(items[i], items, packages);
    }
    KeptIsPlaced(tasks);
    if !docsOnly {
      var kept, needed := WithoutNative(tasks), NeedsProducer(tasks, ts, inventory, CargoTasks(cargo));
      BuildsArePlaced(needed, ts, cargo);
      hide Placed, WithoutNative, NeedsProducer, ToTasks, PlannerItems, DirsAreSafe, SafeCwd;
      PlacedAppend(kept, Producer(needed));
      PlacedAppend(kept + Producer(needed), TsTasks(ts));
      PlacedAppend(kept + Producer(needed) + TsTasks(ts), CargoTasks(cargo));
    }
  }

  lemma {:induction false} PlacedAppend(a: seq<Task>, b: seq<Task>)
    requires Placed(a) && Placed(b)
    ensures Placed(a + b)
  {
    hide SafeCwd;
  }

  lemma {:induction false} KeptIsPlaced(ts: seq<Task>)
    requires forall t | t in ts :: SafeCwd(Some(RelativeCwd(t.cwd)))
    ensures Placed(ts) && Placed(WithoutNative(ts))
  {
    hide SafeCwd;
    forall i | 0 <= i < |WithoutNative(ts)|
      ensures SafeCwd(Some(RelativeCwd(WithoutNative(ts)[i].cwd)))
    {
      KeptIsNotNative(ts, i);
    }
  }

  lemma {:induction false} PlacedMember(plan: seq<Task>, t: Task)
    requires Placed(plan) && t in plan
    ensures SafeCwd(Some(RelativeCwd(t.cwd)))
  {
    hide SafeCwd;
  }

  lemma {:induction false} TsTaskIsPlanned(items: seq<Item>, ts: seq<TsUnit>, inventory: seq<CargoUnit>, cargo: CargoSelection, i: nat)
    requires i < |ts|
    ensures TsTask(ts[i]) in Resolve(items, ts, inventory, cargo, false)
  {
    hide TsTask, NeedsProducer, CargoTasks, ToTasks, WithoutNative;
    var tasks := ToTasks(items);
    var front := WithoutNative(tasks) + Producer(NeedsProducer(tasks, ts, inventory, CargoTasks(cargo)));
    assert (front + TsTasks(ts) + CargoTasks(cargo))[|front| + i] == TsTask(ts[i]);
  }

  lemma {:induction false} PlacedMeansSafeDirs(items: seq<Item>, packages: seq<AffectedPaths.Workspace>, ts: seq<TsUnit>, inventory: seq<CargoUnit>, cargo: CargoSelection, docsOnly: bool)
    requires PlannerItems(items, packages) && Placed(Resolve(items, ts, inventory, cargo, docsOnly))
    ensures DirsAreSafe(items, packages, ts, docsOnly)
  {
    hide UnsafeInventoryPath, Resolve, Placed, SdkHostKey, Stable;
    var plan := Resolve(items, ts, inventory, cargo, docsOnly);
    forall w | OwnsTask(items, w)
      ensures SafeDir(w.dir)
    {
      var k :| 0 <= k < |items| && items[k].cwd == Some(w.dir);
      assert Housed(items[k], packages) && !BuildsNative(items[k].key);
      ResolvedKeeps(items, ts, inventory, cargo, docsOnly, k);
      PlacedMember(plan, ToTasks(items)[k]);
    }
    if !docsOnly {
      forall i | 0 <= i < |ts|
        ensures SafeDir(ts[i].dir)
      {
        TsTaskIsPlanned(items, ts, inventory, cargo, i);
        PlacedMember(plan, TsTask(ts[i]));
      }
    }
  }

  /** The loader finds every directory safe exactly when the packages and units with tasks of their own are safe. */
  lemma {:induction false} ResolvedIsPlacedIff(items: seq<Item>, packages: seq<AffectedPaths.Workspace>, ts: seq<TsUnit>, inventory: seq<CargoUnit>, cargo: CargoSelection, docsOnly: bool)
    requires PlannerItems(items, packages)
    ensures Placed(Resolve(items, ts, inventory, cargo, docsOnly)) <==> DirsAreSafe(items, packages, ts, docsOnly)
  {
    hide Placed, DirsAreSafe, PlannerItems, Resolve;
    if DirsAreSafe(items, packages, ts, docsOnly) { SafeDirsPlace(items, packages, ts, inventory, cargo, docsOnly); }
    if Placed(Resolve(items, ts, inventory, cargo, docsOnly)) { PlacedMeansSafeDirs(items, packages, ts, inventory, cargo, docsOnly); }
  }

  // ---- Matrix keys ----

  lemma {:induction false} GraphicAppend(a: string, b: string)
    requires Graphic(a) && Graphic(b)
    ensures Graphic(a + b)
  {
  }

  lemma {:induction false} GraphicIsTrimmed(s: string)
    requires s != "" && Graphic(s)
    ensures Trim(s) == s
  {
    GraphicIsNotSpace(s[0]);
    GraphicIsNotSpace(s[|s| - 1]);
    hide IsSpace;
    TrimmedIsFixed(s);
  }

  lemma {:induction false} StableIsGraphic(domain: string, id: string, location: string)
    requires Graphic(domain)
    ensures Graphic(Stable(domain, id, location))
  {
    hide Field;
    GraphicAppend(domain, ":");
    GraphicAppend(domain + ":", Field(id));
    GraphicAppend(domain + ":" + Field(id), ":");
    GraphicAppend(domain + ":" + Field(id) + ":", Field(location));
  }

  lemma {:induction false} FixedBuildKeys()
    ensures Trim(NATIVE_PRODUCER.key) == NATIVE_PRODUCER.key && Trim(EMERGENCY.key) == EMERGENCY.key
  {
    hide Trim, IsSpace;
    assert Graphic("native-linux-x64") && Graphic("cargo-build:") && Graphic("emergency:workspace");
    hide Graphic;
    GraphicAppend("cargo-build:", "emergency:workspace");
    GraphicIsTrimmed("native-linux-x64");
    GraphicIsTrimmed("cargo-build:" + "emergency:workspace");
  }

  lemma {:induction false} IdentityKeyIsTrimmed(prefix: string, domain: string, id: string, location: string)
    requires Graphic(prefix) && Graphic(domain)
    ensures Trim(prefix + Stable(domain, id, location)) == prefix + Stable(domain, id, location)
  {
    StableIsGraphic(domain, id, location);
    hide Trim, Field;
    GraphicAppend(prefix, Stable(domain, id, location));
    GraphicIsTrimmed(prefix + Stable(domain, id, location));
  }

  lemma {:induction false} BuildKeysAreTrimmed(needed: bool, ts: seq<TsUnit>, cargo: CargoSelection, t: Task)
    requires t in Producer(needed) || t in TsTasks(ts) || t in CargoTasks(cargo)
    ensures Trim(t.key) == t.key && KeyClass(t.key) != 0
  {
    hide Trim, Stable, KeyClass, DomainClass, Identity, Domain;
    FixedBuildKeys();
    assert Graphic("ts-build:") && Graphic("cargo-build:") && Graphic("ts") && Graphic("cargo");
    hide Graphic;
    if t in Producer(needed) {
      ProducerClass();
    } else if t in TsTasks(ts) {
      var i :| 0 <= i < |ts| && TsTasks(ts)[i] == t;
      TsClass(ts[i]);
      IdentityKeyIsTrimmed("ts-build:", "ts", ts[i].id, ts[i].dir);
    } else {
      match cargo
      case Workspace => EmergencyClass();
      case Units(us) =>
        var i :| 0 <= i < |us| && CargoTask(us[i]) == t;
        CargoClass(us[i]);
        IdentityKeyIsTrimmed("cargo-build:", "cargo", us[i].id, us[i].manifestPath);
    }
  }

  /** A task of the plan is the planner's own or a build task. */
  lemma {:induction false} PlannedOrBuilt(items: seq<Item>, ts: seq<TsUnit>, inventory: seq<CargoUnit>, cargo: CargoSelection, docsOnly: bool, t: Task)
    requires t in Resolve(items, ts, inventory, cargo, docsOnly)
    ensures t in ToTasks(items) || (Trim(t.key) == t.key && KeyClass(t.key) != 0)
  {
    hide Trim, KeyClass, NeedsProducer, ToTasks, TsTasks, CargoTasks;
    if !docsOnly && t !in ToTasks(items) {
      var tasks := ToTasks(items);
      var needed := NeedsProducer(tasks, ts, inventory, CargoTasks(cargo));
      BuildKeysAreTrimmed(needed, ts, cargo, t);
    }
  }

  lemma {:induction false} FixedKeyIsTrimmed(kind: PlannerKeys.Kind)
    ensures Trim(Render(Fixed(kind))) == Render(Fixed(kind))
  {
    var key := PlannerKeys.Text(kind);
    TextShape(kind);
    TextEnds(kind);
    GraphicIsNotSpace(key[0]);
    GraphicIsNotSpace(key[|key| - 1]);
    hide IsSpace;
    TrimmedIsFixed(key);
  }

  /** Trimming a planner key leaves a key that is no build task's, and never nothing. */
  lemma {:induction false} TrimmedKeyClass(k: Key)
    ensures Trim(Render(k)) != "" && (Trim(Render(k)) == Render(k) || KeyClass(Trim(Render(k))) == 0)
  {
    var key := Render(k);
    PrefixShape(k);
    if k.Fixed? {
      FixedKeyIsTrimmed(k.kind);
      TextShape(k.kind);
    } else {
      GraphicIsNotSpace(key[0]);
      GraphicIsNotSpace(key[1]);
      hide IsSpace, Trim, Render;
      TrimKeepsFront(key, 1);
      assert Trim(key)[0] == key[0] && Trim(key)[1] == key[1];
    }
  }

  /** A planner task with the trimmed key and the shard's flags. */
  predicate Twin(items: seq<Item>, shard: Shard) {
    exists i | 0 <= i < |items| :: Render(items[i].key) == Trim(shard.key) && FlagsAgree(ToTasks(items)[i], shard)
  }

  /** The key survives the loader's trimming, or trimming turns it into the key of a task with the same flags. */
  predicate KeyIsFound(items: seq<Item>, shard: Shard) {
    Trim(shard.key) == shard.key || Twin(items, shard)
  }

  lemma {:induction false} OwnFlags(t: Task)
    ensures FlagsAgree(t, ShardOf(t)) && ShardOf(t).key == t.key
  {
  }

  /** With distinct keys, agreeing is finding a task with the trimmed key and the flags. */
  lemma {:induction false} AgreesIff(plan: seq<Task>, shard: Shard)
    requires DistinctKeys(plan)
    ensures ShardAgrees(plan, shard) <==> exists t | t in plan :: t.key == Trim(shard.key) && FlagsAgree(t, shard)
  {
    hide Trim, FlagsAgree;
    if t :| t in plan && t.key == Trim(shard.key) && FlagsAgree(t, shard) {
      var i :| 0 <= i < |plan| && plan[i] == t;
      assert plan[i].key == Trim(shard.key);
    }
  }

  lemma {:induction false} TwinIsPlanned(items: seq<Item>, ts: seq<TsUnit>, inventory: seq<CargoUnit>, cargo: CargoSelection, docsOnly: bool, t: Task)
    requires t in ToTasks(items) && KeyClass(t.key) == 0
    ensures t in Resolve(items, ts, inventory, cargo, docsOnly)
  {
    var i :| 0 <= i < |items| && ToTasks(items)[i] == t;
    RenderClass(items[i].key);
    hide KeyClass, Render, Resolve;
    ResolvedKeeps(items, ts, inventory, cargo, docsOnly, i);
  }

  /** For a shard started from the plan itself. */
  lemma {:induction false} ShardIsFoundIff(items: seq<Item>, ts: seq<TsUnit>, inventory: seq<CargoUnit>, cargo: CargoSelection, docsOnly: bool, plan: seq<Task>, t: Task)
    requires plan == Resolve(items, ts, inventory, cargo, docsOnly) && DistinctKeys(plan) && t in plan
    ensures MatrixAgrees(plan, Some(ShardOf(t))) <==> KeyIsFound(items, ShardOf(t))
  {
    hide Trim, KeyClass, FlagsAgree, ShardAgrees, Resolve, DistinctKeys, ShardOf, Render;
    var shard := ShardOf(t);
    OwnFlags(t);
    AgreesIff(plan, shard);
    if Trim(t.key) == t.key {
      assert t in plan && t.key == Trim(shard.key);
    } else {
      PlannedOrBuilt(items, ts, inventory, cargo, docsOnly, t);
      var i :| 0 <= i < |items| && ToTasks(items)[i] == t;
      TrimmedKeyClass(items[i].key);
      if ShardAgrees(plan, shard) {
        var u :| u in plan && u.key == Trim(shard.key) && FlagsAgree(u, shard);
        PlannedOrBuilt(items, ts, inventory, cargo, docsOnly, u);
        var j :| 0 <= j < |items| && ToTasks(items)[j] == u;
        assert Twin(items, shard);
      }
      if Twin(items, shard) {
        var j :| 0 <= j < |items| && Render(items[j].key) == Trim(shard.key) && FlagsAgree(ToTasks(items)[j], shard);
        TwinIsPlanned(items, ts, inventory, cargo, docsOnly, ToTasks(items)[j]);
      }
    }
  }

  // ---- The emitted plan ----

  ghost predicate FromPlan(plan: seq<Task>, shard: Option<Shard>) {
    shard.None? || exists t | t in plan :: shard == Some(ShardOf(t))
  }

  /**
   * The loader accepts the emitted plan, without a matrix key or for any shard started from it, exactly when
   * no reported path was a "./" before white space, every package and TypeScript unit with a task of its own
   * sits in a safe directory, and the shard's key is found after trimming.
   */
  lemma {:induction false} EmittedPlanIsAcceptedIff(s: Scope, raw: seq<string>, paths: seq<string>, items: seq<Item>, ts: seq<TsUnit>,
                                 inventory: seq<CargoUnit>, cargo: CargoSelection, docsOnly: bool, plan: seq<Task>, shard: Option<Shard>)
    requires AllSafe(CleanAll(raw)) && paths == Canonical(raw) && AllSafe(CleanAll(paths))
    requires PlannerItems(items, s.packages) && KeySet(items) == PlanKeys(s, Canonical(paths))
    requires UniqueTs(ts) && (cargo.Units? ==> UniqueCargo(cargo.units))
    requires plan == Resolve(items, ts, inventory, cargo, docsOnly) && FromPlan(plan, shard)
    ensures Accepts(true, paths, plan, p => PackageTestExists(p, s.tables.present), shard)
            <==> && (forall i | 0 <= i < |raw| :: !DotThenSpace(raw[i]))
                 && DirsAreSafe(items, s.packages, ts, docsOnly)
                 && (shard.Some? ==> KeyIsFound(items, shard.value))
  {
    var exist := p => PackageTestExists(p, s.tables.present);
    CanonicalIsStableIff(raw, paths);
    ResolvedIsDistinct(items, s.packages, ts, inventory, cargo, docsOnly);
    ResolvedIsPlacedIff(items, s.packages, ts, inventory, cargo, docsOnly);
    AcceptsIff(true, paths, plan, exist, shard);
    if CanonicalPaths(paths) { ResolvedCovers(s, paths, items, ts, inventory, cargo, docsOnly); }
    hide Accepts, Placed, DirsAreSafe, NoneOmitted, DistinctKeys, DistinctIdentities, MatrixAgrees, KeyIsFound, PlannerItems, PlanKeys, Resolve, Identified;
    hide CleanAll, Canonical, DotThenSpace;
    if shard.Some? {
      var t :| t in plan && shard == Some(ShardOf(t));
      ShardIsFoundIff(items, ts, inventory, cargo, docsOnly, plan, t);
    } else {
      NoShardAgrees(plan);
    }
  }

  lemma {:induction false} NoShardAgrees(plan: seq<Task>)
    ensures MatrixAgrees(plan, None)
  {
  }

  // ---- A package name the loader cannot find again ----

  /** A test of a package in directory packages/a. */
  const CHANGED_TEST := "packages" + "/a/x.test.ts"

  lemma {:induction false} ChangedTestIsTest()
    ensures PackageTest(CHANGED_TEST) && Inside(CHANGED_TEST, "packages" + "/a")
  {
    var p := CHANGED_TEST;
    assert p[..9] == "packages/" && p[|p| - 8..] == ".test.ts" && p[..11] == "packages" + "/a" + "/";
    if Contains(p, "node_modules/") { ContainsFirst(p, "node_modules/"); }
  }

  lemma {:induction false} ChangedTestIsClean()
    ensures Clean(CHANGED_TEST) == CHANGED_TEST
  {
    var p := CHANGED_TEST;
    GraphicIsNotSpace(p[0]);
    GraphicIsNotSpace(p[|p| - 1]);
    hide IsSpace, Trim;
    TrimmedIsFixed(p);
    assert '\\' !in p;
    CleanOfPlain(p);
  }

  lemma {:induction false} SpacedKeyTrims()
    ensures Trim("check:" + "a ") == "check:" + "a" && "check:" + "a " != "check:" + "a"
  {
    SpacesAreBlank();
    GraphicIsNotSpace('c');
    GraphicIsNotSpace('a');
    assert "" + ("check:" + "a") + " " == "check:" + "a ";
    hide IsSpace, Blank, Trim;
    TrimIs("", "check:" + "a", " ");
  }

  lemma {:induction false} CheckIsDemanded(s: Scope, paths: seq<string>, p: string)
    requires p in paths && PackageTest(p) && |s.packages| == 1 && s.packages[0].hasCheck && Inside(p, s.packages[0].dir)
    ensures Check(s.packages[0].name) in PlanKeys(s, paths)
  {
    PackageTestIsMapped(p);
    assert p in RelevantPaths(paths);
    PathKeysIncluded(s, RelevantPaths(paths), p);
    hide PackageTest, Relevant, RelevantPaths, PathsKeys, DocsKeys, FullKeys, LateKeys;
    assert Owner(p, s.packages) == Some(s.packages[0]);
    assert Check(s.packages[0].name) in CheckKeys(s, p);
    hide AiKeys, ContractKeys, TestKeys, CheckKeys, FallbackKeys, MappedTests, FullWorkspace, Workflow, CiHarness, Rust, Install;
    assert Check(s.packages[0].name) in PathKeys(s, p);
  }

  /** The check of a package named "a " is planned, and its own shard refuses the plan. */
  lemma {:induction false} SpacedNameIsRefused(s: Scope, raw: seq<string>, paths: seq<string>, items: seq<Item>, ts: seq<TsUnit>,
                                               inventory: seq<CargoUnit>, cargo: CargoSelection, docsOnly: bool, plan: seq<Task>)
    requires s.packages == [AffectedPaths.Workspace("a ", "packages" + "/a", true, false)]
    requires raw == [CHANGED_TEST] && AllSafe(CleanAll(raw)) && paths == Canonical(raw) && AllSafe(CleanAll(paths))
    requires PlannerItems(items, s.packages) && KeySet(items) == PlanKeys(s, Canonical(paths))
    requires UniqueTs(ts) && (cargo.Units? ==> UniqueCargo(cargo.units))
    requires plan == Resolve(items, ts, inventory, cargo, docsOnly)
    ensures exists t | t in plan ::
              t.key == "check:" + "a " && !Accepts(true, paths, plan, p => PackageTestExists(p, s.tables.present), Some(ShardOf(t)))
  {
    hide *;
    ChangedTestIsTest();
    ChangedTestIsReported(raw, paths);
    assert |s.packages| == 1 && s.packages[0].dir == "packages" + "/a" && s.packages[0].name == "a ";
    CheckIsDemanded(s, Canonical(paths), CHANGED_TEST);
    var t := CheckTask(items, "a ");
    PlannedCheck(items, ts, inventory, cargo, docsOnly, t);
    OwnFlags(t);
    NoTwin(items, s.packages, ShardOf(t));
    StartedFrom(plan, t);
    EmittedPlanIsAcceptedIff(s, raw, paths, items, ts, inventory, cargo, docsOnly, plan, Some(ShardOf(t)));
  }

  lemma {:induction false} ChangedTestIsReported(raw: seq<string>, paths: seq<string>)
    requires raw == [CHANGED_TEST] && paths == Canonical(raw)
    ensures CHANGED_TEST in Canonical(paths)
  {
    ChangedTestIsClean();
    hide Clean, Canonical;
    CanonicalMembers(raw);
    assert Clean(raw[0]) in paths;
    var i :| 0 <= i < |paths| && paths[i] == Clean(raw[0]);
    CanonicalMembers(paths);
  }

  lemma {:induction false} CheckTask(items: seq<Item>, name: string) returns (t: Task)
    requires Check(name) in KeySet(items)
    ensures t in ToTasks(items) && t.key == "check:" + name
  {
    var k :| 0 <= k < |items| && items[k].key == Check(name);
    t := ToTasks(items)[k];
  }

  lemma {:induction false} PlannedCheck(items: seq<Item>, ts: seq<TsUnit>, inventory: seq<CargoUnit>, cargo: CargoSelection, docsOnly: bool, t: Task)
    requires t in ToTasks(items) && t.key == "check:" + "a "
    ensures t in Resolve(items, ts, inventory, cargo, docsOnly)
  {
    RenderClass(Check("a "));
    hide KeyClass, Resolve;
    TwinIsPlanned(items, ts, inventory, cargo, docsOnly, t);
  }

  lemma {:induction false} StartedFrom(plan: seq<Task>, t: Task)
    requires t in plan
    ensures FromPlan(plan, Some(ShardOf(t)))
  {
  }

  lemma {:induction false} NoTwin(items: seq<Item>, packages: seq<AffectedPaths.Workspace>, shard: Shard)
    requires PlannerItems(items, packages) && shard.key == "check:" + "a " && forall i | 0 <= i < |packages| :: packages[i].name != "a"
    ensures !KeyIsFound(items, shard)
  {
    SpacedKeyTrims();
    hide Trim, FlagsAgree, SdkHostKey;
    forall i | 0 <= i < |items|
      ensures Render(items[i].key) != "check:" + "a"
    {
      assert Housed(items[i], packages);
      assert items[i].key != Check("a");
      if Render(items[i].key) == "check:" + "a" { RenderIsInjective(items[i].key, Check("a")); }
    }
  }
}
