/** Planned CI tasks: matrix descriptors, the stored plan, and the loader that re-validates it. */
module AffectedTasks {
  import opened ChangedPaths
  import opened ChangelogLines
  import opened TaskIdentity
  import opened Text
  import opened Whitespace
  import opened Wrappers

  datatype Capabilities = Capabilities(rust: bool, nextest: bool, nativeConsumer: bool, nativeProducer: bool)
  datatype Phase = Legacy | NativeProducer | TsBuild | CargoBuild | Python

  /** `cwd` is relative to the repository root. */
  datatype Task = Task(key: string, identity: Option<string>, cwd: Option<string>, capabilities: Option<Capabilities>, phase: Option<Phase>)

  // ---- What a key alone says ----

  predicate NativeBuildKey(key: string) {
    key == "native-build" || key == "native-linux-x64"
  }

  predicate NeedsNative(key: string) {
    || key == "python-test" || key == "root-test" || key == "root-test:release" || key == "release-publish-contract"
    || key == "root-check" || key == "check:" + "@gajae-code/coding-agent" || key == "cli-smoke" || key == "runtime-check"
    || key == "wrapper-version" || key == "deep-interview-definitions" || key == "deep-interview-runtime"
    || key == "sdk-package-smoke" || StartsWith(key, "test:")
  }

  predicate RustTestKey(key: string) {
    key == "rust-test" || StartsWith(key, "rust-test:partition-")
  }

  const OWNER_SESSION_TEST := "packages/coding-agent/test/tools/bash-master-owner-session-id.test.ts"
  const NATIVE_TASK_PANIC_TEST := "packages/natives/test/task-panic-to-rejection.test.ts"

  predicate NeedsRust(key: string) {
    || key == "rust-check" || RustTestKey(key) || key == "ci-selftest" || key == "ci-dry-run"
    || key == "affected-selftest" || key == "affected-dry-run"
    || key == "test:" + OWNER_SESSION_TEST || key == "test:" + NATIVE_TASK_PANIC_TEST
  }

  function CapabilitiesOf(t: Task): Capabilities {
    match t.capabilities
    case Some(c) => c
    case None => Capabilities(NeedsRust(t.key), RustTestKey(t.key), NeedsNative(t.key), NativeBuildKey(t.key))
  }

  function RelativeCwd(cwd: Option<string>): string {
    if cwd.None? || cwd.value == "" then "." else cwd.value
  }

  function Identity(t: Task): string {
    match t.identity
    case Some(i) => i
    case None => Stable("legacy", t.key, RelativeCwd(t.cwd))
  }

  // ---- The matrix entry and the stored form ----

  datatype Entry = Entry(key: string, identity: string, native: bool, rust: bool, nextest: bool, nativeBuild: bool)

  function Describe(t: Task): Entry {
    Entry(t.key, Identity(t),
          match t.capabilities case Some(c) => c.nativeConsumer case None => NeedsNative(t.key),
          match t.capabilities case Some(c) => c.rust case None => NeedsRust(t.key),
          match t.capabilities case Some(c) => c.nextest case None => RustTestKey(t.key),
          match t.capabilities case Some(c) => c.nativeProducer case None => NativeBuildKey(t.key))
  }

  datatype Stored = Stored(key: string, identity: string, cwd: Option<string>, capabilities: Capabilities, phase: Phase)

  function Serialize(t: Task): Stored {
    Stored(t.key, Identity(t), Some(RelativeCwd(t.cwd)), CapabilitiesOf(t), if t.phase.Some? then t.phase.value else Legacy)
  }

  function SerializeAll(ts: seq<Task>): (r: seq<Stored>)
    ensures |r| == |ts| && forall i | 0 <= i < |r| :: r[i] == Serialize(ts[i])
  {
    seq(|ts|, i requires 0 <= i < |ts| => Serialize(ts[i]))
  }

  // ---- Loading ----

  datatype LoadError = NotCanonical | MissingIdentity | UnsafeCwd | Duplicate | Omitted | MatrixMismatch

  /** What normalizeInventoryPath refuses. */
  predicate UnsafeInventoryPath(value: string) {
    var n := StripDot(Slashes(value));
    || n == "" || n[0] == '/' || Contains(n, "../")
    || exists i | 0 <= i < |Split(n, '/')| :: Split(n, '/')[i] == "" || Split(n, '/')[i] == "."
  }

  predicate SafeCwd(cwd: Option<string>) {
    cwd.None? || cwd.value == "." || !UnsafeInventoryPath(cwd.value)
  }

  function Deserialize(s: Stored): Result<Task, LoadError> {
    if s.identity == "" then Err(MissingIdentity)
    else if !SafeCwd(s.cwd) then Err(UnsafeCwd)
    else Ok(Task(s.key, Some(s.identity), s.cwd, Some(s.capabilities), Some(s.phase)))
  }

  predicate DistinctKeys(ts: seq<Task>) {
    forall i, j | 0 <= i < j < |ts| :: ts[i].key != ts[j].key
  }

  predicate DistinctIdentities(ts: seq<Task>) {
    forall i, j | 0 <= i < j < |ts| :: Identity(ts[i]) != Identity(ts[j])
  }

  predicate HasKey(ts: seq<Task>, key: string) {
    exists i | 0 <= i < |ts| :: ts[i].key == key
  }

  // ---- Package tests ----

  predicate EndsWith(s: string, suffix: string) {
    |suffix| <= |s| && s[|s| - |suffix|..] == suffix
  }

  predicate TestFile(path: string) {
    EndsWith(path, ".test.ts") || EndsWith(path, ".test.tsx")
  }

  predicate PackageTest(path: string) {
    StartsWith(path, "packages/") && !Contains(path, "node_modules/") && TestFile(path)
  }

  /** No existing changed package test is without its own task. */
  predicate NoneOmitted(paths: seq<string>, ts: seq<Task>, exist: string -> bool) {
    forall i | 0 <= i < |paths| :: PackageTest(paths[i]) && exist(paths[i]) ==> HasKey(ts, "test:" + paths[i])
  }

  /** One shard's view of the matrix: its key and the flags it was started with. */
  datatype Shard = Shard(key: string, rust: bool, nextest: bool, native: bool)

  predicate FlagsAgree(t: Task, shard: Shard) {
    var c := CapabilitiesOf(t);
    c.rust == shard.rust && c.nextest == shard.nextest && c.nativeConsumer == shard.native
  }

  /** The first task with the key, which the loader trims, has the flags. */
  predicate ShardAgrees(ts: seq<Task>, shard: Shard) {
    exists i | 0 <= i < |ts| ::
      && ts[i].key == Trim(shard.key) && (forall j | 0 <= j < i :: ts[j].key != Trim(shard.key))
      && FlagsAgree(ts[i], shard)
  }

  /** A load without a matrix key, or with a blank one, checks no flags. */
  predicate MatrixAgrees(ts: seq<Task>, shard: Option<Shard>) {
    shard.None? || Trim(shard.value.key) == "" || ShardAgrees(ts, shard.value)
  }

  predicate Loadable(stored: seq<Stored>) {
    forall i | 0 <= i < |stored| :: Deserialize(stored[i]).Ok?
  }

  function Loaded(stored: seq<Stored>): (ts: seq<Task>)
    requires Loadable(stored)
    ensures |ts| == |stored| && forall i | 0 <= i < |stored| :: ts[i] == Deserialize(stored[i]).value
  {
    seq(|stored|, i requires 0 <= i < |stored| => Deserialize(stored[i]).value)
  }

  method DeserializeAll(stored: seq<Stored>) returns (r: Result<seq<Task>, LoadError>)
    ensures r.Ok? <==> Loadable(stored)
    ensures r.Ok? ==> r.value == Loaded(stored)
    ensures r.Err? ==> exists i | 0 <= i < |stored| :: Deserialize(stored[i]) == Err(r.error) && Loadable(stored[..i])
  {
    var tasks := [];
    for i := 0 to |stored|
      invariant |tasks| == i && forall j | 0 <= j < i :: Deserialize(stored[j]) == Ok(tasks[j])
    {
      var task := Deserialize(stored[i]);
      if task.Err? {
        return Err(task.error);
      }
      tasks := tasks + [task.value];
    }
    return Ok(tasks);
  }

  predicate CanonicalPaths(paths: seq<string>) {
    AllSafe(CleanAll(paths)) && Canonical(paths) == paths
  }

  /** The checks on a plan's tasks. */
  predicate Consistent(pr: bool, paths: seq<string>, ts: seq<Task>, exist: string -> bool, shard: Option<Shard>) {
    && DistinctKeys(ts) && DistinctIdentities(ts) && (pr ==> NoneOmitted(paths, ts, exist))
    && MatrixAgrees(ts, shard)
  }

  /** The first check a plan's tasks fail. */
  predicate Faulted(e: LoadError, pr: bool, paths: seq<string>, ts: seq<Task>, exist: string -> bool, shard: Option<Shard>) {
    var distinct := DistinctKeys(ts) && DistinctIdentities(ts);
    var covered := pr ==> NoneOmitted(paths, ts, exist);
    match e
    case Duplicate => !distinct
    case Omitted => distinct && !covered
    case MatrixMismatch => distinct && covered && !MatrixAgrees(ts, shard)
    case _ => false
  }

  /** loadCanonicalPlan over already decoded fields: accepts exactly the canonical, consistent plans. */
  method LoadCanonicalPlan(pr: bool, paths: seq<string>, stored: seq<Stored>, exist: string -> bool, shard: Option<Shard>)
    returns (r: Result<seq<Task>, LoadError>)
    ensures r.Ok? <==> CanonicalPaths(paths) && Loadable(stored) && Consistent(pr, paths, Loaded(stored), exist, shard)
    ensures r.Ok? ==> r.value == Loaded(stored)
    ensures r == Err(NotCanonical) <==> !CanonicalPaths(paths)
    ensures CanonicalPaths(paths) && !Loadable(stored) ==> r == Err(MissingIdentity) || r == Err(UnsafeCwd)
    ensures CanonicalPaths(paths) && Loadable(stored) && r.Err? ==> Faulted(r.error, pr, paths, Loaded(stored), exist, shard)
  {
    var normalized := NormalizeChangedPaths(paths);
    if normalized.Err? || normalized.value != paths {
      return Err(NotCanonical);
    }
    var loaded := DeserializeAll(stored);
    if loaded.Err? {
      return loaded;
    }
    var e := Check(pr, paths, loaded.value, exist, shard);
    return if e.Some? then Err(e.value) else loaded;
  }

  method Check(pr: bool, paths: seq<string>, ts: seq<Task>, exist: string -> bool, shard: Option<Shard>) returns (e: Option<LoadError>)
    ensures e.None? <==> Consistent(pr, paths, ts, exist, shard)
    ensures e.Some? ==> Faulted(e.value, pr, paths, ts, exist, shard)
  {
    if !DistinctKeys(ts) || !DistinctIdentities(ts) {
      return Some(Duplicate);
    }
    if pr && !NoneOmitted(paths, ts, exist) {
      return Some(Omitted);
    }
    if shard.Some? {
      var key := Trim(shard.value.key);
      if key != "" && !ShardAgrees(ts, shard.value) {
        return Some(MatrixMismatch);
      }
    }
    return None;
  }

  // ---- Storing and loading ----

  predicate Placed(ts: seq<Task>) {
    forall i | 0 <= i < |ts| :: SafeCwd(Some(RelativeCwd(ts[i].cwd)))
  }

  predicate Identified(ts: seq<Task>) {
    forall i | 0 <= i < |ts| :: Identity(ts[i]) != ""
  }

  /** A stored task loads exactly when its directory is safe, and keeps its key, identity and capabilities. */
  lemma {:induction false} ReloadKeeps(t: Task)
    requires Identity(t) != ""
    ensures Deserialize(Serialize(t)).Ok? <==> SafeCwd(Some(RelativeCwd(t.cwd)))
    ensures Deserialize(Serialize(t)).Ok? ==>
              var u := Deserialize(Serialize(t)).value;
              u.key == t.key && Identity(u) == Identity(t) && CapabilitiesOf(u) == CapabilitiesOf(t) && Describe(u) == Describe(t)
  {
  }

  lemma {:induction false} ReloadAll(ts: seq<Task>)
    requires Identified(ts)
    ensures Loadable(SerializeAll(ts)) <==> Placed(ts)
    ensures Placed(ts) ==>
              forall i | 0 <= i < |ts| :: Describe(Loaded(SerializeAll(ts))[i]) == Describe(ts[i])
  {
    forall i | 0 <= i < |ts|
      ensures Deserialize(SerializeAll(ts)[i]).Ok? <==> SafeCwd(Some(RelativeCwd(ts[i].cwd)))
      ensures Deserialize(SerializeAll(ts)[i]).Ok? ==> Describe(Deserialize(SerializeAll(ts)[i]).value) == Describe(ts[i])
    {
      ReloadKeeps(ts[i]);
    }
  }

  /** The shard started from a task's matrix entry. */
  function ShardOf(t: Task): Shard {
    Shard(Describe(t).key, Describe(t).rust, Describe(t).nextest, Describe(t).native)
  }

  predicate SameDescriptors(ts: seq<Task>, us: seq<Task>) {
    |ts| == |us| && forall i | 0 <= i < |ts| :: Describe(us[i]) == Describe(ts[i])
  }

  lemma {:induction false} SameTask(t: Task, u: Task)
    requires Describe(u) == Describe(t)
    ensures u.key == t.key && Identity(u) == Identity(t) && forall shard :: FlagsAgree(u, shard) <==> FlagsAgree(t, shard)
  {
    assert Describe(u).key == u.key && Describe(t).key == t.key;
    assert Describe(u).identity == Identity(u) && Describe(t).identity == Identity(t);
  }

  lemma {:induction false} ConsistentOneWay(pr: bool, paths: seq<string>, ts: seq<Task>, us: seq<Task>, exist: string -> bool, shard: Option<Shard>)
    requires SameDescriptors(ts, us) && Consistent(pr, paths, ts, exist, shard)
    ensures Consistent(pr, paths, us, exist, shard)
  {
    forall i | 0 <= i < |ts|
      ensures us[i].key == ts[i].key && Identity(us[i]) == Identity(ts[i])
      ensures forall shard :: FlagsAgree(us[i], shard) <==> FlagsAgree(ts[i], shard)
    {
      SameTask(ts[i], us[i]);
    }
    hide Describe, FlagsAgree, Identity, Trim, PackageTest;
    if pr {
      forall i | 0 <= i < |paths| && PackageTest(paths[i]) && exist(paths[i])
        ensures HasKey(us, "test:" + paths[i])
      {
        var j :| 0 <= j < |ts| && ts[j].key == "test:" + paths[i];
        assert us[j].key == ts[j].key;
      }
    }
  }

  /** Tasks with the same descriptors pass the same checks, with or without a matrix key. */
  lemma {:induction false} ConsistentTransfers(pr: bool, paths: seq<string>, ts: seq<Task>, us: seq<Task>, exist: string -> bool, shard: Option<Shard>)
    requires SameDescriptors(ts, us)
    ensures Consistent(pr, paths, ts, exist, shard) <==> Consistent(pr, paths, us, exist, shard)
  {
    hide Consistent, Describe;
    if Consistent(pr, paths, ts, exist, shard) { ConsistentOneWay(pr, paths, ts, us, exist, shard); }
    if Consistent(pr, paths, us, exist, shard) { ConsistentOneWay(pr, paths, us, ts, exist, shard); }
  }

  /** A shard agrees exactly when its trimmed key names a task with its three flags. */
  lemma {:induction false} MatrixIff(ts: seq<Task>, shard: Shard, i: nat)
    requires DistinctKeys(ts) && i < |ts| && ts[i].key == Trim(shard.key) && ts[i].key != ""
    ensures MatrixAgrees(ts, Some(shard)) <==>
            && CapabilitiesOf(ts[i]).rust == shard.rust && CapabilitiesOf(ts[i]).nextest == shard.nextest
            && CapabilitiesOf(ts[i]).nativeConsumer == shard.native
  {
    hide CapabilitiesOf, Trim;
  }

  /** A shard whose key names no task is refused. */
  lemma {:induction false} UnknownShardIsRefused(ts: seq<Task>, shard: Shard)
    requires Trim(shard.key) != "" && forall t | t in ts :: t.key != Trim(shard.key)
    ensures !MatrixAgrees(ts, Some(shard))
  {
    hide FlagsAgree, Trim;
  }

  /** What an accepted plan's tasks satisfy: no key and no identity twice, and in a pull request every existing changed package test. */
  lemma {:induction false} ConsistentMeans(pr: bool, paths: seq<string>, ts: seq<Task>, exist: string -> bool, shard: Option<Shard>)
    ensures Consistent(pr, paths, ts, exist, shard) <==>
            && (forall i, j | 0 <= i < j < |ts| :: ts[i].key != ts[j].key && Identity(ts[i]) != Identity(ts[j]))
            && (pr ==> forall p | p in paths && PackageTest(p) && exist(p) :: exists t :: t in ts && t.key == "test:" + p)
            && MatrixAgrees(ts, shard)
  {
    hide MatrixAgrees, Identity, PackageTest;
    if pr && NoneOmitted(paths, ts, exist) {
      forall p | p in paths && PackageTest(p) && exist(p)
        ensures exists t :: t in ts && t.key == "test:" + p
      {
        var i :| 0 <= i < |paths| && paths[i] == p;
        var j :| 0 <= j < |ts| && ts[j].key == "test:" + paths[i];
        assert ts[j] in ts;
      }
    }
  }

  /** Test files are exactly the TypeScript files named so. */
  lemma {:induction false} TestFileIff(p: string)
    ensures TestFile(p) <==> exists base :: p == base + ".test.ts" || p == base + ".test.tsx"
  {
    if EndsWith(p, ".test.ts") { assert p == p[..|p| - 8] + ".test.ts"; }
    if EndsWith(p, ".test.tsx") { assert p == p[..|p| - 9] + ".test.tsx"; }
    if base :| p == base + ".test.ts" || p == base + ".test.tsx" {
      if p == base + ".test.ts" { assert p[|p| - 8..] == ".test.ts"; } else { assert p[|p| - 9..] == ".test.tsx"; }
    }
  }

  /** The loader takes the stored form of these tasks. */
  predicate Accepts(pr: bool, paths: seq<string>, ts: seq<Task>, exist: string -> bool, shard: Option<Shard>) {
    && CanonicalPaths(paths) && Loadable(SerializeAll(ts))
    && Consistent(pr, paths, Loaded(SerializeAll(ts)), exist, shard)
  }

  /** Storing and loading changes no verdict: canonical paths, safe directories and the checks on the tasks as planned. */
  lemma {:induction false} AcceptsIff(pr: bool, paths: seq<string>, ts: seq<Task>, exist: string -> bool, shard: Option<Shard>)
    requires Identified(ts)
    ensures Accepts(pr, paths, ts, exist, shard) <==> CanonicalPaths(paths) && Placed(ts) && Consistent(pr, paths, ts, exist, shard)
  {
    ReloadAll(ts);
    hide CanonicalPaths, Consistent, Placed, Describe;
    if Placed(ts) { ConsistentTransfers(pr, paths, ts, Loaded(SerializeAll(ts)), exist, shard); }
  }
}
