/** The targeted plan read from its tasks: which changed paths put each key there, and which never do. */
module AffectedCoverage {
  import opened AffectedPaths
  import opened AffectedPlan
  import opened AffectedTasks
  import opened ChangedPaths
  import opened ChangelogLines
  import opened Decimal
  import opened PlannerKeys
  import opened Text
  import opened Wrappers

  // ---- Kinds of keys ----

  ghost predicate OnlyTests(keys: set<Key>) {
    forall k | k in keys :: k.Test?
  }

  lemma {:induction false} ShardsAreTests(from: nat, n: nat)
    ensures OnlyTests(ShardKeys(from, n))
    decreases n + 1 - from
  {
    if from <= n { ShardsAreTests(from + 1, n); }
  }

  lemma {:induction false} SuitesAreTests(s: Scope, w: Workspace)
    ensures OnlyTests(PackageKeys(s, w))
  {
    ShardsAreTests(1, s.tables.shards);
    hide ShardKeys;
  }

  lemma {:induction false} FilesAreTests(s: Scope, files: seq<string>, required: bool)
    ensures OnlyTests(TestKeys(s, files, required))
  {
    if files != [] { FilesAreTests(s, files[1..], required); }
  }

  lemma {:induction false} WorkspaceIsTests(s: Scope, ws: seq<Workspace>)
    ensures OnlyTests(WorkspaceKeys(s, ws))
  {
    hide PackageKeys;
    if ws != [] {
      SuitesAreTests(s, ws[0]);
      WorkspaceIsTests(s, ws[1..]);
    }
  }

  // ---- Where a key comes from ----

  /** The whole workspace is planned: a root file changed, and not just the root manifest with its release harness. */
  ghost predicate WholeWorkspace(s: Scope, paths: seq<string>) {
    && (exists p :: p in paths && p in ["package.json", "bunfig.toml", "biome.json", "tsconfig.json", "tsconfig.base.json", "tsconfig.tools.json"])
    && ("package.json" in paths ==> exists p :: && p in paths && Relevant(p) && p != "package.json"
                                            && !s.tables.releasePublish(p) && !s.tables.releaseHarness(p) && !s.tables.wrapper(p))
  }

  lemma {:induction false} RootFilesAreRelevant(p: string)
    requires FullWorkspace(p)
    ensures Relevant(p)
  {
    if Doc(p) {
      if EndsWith(p, ".md") { MarkdownEnds(p); }
      else if StartsWith(p, "docs/") { FirstChar(p, "docs/"); }
      else { FirstChar(p, ".gjc/"); }
    }
  }

  lemma {:induction false} FullIff(s: Scope, paths: seq<string>)
    ensures Full(s, RelevantPaths(paths)) <==> WholeWorkspace(s, paths)
  {
    var relevant := RelevantPaths(paths);
    hide Relevant, RelevantPaths;
    forall p | FullWorkspace(p)
      ensures Relevant(p)
    {
      RootFilesAreRelevant(p);
    }
    assert (exists i | 0 <= i < |relevant| :: FullWorkspace(relevant[i])) <==> exists p :: p in paths && FullWorkspace(p) by {
      if i :| 0 <= i < |relevant| && FullWorkspace(relevant[i]) { assert relevant[i] in relevant; }
      if p :| p in paths && FullWorkspace(p) {
        var i :| 0 <= i < |relevant| && relevant[i] == p;
        assert FullWorkspace(relevant[i]);
      }
    }
    assert FullWorkspace("package.json");
    assert (forall i | 0 <= i < |relevant| :: HarnessPath(s, relevant[i])) <==> forall p | p in relevant :: HarnessPath(s, p);
  }

  /** Every source of a key: documents, the whole workspace, single paths, all paths together, the native producer. */
  lemma {:induction false} KeyIff(s: Scope, paths: seq<string>, k: Key)
    ensures k in PlanKeys(s, paths) <==>
            || k in DocsKeys(s, paths)
            || (WholeWorkspace(s, paths) && (k in {Fixed(RootCheck), Fixed(NativeLinux), Fixed(RootTestRelease)} || k in WorkspaceKeys(s, s.packages)))
            || (exists p :: p in paths && Relevant(p) && k in PathKeys(s, p))
            || k in LateKeys(s, RelevantPaths(paths))
            || (k == Fixed(NativeLinux) && exists j :: j in PlanKeys(s, paths) && WantsNative(j))
  {
    var relevant := RelevantPaths(paths);
    FullIff(s, paths);
    PathsKeysIff(s, relevant, k);
    RelevantKeysAre(s, relevant);
    NativeIff(DocsKeys(s, paths) + RelevantKeys(s, relevant), k);
    hide DocsKeys, RelevantKeys, PathKeys, PathsKeys, LateKeys, WorkspaceKeys, WantsNative, WithNative, WholeWorkspace, Full, Relevant, RelevantPaths;
  }

  lemma {:induction false} RelevantKeysAre(s: Scope, relevant: seq<string>)
    ensures RelevantKeys(s, relevant) == FullKeys(s, relevant) + PathsKeys(s, relevant) + LateKeys(s, relevant)
  {
    if relevant == [] { NoCanaries(s.tables.riskClasses); }
    hide PathKeys, WorkspaceKeys;
  }

  lemma {:induction false} NoCanaries(classes: seq<RiskClass>)
    ensures Canaries(classes, []) == []
  {
    if classes != [] { NoCanaries(classes[1..]); }
  }

  lemma {:induction false} NativeIff(keys: set<Key>, k: Key)
    ensures k in WithNative(keys) <==> k in keys || (k == Fixed(NativeLinux) && exists j :: j in WithNative(keys) && WantsNative(j))
  {
    assert !WantsNative(Fixed(NativeLinux));
    hide WantsNative;
    assert forall j | WantsNative(j) :: j in WithNative(keys) <==> j in keys;
  }

  // ---- Fixed keys ----

  /** Claimed by an earlier branch of the path loop than the Rust one. */
  predicate Early(p: string) {
    FullWorkspace(p) || Workflow(p) || CiHarness(p)
  }

  /** Reaches the test mapping. */
  predicate Open(p: string) {
    !Early(p) && !Rust(p) && !Install(p)
  }

  /** What makes one path call for a fixed key. */
  predicate Calls(s: Scope, p: string, kind: Kind) {
    match kind
    case RustCheck => !Early(p) && Rust(p)
    case RustTest => !Early(p) && Rust(p)
    case InstallMethods => !Early(p) && !Rust(p) && Install(p)
    case ReleaseContract => Open(p) && s.tables.releasePublish(p)
    case ReleaseDryRun => Open(p) && s.tables.releasePublish(p)
    case WrapperVersion => Open(p) && s.tables.wrapper(p) && (s.tables.releasePublish(p) || (!Covered(s, p) && Owner(p, s.packages).Some?))
    case CheckSchemas => Open(p) && s.tables.schemaContract(p)
    case SdkSmoke => Open(p) && s.tables.sdkSmoke(p)
    case CliSmoke => Open(p) && !Covered(s, p) && Owner(p, s.packages).Some? && (s.tables.runtime(p) || RuntimeMarkdown(p))
    case RootCheck => Open(p) && !Covered(s, p) && Owner(p, s.packages).None? && s.tables.codeIsh(p)
    case _ => false
  }

  lemma {:induction false} NoFixedTests(s: Scope, p: string, kind: Kind)
    ensures Fixed(kind) !in AiKeys(s, p) && Fixed(kind) !in CheckKeys(s, p)
    ensures Fixed(kind) !in TestKeys(s, MappedTests(s, p), s.tables.validate)
    ensures Fixed(kind) !in TestKeys(s, s.tables.behavioral(p), s.tables.validate)
  {
    FilesAreTests(s, MappedTests(s, p), s.tables.validate);
    FilesAreTests(s, s.tables.behavioral(p), s.tables.validate);
    if AiPackage(s.packages).Some? { SuitesAreTests(s, AiPackage(s.packages).value); }
    hide PackageKeys, TestKeys, MappedTests, Owner, AiPackage;
  }

  lemma {:induction false} ContractCalls(s: Scope, p: string, kind: Kind)
    ensures Fixed(kind) in ContractKeys(s, p) <==>
            || (s.tables.releasePublish(p) && (kind == ReleaseContract || kind == ReleaseDryRun || (kind == WrapperVersion && s.tables.wrapper(p))))
            || (s.tables.schemaContract(p) && kind == CheckSchemas)
            || (s.tables.sdkSmoke(p) && kind == SdkSmoke)
  {
    hide Owner;
  }

  lemma {:induction false} FallbackCalls(s: Scope, p: string, kind: Kind)
    ensures Fixed(kind) in FallbackKeys(s, p) <==>
            && !Covered(s, p)
            && if Owner(p, s.packages).Some? then
                 (kind == CliSmoke && (s.tables.runtime(p) || RuntimeMarkdown(p))) || (kind == WrapperVersion && s.tables.wrapper(p))
               else kind == RootCheck && s.tables.codeIsh(p)
  {
    hide Covered, Owner, RuntimeMarkdown;
  }

  lemma {:induction false} OpenCalls(s: Scope, p: string, kind: Kind)
    requires Open(p)
    ensures Fixed(kind) in PathKeys(s, p) <==> Fixed(kind) in ContractKeys(s, p) || Fixed(kind) in FallbackKeys(s, p)
  {
    hide AiKeys, CheckKeys, TestKeys, ContractKeys, FallbackKeys, MappedTests, FullWorkspace, Workflow, CiHarness, Rust, Install;
    NoFixedTests(s, p, kind);
  }

  lemma {:induction false} DivertedCalls(s: Scope, p: string, kind: Kind)
    requires !Open(p)
    ensures Fixed(kind) in PathKeys(s, p) <==>
            !Early(p) && if Rust(p) then kind == RustCheck || kind == RustTest else kind == InstallMethods
  {
    hide AiKeys, TestKeys, FullWorkspace, Workflow, CiHarness, Rust, Install;
    NoFixedTests(s, p, kind);
  }

  lemma {:induction false} PathCalls(s: Scope, p: string, kind: Kind)
    ensures Fixed(kind) in PathKeys(s, p) <==> Calls(s, p, kind)
  {
    hide PathKeys, ContractKeys, FallbackKeys, Covered, Owner, RuntimeMarkdown, Early, Rust, Install;
    if Open(p) {
      OpenCalls(s, p, kind);
      ContractCalls(s, p, kind);
      FallbackCalls(s, p, kind);
    } else {
      DivertedCalls(s, p, kind);
    }
  }

  /** A fixed key from single paths, apart from the whole workspace and from the paths together. */
  lemma {:induction false} FixedIff(s: Scope, paths: seq<string>, kind: Kind)
    requires kind != NativeLinux
    ensures Fixed(kind) in PlanKeys(s, paths) <==>
            || (WholeWorkspace(s, paths) && (kind == RootCheck || kind == RootTestRelease))
            || (exists p :: p in paths && Relevant(p) && Calls(s, p, kind))
            || Fixed(kind) in LateKeys(s, RelevantPaths(paths))
  {
    hide PathKeys, LateKeys, WorkspaceKeys, WholeWorkspace, Calls, Relevant, RelevantPaths, PlanKeys;
    KeyIff(s, paths, Fixed(kind));
    WorkspaceIsTests(s, s.packages);
    forall p
      ensures Fixed(kind) in PathKeys(s, p) <==> Calls(s, p, kind)
    {
      PathCalls(s, p, kind);
    }
  }

  lemma {:induction false} LateFixed(s: Scope, paths: seq<string>, kind: Kind)
    ensures Fixed(kind) in LateKeys(s, RelevantPaths(paths)) <==>
            || (kind == InstallMethods && exists p :: p in paths && Relevant(p) && s.tables.darwinSmoke(p))
            || (kind in {CiSelftest, CiDryRun, WorkflowPermissions} && exists p :: p in paths && Relevant(p) && !FullWorkspace(p) && (Workflow(p) || CiHarness(p)))
            || (kind == YamlParse && exists p :: p in paths && Relevant(p) && !FullWorkspace(p) && Workflow(p))
  {
    hide TestKeys, Canaries, Relevant, FullWorkspace, Workflow, CiHarness, RelevantPaths, AnyDarwin, AnyWorkflow, AnyHarness;
    var relevant := RelevantPaths(paths);
    FilesAreTests(s, Canaries(s.tables.riskClasses, relevant), false);
    SomeLate(s, paths);
  }

  lemma {:induction false} SomeLate(s: Scope, paths: seq<string>)
    ensures AnyDarwin(s, RelevantPaths(paths)) <==> exists p :: p in paths && Relevant(p) && s.tables.darwinSmoke(p)
    ensures AnyWorkflow(RelevantPaths(paths)) <==> exists p :: p in paths && Relevant(p) && !FullWorkspace(p) && Workflow(p)
    ensures AnyHarness(RelevantPaths(paths)) <==> exists p :: p in paths && Relevant(p) && !FullWorkspace(p) && !Workflow(p) && CiHarness(p)
  {
    hide Relevant, FullWorkspace, Workflow, CiHarness, RelevantPaths;
    SomeRelevant(paths, s.tables.darwinSmoke);
    SomeRelevant(paths, p => !FullWorkspace(p) && Workflow(p));
    SomeRelevant(paths, p => !FullWorkspace(p) && !Workflow(p) && CiHarness(p));
  }

  lemma {:induction false} SomeRelevant(paths: seq<string>, f: string -> bool)
    ensures (exists i | 0 <= i < |RelevantPaths(paths)| :: f(RelevantPaths(paths)[i])) <==> exists p :: p in paths && Relevant(p) && f(p)
  {
    hide Relevant, RelevantPaths;
    var relevant := RelevantPaths(paths);
    if i :| 0 <= i < |relevant| && f(relevant[i]) { assert relevant[i] in relevant; }
    if p :| p in paths && Relevant(p) && f(p) {
      assert p in relevant;
      var i :| 0 <= i < |relevant| && relevant[i] == p;
      assert f(RelevantPaths(paths)[i]);
    }
  }

  /** Rust checks and tests run exactly when a relevant Rust path that no earlier branch claims has changed. */
  lemma {:induction false} RustIff(s: Scope, paths: seq<string>)
    ensures Fixed(RustCheck) in PlanKeys(s, paths) <==> exists p :: p in paths && Relevant(p) && !Early(p) && Rust(p)
    ensures Fixed(RustTest) in PlanKeys(s, paths) <==> exists p :: p in paths && Relevant(p) && !Early(p) && Rust(p)
  {
    hide PlanKeys, LateKeys, RelevantPaths, Relevant, Early, Rust;
    FixedIff(s, paths, RustCheck);
    FixedIff(s, paths, RustTest);
    LateFixed(s, paths, RustCheck);
    LateFixed(s, paths, RustTest);
  }

  /** Install methods are tried exactly for an unclaimed install path or a path the tab worker smoke watches. */
  lemma {:induction false} InstallIff(s: Scope, paths: seq<string>)
    ensures Fixed(InstallMethods) in PlanKeys(s, paths) <==>
            exists p :: p in paths && Relevant(p) && ((!Early(p) && !Rust(p) && Install(p)) || s.tables.darwinSmoke(p))
  {
    hide PlanKeys, LateKeys, RelevantPaths, Relevant, Early, Rust, Install;
    FixedIff(s, paths, InstallMethods);
    LateFixed(s, paths, InstallMethods);
  }

  /** Workflow files call for the parse check; workflow files and CI scripts for the self-tests and the permission check. */
  lemma {:induction false} WorkflowIff(s: Scope, paths: seq<string>)
    ensures Fixed(YamlParse) in PlanKeys(s, paths) <==> exists p :: p in paths && Relevant(p) && !FullWorkspace(p) && Workflow(p)
    ensures forall kind | kind in {CiSelftest, CiDryRun, WorkflowPermissions} ::
              Fixed(kind) in PlanKeys(s, paths) <==> exists p :: p in paths && Relevant(p) && !FullWorkspace(p) && (Workflow(p) || CiHarness(p))
  {
    hide PlanKeys, LateKeys, RelevantPaths, Relevant, FullWorkspace, Workflow, CiHarness;
    FixedIff(s, paths, YamlParse);
    LateFixed(s, paths, YamlParse);
    forall kind | kind in {CiSelftest, CiDryRun, WorkflowPermissions}
      ensures Fixed(kind) in PlanKeys(s, paths) <==> exists p :: p in paths && Relevant(p) && !FullWorkspace(p) && (Workflow(p) || CiHarness(p))
    {
      FixedIff(s, paths, kind);
      LateFixed(s, paths, kind);
    }
  }

  /** The release, schema and package smokes, each from the open paths its table names. */
  lemma {:induction false} ContractsIff(s: Scope, paths: seq<string>)
    ensures Fixed(ReleaseContract) in PlanKeys(s, paths) <==> exists p :: p in paths && Relevant(p) && Open(p) && s.tables.releasePublish(p)
    ensures Fixed(ReleaseDryRun) in PlanKeys(s, paths) <==> exists p :: p in paths && Relevant(p) && Open(p) && s.tables.releasePublish(p)
    ensures Fixed(CheckSchemas) in PlanKeys(s, paths) <==> exists p :: p in paths && Relevant(p) && Open(p) && s.tables.schemaContract(p)
    ensures Fixed(SdkSmoke) in PlanKeys(s, paths) <==> exists p :: p in paths && Relevant(p) && Open(p) && s.tables.sdkSmoke(p)
  {
    hide PlanKeys, LateKeys, RelevantPaths, Relevant, Early, Rust, Install;
    forall kind | kind in {ReleaseContract, ReleaseDryRun, CheckSchemas, SdkSmoke}
      ensures Fixed(kind) in PlanKeys(s, paths) <==> exists p :: p in paths && Relevant(p) && Calls(s, p, kind)
    {
      FixedIff(s, paths, kind);
      LateFixed(s, paths, kind);
    }
  }

  /** Markdown below the source of one of the three packages that bundle it. */
  predicate BundledPrompt(p: string) {
    && EndsWith(p, ".md")
    && (StartsWith(p, "packages/coding-agent/src/") || StartsWith(p, "packages/agent/src/") || StartsWith(p, "packages/ai/src/"))
  }

  lemma {:induction false} PromptIff(p: string)
    ensures RuntimeMarkdown(p) <==> BundledPrompt(p)
  {
    hide StartsWith, EndsWith;
  }

  /** No test is mapped to the path, and none is named for it if it is markdown. */
  predicate Uncovered(s: Scope, p: string) {
    MappedTests(s, p) == [] && (EndsWith(p, ".md") ==> s.tables.behavioral(p) == [])
  }

  lemma {:induction false} UncoveredIff(s: Scope, p: string)
    ensures Covered(s, p) <==> !Uncovered(s, p)
  {
    hide MappedTests, EndsWith;
  }

  /** The smokes and the root check stand in where no test covers an open path. */
  lemma {:induction false} FallbackIff(s: Scope, paths: seq<string>)
    ensures Fixed(WrapperVersion) in PlanKeys(s, paths) <==>
            exists p :: && p in paths && Relevant(p) && Open(p) && s.tables.wrapper(p)
                        && (s.tables.releasePublish(p) || (Uncovered(s, p) && exists w :: w in s.packages && Under(p, w.dir)))
    ensures Fixed(CliSmoke) in PlanKeys(s, paths) <==>
            exists p :: && p in paths && Relevant(p) && Open(p) && Uncovered(s, p) && (exists w :: w in s.packages && Under(p, w.dir))
                        && (s.tables.runtime(p) || BundledPrompt(p))
    ensures Fixed(RootCheck) in PlanKeys(s, paths) <==>
            || WholeWorkspace(s, paths)
            || exists p :: p in paths && Relevant(p) && Open(p) && Uncovered(s, p) && s.tables.codeIsh(p) && forall w | w in s.packages :: !Under(p, w.dir)
    ensures Fixed(RootTestRelease) in PlanKeys(s, paths) <==> WholeWorkspace(s, paths)
  {
    hide PlanKeys, LateKeys, RelevantPaths, Relevant, Open, Covered, Uncovered, WholeWorkspace, Under, RuntimeMarkdown, BundledPrompt, Owner;
    forall p
      ensures Owner(p, s.packages).Some? <==> exists w :: w in s.packages && Under(p, w.dir)
      ensures RuntimeMarkdown(p) <==> BundledPrompt(p)
      ensures Covered(s, p) <==> !Uncovered(s, p)
    {
      OwnerExists(p, s.packages);
      PromptIff(p);
      UncoveredIff(s, p);
    }
    forall kind | kind in {WrapperVersion, CliSmoke, RootCheck, RootTestRelease}
      ensures Fixed(kind) in PlanKeys(s, paths) <==>
              || (WholeWorkspace(s, paths) && (kind == RootCheck || kind == RootTestRelease))
              || exists p :: p in paths && Relevant(p) && Calls(s, p, kind)
    {
      FixedIff(s, paths, kind);
      LateFixed(s, paths, kind);
    }
  }

  lemma {:induction false} OwnerExists(p: string, packages: seq<Workspace>)
    ensures Owner(p, packages).Some? <==> exists w :: w in packages && Under(p, w.dir)
  {
    hide Inside, Under;
    if packages != [] {
      UnderIff(p, packages[0].dir);
      OwnerExists(p, packages[1..]);
      assert packages == [packages[0]] + packages[1..];
    }
  }

  /** The native producer is planned exactly for the custom provider document, the whole workspace, or a task that needs it. */
  lemma {:induction false} NativeProducerIff(s: Scope, paths: seq<string>)
    ensures Fixed(NativeLinux) in PlanKeys(s, paths) <==>
            s.tables.gates.customDoc in paths || WholeWorkspace(s, paths) || exists k :: k in PlanKeys(s, paths) && WantsNative(k)
  {
    hide PathKeys, LateKeys, WorkspaceKeys, WholeWorkspace, Relevant, RelevantPaths, PlanKeys, WantsNative, EmbeddedDocs;
    KeyIff(s, paths, Fixed(NativeLinux));
    WorkspaceIsTests(s, s.packages);
    LateFixed(s, paths, NativeLinux);
    forall p
      ensures Fixed(NativeLinux) !in PathKeys(s, p)
    {
      PathCalls(s, p, NativeLinux);
    }
  }

  // ---- Checks ----

  /** The directory itself, or something below it. */
  predicate Under(p: string, dir: string) {
    p == dir || (|p| > |dir| && p[..|dir|] == dir && p[|dir|] == '/')
  }

  lemma {:induction false} UnderIff(p: string, dir: string)
    ensures Inside(p, dir) <==> Under(p, dir)
  {
    var n := |dir|;
    if |p| > n { assert p[..n + 1] == p[..n] + [p[n]]; }
    assert (dir + "/")[..n] == dir && (dir + "/")[n] == '/';
  }

  /** The first package that contains the path. */
  ghost predicate FirstOwner(packages: seq<Workspace>, p: string, i: nat) {
    i < |packages| && Under(p, packages[i].dir) && forall j | 0 <= j < i :: !Under(p, packages[j].dir)
  }

  lemma {:induction false} OwnerIff(packages: seq<Workspace>, p: string, w: Workspace)
    ensures Owner(p, packages) == Some(w) <==> exists i | 0 <= i < |packages| :: FirstOwner(packages, p, i) && packages[i] == w
  {
    hide Inside, Under;
    if packages != [] {
      var rest := packages[1..];
      UnderIff(p, packages[0].dir);
      OwnerIff(rest, p, w);
      assert forall j | 0 <= j < |rest| :: rest[j] == packages[j + 1];
      if Inside(p, packages[0].dir) {
        assert FirstOwner(packages, p, 0);
      } else {
        if i :| 0 <= i < |rest| && FirstOwner(rest, p, i) && rest[i] == w { assert FirstOwner(packages, p, i + 1); }
        if i :| 0 <= i < |packages| && FirstOwner(packages, p, i) && packages[i] == w {
          assert i > 0;
          assert FirstOwner(rest, p, i - 1);
        }
      }
    }
  }

  lemma {:induction false} PathChecks(s: Scope, p: string, name: string)
    ensures Check(name) in PathKeys(s, p) <==> Open(p) && Check(name) in CheckKeys(s, p)
  {
    hide TestKeys, CheckKeys, MappedTests, Covered, Owner, RuntimeMarkdown, PackageKeys, AiPackage;
    hide FullWorkspace, Workflow, CiHarness, Rust, Install;
    FilesAreTests(s, MappedTests(s, p), s.tables.validate);
    FilesAreTests(s, s.tables.behavioral(p), s.tables.validate);
    if AiPackage(s.packages).Some? { SuitesAreTests(s, AiPackage(s.packages).value); }
  }

  lemma {:induction false} LateIsNoCheck(s: Scope, relevant: seq<string>, name: string)
    ensures Check(name) !in LateKeys(s, relevant)
  {
    hide TestKeys, Canaries, AnyDarwin, AnyWorkflow, AnyHarness;
    FilesAreTests(s, Canaries(s.tables.riskClasses, relevant), false);
  }

  /** A package is checked exactly when it has a check and is the first to contain some relevant open path. */
  lemma {:induction false} CheckIff(s: Scope, paths: seq<string>, name: string)
    ensures Check(name) in PlanKeys(s, paths) <==>
            exists p, i | 0 <= i < |s.packages| :: && p in paths && Relevant(p) && Open(p) && FirstOwner(s.packages, p, i)
                                                   && s.packages[i].hasCheck && s.packages[i].name == name
  {
    hide PlanKeys, PathKeys, LateKeys, WorkspaceKeys, WholeWorkspace, Relevant, RelevantPaths, Open, FirstOwner, WantsNative, EmbeddedDocs;
    KeyIff(s, paths, Check(name));
    WorkspaceIsTests(s, s.packages);
    LateIsNoCheck(s, RelevantPaths(paths), name);
    forall p
      ensures Check(name) in PathKeys(s, p) <==>
              Open(p) && exists i | 0 <= i < |s.packages| :: FirstOwner(s.packages, p, i) && s.packages[i].hasCheck && s.packages[i].name == name
    {
      PathChecks(s, p, name);
      OwnCheckIff(s, p, name);
    }
  }

  lemma {:induction false} OwnCheckIff(s: Scope, p: string, name: string)
    ensures Check(name) in CheckKeys(s, p) <==>
            exists i | 0 <= i < |s.packages| :: FirstOwner(s.packages, p, i) && s.packages[i].hasCheck && s.packages[i].name == name
  {
    hide FirstOwner, Owner;
    if Owner(p, s.packages).Some? { OwnerIff(s.packages, p, Owner(p, s.packages).value); }
    if i :| 0 <= i < |s.packages| && FirstOwner(s.packages, p, i) && s.packages[i].hasCheck && s.packages[i].name == name {
      OwnerIff(s.packages, p, s.packages[i]);
    }
  }

  // ---- Tests ----

  const AGENT: string := "@gajae-code/coding-agent"

  function Shard(i: nat, n: nat): string {
    AGENT + ":shard-" + ToDecimal(i) + "-of-" + ToDecimal(n)
  }

  lemma {:induction false} AgentTests(i: nat, n: nat)
    ensures CODING_AGENT == AGENT && ShardKey(i, n) == Test(Shard(i, n)) && SdkHostKey() == Test(AGENT + ":sdk-production-host-isolated")
  {
    hide ToDecimal;
  }

  /** The subjects of a package's suite: the package itself, or the shards and files that stand for it. */
  ghost predicate InSuite(s: Scope, w: Workspace, t: string) {
    if w.name == "@gajae-code/natives" then t == w.name || t == "packages/natives/test/task-panic-to-rejection.test.ts"
    else if w.name == AGENT then
      || t == s.tables.gates.ownerSession || t == AGENT + ":sdk-production-host-isolated"
      || exists i: nat | 1 <= i <= s.tables.shards :: t == Shard(i, s.tables.shards)
    else t == w.name
  }

  lemma {:induction false} ShardIff(from: nat, n: nat, t: string)
    ensures Test(t) in ShardKeys(from, n) <==> exists i: nat | from <= i <= n :: t == Shard(i, n)
    decreases n + 1 - from
  {
    hide Shard, ShardKey;
    if from <= n {
      AgentTests(from, n);
      ShardIff(from + 1, n, t);
    }
  }

  lemma {:induction false} SuiteIff(s: Scope, w: Workspace, t: string)
    ensures Test(t) in PackageKeys(s, w) <==> InSuite(s, w, t)
  {
    hide Shard, ShardKey, ShardKeys, SdkHostKey;
    AgentTests(1, s.tables.shards);
    ShardIff(1, s.tables.shards, t);
  }

  lemma {:induction false} SuitesIff(s: Scope, ws: seq<Workspace>, t: string)
    ensures Test(t) in WorkspaceKeys(s, ws) <==> exists w :: w in ws && w.hasTest && InSuite(s, w, t)
  {
    hide PackageKeys, InSuite;
    if ws != [] {
      SuiteIff(s, ws[0], t);
      SuitesIff(s, ws[1..], t);
      assert ws == [ws[0]] + ws[1..];
    }
  }

  lemma {:induction false} FilesIff(s: Scope, files: seq<string>, required: bool, t: string)
    ensures Test(t) in TestKeys(s, files, required) <==> t in files && (required ==> s.tables.present(t))
  {
    if files != [] {
      FilesIff(s, files[1..], required, t);
      assert files == [files[0]] + files[1..];
    }
  }

  lemma {:induction false} AiIff(s: Scope, p: string, t: string)
    ensures Test(t) in AiKeys(s, p) <==>
            s.tables.aiCatalog(p) && t == "@gajae-code/ai" && exists w :: w in s.packages && w.name == "@gajae-code/ai"
  {
    AiExists(s.packages);
    hide AiPackage;
  }

  lemma {:induction false} AiExists(ws: seq<Workspace>)
    ensures AiPackage(ws).Some? <==> exists w :: w in ws && w.name == "@gajae-code/ai"
    ensures AiPackage(ws).Some? ==> AiPackage(ws).value.name == "@gajae-code/ai"
  {
    if ws != [] {
      AiExists(ws[1..]);
      assert ws == [ws[0]] + ws[1..];
    }
  }

  lemma {:induction false} CanariesIff(classes: seq<RiskClass>, relevant: seq<string>, t: string)
    ensures t in Canaries(classes, relevant) <==> exists i | 0 <= i < |classes| :: AtRisk(classes[i], relevant) && t in classes[i].canaries
  {
    hide AtRisk;
    if classes != [] {
      var rest := classes[1..];
      CanariesIff(rest, relevant, t);
      assert forall j | 0 <= j < |rest| :: rest[j] == classes[j + 1];
      if i :| 0 <= i < |classes| && AtRisk(classes[i], relevant) && t in classes[i].canaries {
        if i > 0 { assert AtRisk(rest[i - 1], relevant) && t in rest[i - 1].canaries; }
      }
    }
  }

  /** The tests one relevant path calls for. */
  ghost predicate CallsTest(s: Scope, p: string, t: string) {
    || (!FullWorkspace(p) && s.tables.aiCatalog(p) && t == "@gajae-code/ai" && exists w :: w in s.packages && w.name == "@gajae-code/ai")
    || (!Early(p) && (Rust(p) || !Install(p)) && t in s.tables.behavioral(p) && (s.tables.validate ==> s.tables.present(t)))
    || (Open(p) && t in MappedTests(s, p) && (s.tables.validate ==> s.tables.present(t)))
    || (Open(p) && s.tables.releasePublish(p) && t == s.tables.gates.releaseEvidence)
    || (Open(p) && s.tables.shardOne(p)
        && (t == AGENT + ":sdk-production-host-isolated" || t == Shard(1, s.tables.shards)))
  }

  lemma {:induction false} PathTests(s: Scope, p: string, t: string)
    ensures Test(t) in PathKeys(s, p) <==> CallsTest(s, p, t)
  {
    hide AiKeys, CheckKeys, TestKeys, ContractKeys, FallbackKeys, MappedTests, Shard, ShardKey, SdkHostKey;
    hide FullWorkspace, Workflow, CiHarness, Rust, Install;
    AgentTests(1, s.tables.shards);
    AiIff(s, p, t);
    FilesIff(s, s.tables.behavioral(p), s.tables.validate, t);
    FilesIff(s, MappedTests(s, p), s.tables.validate, t);
    OtherTests(s, p, t);
  }

  lemma {:induction false} OtherTests(s: Scope, p: string, t: string)
    ensures Test(t) in ContractKeys(s, p) <==> s.tables.releasePublish(p) && t == s.tables.gates.releaseEvidence
    ensures Test(t) !in CheckKeys(s, p) && Test(t) !in FallbackKeys(s, p)
  {
    hide Owner, Covered, RuntimeMarkdown;
  }

  /**
   * A test is planned exactly for one of these reasons: a document that gates it, the whole workspace with the
   * suite it belongs to, a relevant path that calls for it, or a risk class that some relevant path is in.
   */
  lemma {:induction false} TestIff(s: Scope, paths: seq<string>, t: string)
    ensures Test(t) in PlanKeys(s, paths) <==>
            || (s.tables.gates.customDoc in paths && t == s.tables.gates.customTest)
            || (t == s.tables.gates.docsGate
                && exists p :: p in paths && ((StartsWith(p, "docs/") && EndsWith(p, ".md")) || p == s.tables.gates.docsIndex))
            || (WholeWorkspace(s, paths) && exists w :: w in s.packages && w.hasTest && InSuite(s, w, t))
            || (exists p :: p in paths && Relevant(p) && CallsTest(s, p, t))
            || (exists p, i | 0 <= i < |s.tables.riskClasses| ::
                  p in paths && Relevant(p) && s.tables.riskClasses[i].matches(p) && t in s.tables.riskClasses[i].canaries)
  {
    hide PlanKeys, PathKeys, LateKeys, WorkspaceKeys, WholeWorkspace, Relevant, RelevantPaths, CallsTest, InSuite, DocsKeys;
    KeyIff(s, paths, Test(t));
    SuitesIff(s, s.packages, t);
    DocsTests(s, paths, t);
    LateTests(s, paths, t);
    forall p
      ensures Test(t) in PathKeys(s, p) <==> CallsTest(s, p, t)
    {
      PathTests(s, p, t);
    }
  }

  lemma {:induction false} DocsTests(s: Scope, paths: seq<string>, t: string)
    ensures Test(t) in DocsKeys(s, paths) <==>
            || (s.tables.gates.customDoc in paths && t == s.tables.gates.customTest)
            || (t == s.tables.gates.docsGate
                && exists p :: p in paths && ((StartsWith(p, "docs/") && EndsWith(p, ".md")) || p == s.tables.gates.docsIndex))
  {
    hide StartsWith, EndsWith;
    if p :| p in paths && ((StartsWith(p, "docs/") && EndsWith(p, ".md")) || p == s.tables.gates.docsIndex) {
      var i :| 0 <= i < |paths| && paths[i] == p;
      assert EmbeddedDocs(s, paths[i]);
    }
  }

  lemma {:induction false} LateTests(s: Scope, paths: seq<string>, t: string)
    ensures Test(t) in LateKeys(s, RelevantPaths(paths)) <==>
            exists p, i | 0 <= i < |s.tables.riskClasses| ::
              p in paths && Relevant(p) && s.tables.riskClasses[i].matches(p) && t in s.tables.riskClasses[i].canaries
  {
    hide TestKeys, Canaries, Relevant, RelevantPaths, AnyDarwin, AnyWorkflow, AnyHarness;
    var classes, relevant := s.tables.riskClasses, RelevantPaths(paths);
    FilesIff(s, Canaries(classes, relevant), false, t);
    CanariesIff(classes, relevant, t);
    forall i | 0 <= i < |classes|
      ensures AtRisk(classes[i], relevant) <==> exists p :: p in paths && Relevant(p) && classes[i].matches(p)
    {
      SomeRelevant(paths, classes[i].matches);
    }
    hide AtRisk;
  }

  // ---- Whole families of paths ----

  lemma {:induction false} CharAt(p: string, prefix: string, i: nat)
    requires StartsWith(p, prefix) && i < |prefix|
    ensures |p| > i && p[i] == prefix[i]
  {
    assert p[..|prefix|][i] == prefix[i];
  }

  lemma {:induction false} PrefixesDiffer(p: string, prefix: string, other: string, i: nat)
    requires StartsWith(p, prefix) && i < |prefix| && i < |other| && prefix[i] != other[i]
    ensures !StartsWith(p, other)
  {
    CharAt(p, prefix, i);
    if StartsWith(p, other) { CharAt(p, other, i); }
  }

  lemma {:induction false} NotRootFile(p: string)
    requires p != "" && (p[0] == 'c' || p[0] == '.' || p[0] == 's' || p[0] == 'D')
    ensures !FullWorkspace(p)
  {
  }

  /** Every file under crates or .cargo that is no document is checked and tested as Rust. */
  lemma {:induction false} CratesAreTested(s: Scope, paths: seq<string>, p: string)
    requires p in paths && (StartsWith(p, "crates/") || StartsWith(p, ".cargo/")) && !EndsWith(p, ".md")
    ensures Fixed(RustCheck) in PlanKeys(s, paths) && Fixed(RustTest) in PlanKeys(s, paths)
  {
    hide PlanKeys, EndsWith, StartsWith, FullWorkspace, CiHarness, Rust;
    if StartsWith(p, "crates/") {
      PrefixesDiffer(p, "crates/", "docs/", 0);
      PrefixesDiffer(p, "crates/", ".gjc/", 0);
      PrefixesDiffer(p, "crates/", ".github/workflows/", 0);
      CharAt(p, "crates/", 0);
    } else {
      PrefixesDiffer(p, ".cargo/", "docs/", 0);
      PrefixesDiffer(p, ".cargo/", ".gjc/", 1);
      PrefixesDiffer(p, ".cargo/", ".github/workflows/", 1);
      CharAt(p, ".cargo/", 0);
    }
    NotRootFile(p);
    if CiHarness(p) { HarnessStarts(p); }
    CrateIsRust(p);
    assert Relevant(p) && !Early(p) && Rust(p);
    RustIff(s, paths);
  }

  lemma {:induction false} CrateIsRust(p: string)
    requires StartsWith(p, "crates/") || StartsWith(p, ".cargo/")
    ensures Rust(p)
  {
  }

  /** So is every Cargo manifest, lock file, toolchain and formatter file that no earlier branch claims, wherever it lies. */
  lemma {:induction false} CargoFilesAreTested(s: Scope, paths: seq<string>, dir: string, name: string)
    requires name in ["Cargo.toml", "Cargo.lock", "rust-toolchain", "rust-toolchain.toml", "rustfmt.toml", ".rustfmt.toml", "clippy.toml", ".clippy.toml"]
    requires dir + "/" + name in paths && Relevant(dir + "/" + name) && !Early(dir + "/" + name)
    ensures Fixed(RustCheck) in PlanKeys(s, paths) && Fixed(RustTest) in PlanKeys(s, paths)
  {
    hide PlanKeys, Early, Relevant, Rust;
    RustByName(dir, name);
    RustIff(s, paths);
  }

  lemma {:induction false} RustByName(dir: string, name: string)
    requires name in ["Cargo.toml", "Cargo.lock", "rust-toolchain", "rust-toolchain.toml", "rustfmt.toml", ".rustfmt.toml", "clippy.toml", ".clippy.toml"]
    ensures Rust(dir + "/" + name)
  {
    assert '/' !in name;
    BasenameOf(dir, name);
    hide Basename, StartsWith;
  }

  lemma {:induction false} BasenameOf(dir: string, name: string)
    requires '/' !in name
    ensures Basename(dir + "/" + name) == name
  {
    LastPart(dir, name);
  }

  /** Files outside every package have the tests of their own directory. */
  lemma {:induction false} ScopeIs(dir: string, name: string, packages: seq<Workspace>)
    requires '/' !in name && forall w | w in packages :: !Under(dir + "/" + name, w.dir) && !Under(name, w.dir)
    ensures ScopePrefix(dir + "/" + name, packages) == dir + "/" && ScopePrefix(name, packages) == "./"
  {
    OwnerExists(dir + "/" + name, packages);
    OwnerExists(name, packages);
    DirnameOf(dir, name);
    hide Under, Owner, Dirname;
  }

  lemma {:induction false} DirnameOf(dir: string, name: string)
    requires '/' !in name
    ensures Dirname(dir + "/" + name) == dir && Dirname(name) == "."
  {
    var parts := Split(dir + "/" + name, '/');
    SplitAppend(name, "", '/');
    LastPart(dir, name);
    JoinSplit(dir, '/');
    assert parts[..|parts| - 1] == Split(dir, '/');
  }

  lemma {:induction false} LastPart(dir: string, name: string)
    requires '/' !in name
    ensures Split(dir + "/" + name, '/') == Split(dir, '/') + [name]
  {
    hide Split;
    var k := IndexOf(dir, '/');
    if k == |dir| {
      SplitAppend(dir, name, '/');
      SplitAppend(name, "", '/');
    } else {
      var head, rest := dir[..k], dir[k + 1..];
      assert dir == head + "/" + rest && dir + "/" + name == head + "/" + (rest + "/" + name);
      SplitAppend(head, rest, '/');
      SplitAppend(head, rest + "/" + name, '/');
      LastPart(rest, name);
    }
  }

  lemma {:induction false} StripExtensionOf(base: string, extension: string)
    requires extension in [".ts", ".js", ".tsx", ".jsx", ".mts", ".cts"]
    ensures StripExtension(base + extension) == base
  {
    var name := base + extension;
    assert forall i | 0 <= i < |extension| :: name[|base| + i] == extension[i];
    assert name[|name| - |extension|..] == extension && name[..|base|] == base;
    if |extension| == 4 { assert name[|name| - 3..] == extension[1..]; }
  }

  /** A test file's own task: it is known, or it is a plain package test on disk. */
  lemma {:induction false} TestMapsToItself(s: Scope, p: string, t: string)
    requires TestFile(p)
    ensures t in MappedTests(s, p) <==>
            && t == p
            && (p in s.tables.testFiles
                || (&& StartsWith(p, "packages/") && !Contains(p, "node_modules/") && s.tables.present(p)
                    && "" !in Split(p, '/') && "." !in Split(p, '/') && ".." !in Split(p, '/')))
  {
    hide TestFile, StartsWith, Contains, Split;
  }

  /** A changed source file whose name has just one test in its scope has that test planned. */
  lemma {:induction false} SourceTestIsPlanned(s: Scope, paths: seq<string>, dir: string, base: string, extension: string, i: nat)
    requires var p := dir + "/" + base + extension;
             && p in paths && Relevant(p) && Open(p) && !TestFile(p)
             && base != "" && '/' !in base && extension in [".ts", ".js", ".tsx", ".jsx", ".mts", ".cts"]
             && i < |s.tables.testFiles| && (s.tables.validate ==> s.tables.present(s.tables.testFiles[i]))
             && (forall j | 0 <= j < |s.tables.testFiles| ::
                   (&& StartsWith(s.tables.testFiles[j], ScopePrefix(p, s.packages))
                    && Basename(s.tables.testFiles[j]) in [base + ".test.ts", base + ".test.tsx"]) <==> j == i)
    ensures Test(s.tables.testFiles[i]) in PlanKeys(s, paths)
  {
    hide *;
    var p, t := dir + "/" + base + extension, s.tables.testFiles[i];
    BaseOfSource(dir, base, extension);
    OnlyTest(s, p, base, i);
    MappedIff(s, p, t);
    MappedIsPlanned(s, paths, p, t);
  }

  lemma {:induction false} BaseOfSource(dir: string, base: string, extension: string)
    requires '/' !in base && extension in [".ts", ".js", ".tsx", ".jsx", ".mts", ".cts"]
    ensures StripExtension(Basename(dir + "/" + base + extension)) == base
  {
    hide Basename, StripExtension;
    assert '/' !in base + extension;
    assert dir + "/" + base + extension == dir + "/" + (base + extension);
    BasenameOf(dir, base + extension);
    StripExtensionOf(base, extension);
  }

  lemma {:induction false} OnlyTest(s: Scope, p: string, base: string, i: nat)
    requires i < |s.tables.testFiles|
    requires forall j | 0 <= j < |s.tables.testFiles| ::
               (&& StartsWith(s.tables.testFiles[j], ScopePrefix(p, s.packages))
                && Basename(s.tables.testFiles[j]) in [base + ".test.ts", base + ".test.tsx"]) <==> j == i
    ensures OnlyMatch(s.tables.testFiles, base, ScopePrefix(p, s.packages), i)
  {
    hide StartsWith, Basename, ScopePrefix;
  }

  lemma {:induction false} MappedIsPlanned(s: Scope, paths: seq<string>, p: string, t: string)
    requires p in paths && Relevant(p) && Open(p) && t in MappedTests(s, p) && (s.tables.validate ==> s.tables.present(t))
    ensures Test(t) in PlanKeys(s, paths)
  {
    hide PlanKeys, Relevant, Early, Rust, Install, MappedTests;
    assert CallsTest(s, p, t);
    hide CallsTest;
    TestIff(s, paths, t);
  }

  /** Every workflow file that is no document is parsed, self-tested and checked for permissions. */
  lemma {:induction false} WorkflowsAreChecked(s: Scope, paths: seq<string>, p: string)
    requires p in paths && StartsWith(p, ".github/workflows/") && !EndsWith(p, ".md")
    ensures forall kind | kind in {YamlParse, CiSelftest, CiDryRun, WorkflowPermissions} :: Fixed(kind) in PlanKeys(s, paths)
  {
    hide PlanKeys, EndsWith, StartsWith, FullWorkspace, CiHarness;
    PrefixesDiffer(p, ".github/workflows/", "docs/", 0);
    PrefixesDiffer(p, ".github/workflows/", ".gjc/", 2);
    CharAt(p, ".github/workflows/", 0);
    NotRootFile(p);
    assert Relevant(p) && !FullWorkspace(p) && Workflow(p);
    WorkflowIff(s, paths);
  }

  /** The planner's own scripts and tests are self-tested, dry-run and checked for permissions. */
  lemma {:induction false} CiScriptsAreChecked(s: Scope, paths: seq<string>, p: string)
    requires p in paths && p in ["scripts/ci-dev-affected.ts", "scripts/ci-dev-affected.test.ts", "scripts/run-bun-test-files.ts",
                                 "scripts/run-bun-test-files.test.ts", "scripts/dev-ci-guard-topology.test.ts", "scripts/check-workflow-yaml.ts",
                                 "scripts/check-workflow-permissions.ts", "scripts/check-workflow-permissions.test.ts",
                                 "scripts/ci-risk-canary-manifest.ts", "scripts/ci-risk-canary-manifest.test.ts",
                                 "scripts/ci-virtual-integration.ts", "scripts/ci-virtual-integration.test.ts"]
    ensures forall kind | kind in {CiSelftest, CiDryRun, WorkflowPermissions} :: Fixed(kind) in PlanKeys(s, paths)
  {
    assert CiHarness(p) && p[0] == 's' && p[|p| - 1] == 's';
    hide PlanKeys, CiHarness, FullWorkspace, EndsWith;
    NotRootFile(p);
    if StartsWith(p, "docs/") { CharAt(p, "docs/", 0); }
    if StartsWith(p, ".gjc/") { CharAt(p, ".gjc/", 0); }
    if EndsWith(p, ".md") { MarkdownEnds(p); }
    hide StartsWith;
    assert Relevant(p);
    WorkflowIff(s, paths);
  }

  /** Install scripts and the Docker files have the install methods tried. */
  lemma {:induction false} InstallersAreTried(s: Scope, paths: seq<string>, p: string)
    requires p in paths && !EndsWith(p, ".md") && !Rust(p) && !CiHarness(p)
    requires StartsWith(p, "scripts/install") || p == "Dockerfile" || p == "Dockerfile.dockerignore"
    ensures Fixed(InstallMethods) in PlanKeys(s, paths)
  {
    hide PlanKeys, EndsWith, FullWorkspace, CiHarness, Rust;
    assert p[0] == 's' || p[0] == 'D' by { if StartsWith(p, "scripts/install") { CharAt(p, "scripts/install", 0); } }
    NotRootFile(p);
    if StartsWith(p, "docs/") { CharAt(p, "docs/", 0); }
    if StartsWith(p, ".gjc/") { CharAt(p, ".gjc/", 0); }
    if StartsWith(p, ".github/workflows/") { CharAt(p, ".github/workflows/", 0); }
    hide StartsWith;
    assert Relevant(p) && !Early(p) && Install(p);
    InstallIff(s, paths);
  }

  /** A document outside the embedded ones: markdown that no runtime bundles, or anything under docs or .gjc. */
  predicate FreeDocument(s: Scope, p: string) {
    && (|| StartsWith(p, "docs/") || StartsWith(p, ".gjc/")
        || (&& EndsWith(p, ".md") && !StartsWith(p, "packages/coding-agent/src/") && !StartsWith(p, "packages/agent/src/")
            && !StartsWith(p, "packages/ai/src/")))
    && !(StartsWith(p, "docs/") && EndsWith(p, ".md")) && p != s.tables.gates.docsIndex && p != s.tables.gates.customDoc
  }

  lemma {:induction false} FreeIsIrrelevant(s: Scope, p: string)
    requires FreeDocument(s, p)
    ensures !Relevant(p) && !EmbeddedDocs(s, p)
  {
    hide EndsWith, StartsWith;
    if StartsWith(p, "docs/") || StartsWith(p, ".gjc/") {
      var prefix := if StartsWith(p, "docs/") then "docs/" else ".gjc/";
      PrefixesDiffer(p, prefix, "packages/coding-agent/src/", 0);
      PrefixesDiffer(p, prefix, "packages/agent/src/", 0);
      PrefixesDiffer(p, prefix, "packages/ai/src/", 0);
    }
  }

  /** Changes to such documents alone plan nothing at all. */
  lemma {:induction false} DocumentsAreFree(s: Scope, paths: seq<string>)
    requires forall p | p in paths :: FreeDocument(s, p)
    ensures PlanKeys(s, paths) == {}
  {
    hide Relevant, EmbeddedDocs, FreeDocument;
    assert s.tables.gates.customDoc !in paths by {
      if s.tables.gates.customDoc in paths { NotCustom(s, s.tables.gates.customDoc); }
    }
    forall p | p in paths
      ensures !Relevant(p) && !EmbeddedDocs(s, p)
    {
      FreeIsIrrelevant(s, p);
    }
    NothingRelevant(paths);
    hide RelevantPaths;
  }

  lemma {:induction false} NothingRelevant(paths: seq<string>)
    requires forall p | p in paths :: !Relevant(p)
    ensures RelevantPaths(paths) == []
  {
    hide Relevant;
    if paths != [] { NothingRelevant(paths[1..]); }
  }

  lemma {:induction false} NotCustom(s: Scope, p: string)
    requires FreeDocument(s, p)
    ensures p != s.tables.gates.customDoc
  {
  }

  /** Markdown bundled into a runtime is source: it reaches the test mapping. */
  lemma {:induction false} BundledPromptsAreSource(p: string)
    requires EndsWith(p, ".md")
    requires StartsWith(p, "packages/coding-agent/src/") || StartsWith(p, "packages/agent/src/") || StartsWith(p, "packages/ai/src/")
    ensures Relevant(p) && Open(p)
  {
    MarkdownEnds(p);
    assert p[0] == 'p' && p[8] == '/' by {
      var prefix := if StartsWith(p, "packages/coding-agent/src/") then "packages/coding-agent/src/"
                    else if StartsWith(p, "packages/agent/src/") then "packages/agent/src/" else "packages/ai/src/";
      CharAt(p, prefix, 0);
      CharAt(p, prefix, 8);
    }
    if FullWorkspace(p) { FullStarts(p); }
    if Workflow(p) { FirstChar(p, ".github/workflows/"); }
    if CiHarness(p) { HarnessStarts(p); }
    if Rust(p) { RustEnds(p); }
    if Install(p) { InstallStarts(p); }
    hide FullWorkspace, CiHarness, Rust, Install, Workflow;
  }
}
