/** Changed paths and the workspace, as the targeted planner sees them. */
module AffectedPaths {
  import opened AffectedTasks
  import opened ChangedPaths
  import opened ChangelogLines
  import opened Text
  import opened Wrappers

  /** A workspace package and whether its manifest has check and test scripts. */
  datatype Workspace = Workspace(name: string, dir: string, hasCheck: bool, hasTest: bool)

  predicate Inside(path: string, dir: string) {
    path == dir || StartsWith(path, dir + "/")
  }

  function Owner(path: string, packages: seq<Workspace>): Option<Workspace> {
    if packages == [] then None
    else if Inside(path, packages[0].dir) then Some(packages[0])
    else Owner(path, packages[1..])
  }

  // ---- Path classes ----

  predicate Doc(path: string) {
    EndsWith(path, ".md") || StartsWith(path, "docs/") || StartsWith(path, ".gjc/")
  }

  predicate RuntimeMarkdown(path: string) {
    && EndsWith(path, ".md")
    && (StartsWith(path, "packages/coding-agent/src/") || StartsWith(path, "packages/agent/src/") || StartsWith(path, "packages/ai/src/"))
  }

  predicate Relevant(path: string) {
    !Doc(path) || RuntimeMarkdown(path)
  }

  predicate FullWorkspace(path: string) {
    path in ["package.json", "bunfig.toml", "biome.json", "tsconfig.json", "tsconfig.base.json", "tsconfig.tools.json"]
  }

  predicate Workflow(path: string) {
    StartsWith(path, ".github/workflows/")
  }

  predicate CiHarness(path: string) {
    path in ["scripts/ci-dev-affected.ts", "scripts/ci-dev-affected.test.ts", "scripts/run-bun-test-files.ts",
             "scripts/run-bun-test-files.test.ts", "scripts/dev-ci-guard-topology.test.ts", "scripts/check-workflow-yaml.ts",
             "scripts/check-workflow-permissions.ts", "scripts/check-workflow-permissions.test.ts",
             "scripts/ci-risk-canary-manifest.ts", "scripts/ci-risk-canary-manifest.test.ts",
             "scripts/ci-virtual-integration.ts", "scripts/ci-virtual-integration.test.ts"]
  }

  function Basename(path: string): string {
    var parts := Split(path, '/');
    parts[|parts| - 1]
  }

  function Dirname(path: string): string {
    var parts := Split(path, '/');
    if |parts| == 1 then "." else Join(parts[..|parts| - 1], '/')
  }

  predicate Rust(path: string) {
    || StartsWith(path, "crates/") || StartsWith(path, ".cargo/")
    || Basename(path) in ["Cargo.toml", "Cargo.lock", "rust-toolchain", "rust-toolchain.toml", "rustfmt.toml", ".rustfmt.toml",
                          "clippy.toml", ".clippy.toml"]
  }

  predicate Install(path: string) {
    StartsWith(path, "scripts/install") || path == "Dockerfile" || path == "Dockerfile.dockerignore"
  }

  /** The branches of the path loop that never reach the test mapping. */
  predicate Diverted(path: string) {
    FullWorkspace(path) || Workflow(path) || CiHarness(path) || Rust(path) || Install(path)
  }

  lemma {:induction false} FirstChar(path: string, prefix: string)
    requires prefix != "" && StartsWith(path, prefix)
    ensures path != "" && path[0] == prefix[0]
  {
    assert path[..|prefix|][0] == prefix[0];
  }

  lemma {:induction false} LastCharOfBasename(path: string)
    requires path != "" && path[|path| - 1] != '/'
    ensures Basename(path) != "" && Basename(path)[|Basename(path)| - 1] == path[|path| - 1]
  {
    if |path| > 1 {
      LastCharOfBasename(path[1..]);
    } else {
      assert Split(path[1..], '/') == [""];
    }
  }

  lemma {:induction false} TestFileEnds(path: string)
    requires TestFile(path)
    ensures path != "" && (path[|path| - 1] == 's' || path[|path| - 1] == 'x')
  {
    if EndsWith(path, ".test.ts") {
      assert path[|path| - 8..][7] == path[|path| - 1];
    } else {
      assert path[|path| - 9..][8] == path[|path| - 1];
    }
  }

  lemma {:induction false} MarkdownEnds(path: string)
    requires EndsWith(path, ".md")
    ensures path != "" && path[|path| - 1] == 'd'
  {
    assert path[|path| - 3..][2] == path[|path| - 1];
  }

  lemma {:induction false} DocStarts(path: string)
    requires Doc(path)
    ensures path != "" && (path[|path| - 1] == 'd' || path[0] == 'd' || path[0] == '.')
  {
    if EndsWith(path, ".md") {
      MarkdownEnds(path);
    } else if StartsWith(path, "docs/") {
      FirstChar(path, "docs/");
    } else {
      FirstChar(path, ".gjc/");
    }
  }

  lemma {:induction false} FullStarts(path: string)
    requires FullWorkspace(path)
    ensures path == "package.json" || (path != "" && path[0] != 'p')
  {
  }

  lemma {:induction false} HarnessStarts(path: string)
    requires CiHarness(path)
    ensures path != "" && path[0] == 's'
  {
  }

  lemma {:induction false} RustEnds(path: string)
    requires Rust(path) && path != "" && path[0] == 'p' && path[|path| - 1] != '/'
    ensures path[|path| - 1] == 'l' || path[|path| - 1] == 'k' || path[|path| - 1] == 'n'
  {
    LastCharOfBasename(path);
    if StartsWith(path, "crates/") {
      FirstChar(path, "crates/");
    } else if StartsWith(path, ".cargo/") {
      FirstChar(path, ".cargo/");
    }
  }

  lemma {:induction false} InstallStarts(path: string)
    requires Install(path)
    ensures path != "" && (path[0] == 's' || path[0] == 'D')
  {
    if StartsWith(path, "scripts/install") { FirstChar(path, "scripts/install"); }
  }

  /** No package test takes a branch that skips the test mapping. */
  lemma {:induction false} PackageTestIsMapped(path: string)
    requires PackageTest(path)
    ensures Relevant(path) && !Diverted(path)
  {
    TestFileEnds(path);
    FirstChar(path, "packages/");
    assert path[..9][8] == path[8] == '/';
    if Doc(path) { DocStarts(path); }
    if FullWorkspace(path) { FullStarts(path); }
    if Workflow(path) { FirstChar(path, ".github/workflows/"); }
    if CiHarness(path) { HarnessStarts(path); }
    if Rust(path) { RustEnds(path); }
    if Install(path) { InstallStarts(path); }
  }
}

/** Task keys as the targeted planner builds them. */
module PlannerKeys {
  import opened AffectedTasks
  import opened ChangelogLines

  datatype Kind =
    | RootCheck | RootTestRelease | NativeLinux | RustCheck | RustTest | InstallMethods | ReleaseContract | ReleaseDryRun
    | WrapperVersion | CheckSchemas | SdkSmoke | CliSmoke | CiSelftest | CiDryRun | YamlParse | WorkflowPermissions

  /** A fixed task, the test of a file or package, or the check of a package. */
  datatype Key = Fixed(kind: Kind) | Test(subject: string) | Check(package: string)

  function Text(k: Kind): string {
    match k
    case RootCheck => "root-check"
    case RootTestRelease => "root-test:release"
    case NativeLinux => "native-linux-x64"
    case RustCheck => "rust-check"
    case RustTest => "rust-test"
    case InstallMethods => "install-methods"
    case ReleaseContract => "release-publish-contract"
    case ReleaseDryRun => "release-publish-dry-run"
    case WrapperVersion => "wrapper-version"
    case CheckSchemas => "check-schemas"
    case SdkSmoke => "sdk-package-smoke"
    case CliSmoke => "cli-smoke"
    case CiSelftest => "ci-selftest"
    case CiDryRun => "ci-dry-run"
    case YamlParse => "yaml-parse"
    case WorkflowPermissions => "workflow-permissions"
  }

  function Render(k: Key): string {
    match k
    case Fixed(kind) => Text(kind)
    case Test(subject) => "test:" + subject
    case Check(package) => "check:" + package
  }

  // Length and second character tell the fixed keys apart.

  function Length(k: Kind): nat {
    match k
    case RootCheck => 10 case RootTestRelease => 17 case NativeLinux => 16 case RustCheck => 10 case RustTest => 9
    case InstallMethods => 15 case ReleaseContract => 24 case ReleaseDryRun => 23 case WrapperVersion => 15
    case CheckSchemas => 13 case SdkSmoke => 17 case CliSmoke => 9 case CiSelftest => 11 case CiDryRun => 10
    case YamlParse => 10 case WorkflowPermissions => 20
  }

  function Second(k: Kind): char {
    match k
    case RootCheck => 'o' case RootTestRelease => 'o' case NativeLinux => 'a' case RustCheck => 'u' case RustTest => 'u'
    case InstallMethods => 'n' case ReleaseContract => 'e' case ReleaseDryRun => 'e' case WrapperVersion => 'r'
    case CheckSchemas => 'h' case SdkSmoke => 'd' case CliSmoke => 'l' case CiSelftest => 'i' case CiDryRun => 'i'
    case YamlParse => 'a' case WorkflowPermissions => 'o'
  }

  lemma {:induction false} TextShape(k: Kind)
    ensures |Text(k)| == Length(k) && Text(k)[1] == Second(k)
    ensures Second(k) == 'e' ==> Text(k)[0] == 'r'
    ensures k == CheckSchemas ==> Text(k)[5] == '-'
  {
  }

  lemma {:induction false} TextEnds(k: Kind)
    ensures '-' <= Text(k)[0] <= 'z' && '-' <= Text(k)[|Text(k)| - 1] <= 'z'
  {
    match k
    case NativeLinux => assert Text(k)[15] == '4';
    case _ =>
  }

  lemma {:induction false} TextIsInjective(j: Kind, k: Kind)
    requires Text(j) == Text(k)
    ensures j == k
  {
    TextShape(j);
    TextShape(k);
  }

  lemma {:induction false} PrefixShape(k: Key)
    ensures k.Test? ==> |Render(k)| > 4 && Render(k)[0] == 't' && Render(k)[1] == 'e' && Render(k)[5..] == k.subject
    ensures k.Check? ==> |Render(k)| > 5 && Render(k)[0] == 'c' && Render(k)[1] == 'h' && Render(k)[5] == ':' && Render(k)[6..] == k.package
  {
  }

  /** Different keys are different strings. */
  lemma {:induction false} RenderIsInjective(j: Key, k: Key)
    requires Render(j) == Render(k)
    ensures j == k
  {
    PrefixShape(j);
    PrefixShape(k);
    if j.Fixed? { TextShape(j.kind); }
    if k.Fixed? { TextShape(k.kind); }
    if j.Fixed? && k.Fixed? { TextIsInjective(j.kind, k.kind); }
  }

  // ---- Native capabilities of planner keys ----

  predicate WantsNative(k: Key) {
    match k
    case Fixed(kind) =>
      || kind.RootCheck? || kind.RootTestRelease? || kind.ReleaseContract? || kind.WrapperVersion? || kind.SdkSmoke? || kind.CliSmoke?
    case Test(_) => true
    case Check(package) => package == "@gajae-code/coding-agent"
  }

  predicate BuildsNative(k: Key) {
    k == Fixed(NativeLinux)
  }

  lemma {:induction false} TestPrefix(key: string)
    requires StartsWith(key, "test:")
    ensures |key| > 4 && key[0] == 't' && key[1] == 'e'
  {
    assert key[..5][0] == key[0] && key[..5][1] == key[1];
  }

  lemma {:induction false} NeedsNativeShape(key: string)
    requires NeedsNative(key) && !StartsWith(key, "test:")
    ensures |key| > 1 && (
              || (|key| == 11 && key[1] == 'y') || (|key| == 9 && key[1] == 'o') || (|key| == 17 && key[1] == 'o') || |key| == 24
              || (|key| == 10 && key[1] == 'o') || key == "check:" + "@gajae-code/coding-agent"
              || (|key| == 9 && key[1] == 'l') || (|key| == 13 && key[1] == 'u') || (|key| == 15 && key[1] == 'r')
              || |key| == 26 || |key| == 22 || (|key| == 17 && key[1] == 'd'))
  {
  }

  lemma {:induction false} FixedNeedsNative(kind: Kind)
    ensures NeedsNative(Text(kind)) <==> WantsNative(Fixed(kind))
  {
    var key := Text(kind);
    TextShape(kind);
    if NeedsNative(key) {
      if StartsWith(key, "test:") { TestPrefix(key); } else { NeedsNativeShape(key); }
    }
  }

  lemma {:induction false} SamePrefix(prefix: string, a: string, b: string)
    ensures prefix + a == prefix + b <==> a == b
  {
    assert (prefix + a)[|prefix|..] == a && (prefix + b)[|prefix|..] == b;
  }

  lemma {:induction false} CheckNeedsNative(package: string)
    ensures NeedsNative("check:" + package) <==> package == "@gajae-code/coding-agent"
  {
    var key := "check:" + package;
    PrefixShape(Check(package));
    SamePrefix("check:", package, "@gajae-code/coding-agent");
    if NeedsNative(key) {
      hide NeedsNative;
      if StartsWith(key, "test:") { TestPrefix(key); } else { NeedsNativeShape(key); }
    }
  }

  /** The key tests on strings are the ones on planner keys. */
  lemma {:induction false} NativeAgrees(k: Key)
    ensures NeedsNative(Render(k)) <==> WantsNative(k)
    ensures NativeBuildKey(Render(k)) <==> BuildsNative(k)
  {
    PrefixShape(k);
    match k
    case Fixed(kind) =>
      FixedNeedsNative(kind);
      TextShape(kind);
    case Test(subject) => assert Render(k)[..5] == "test:";
    case Check(package) => CheckNeedsNative(package);
  }

  // ---- Rust capabilities of planner keys ----

  lemma {:induction false} PartitionShape(key: string)
    requires RustTestKey(key)
    ensures key == "rust-test" || (|key| >= 20 && key[0] == 'r' && key[1] == 'u')
  {
    if StartsWith(key, "rust-test:partition-") {
      assert key[..20][0] == key[0] && key[..20][1] == key[1];
    }
  }

  lemma {:induction false} FixedNeedsRust(kind: Kind)
    ensures NeedsRust(Text(kind)) <==> kind in {RustCheck, RustTest, CiSelftest, CiDryRun}
    ensures RustTestKey(Text(kind)) <==> kind == RustTest
  {
    var key := Text(kind);
    TextShape(kind);
    assert |"affected-selftest"| == 17 && "affected-selftest"[1] == 'f' && |"affected-dry-run"| == 16 && "affected-dry-run"[1] == 'f';
    if RustTestKey(key) { PartitionShape(key); }
    PrefixShape(Test(OWNER_SESSION_TEST));
    PrefixShape(Test(NATIVE_TASK_PANIC_TEST));
    hide RustTestKey;
  }

  lemma {:induction false} TestNeedsRust(subject: string)
    ensures NeedsRust("test:" + subject) <==> subject == OWNER_SESSION_TEST || subject == NATIVE_TASK_PANIC_TEST
    ensures !RustTestKey("test:" + subject)
  {
    var key := "test:" + subject;
    assert key[0] == 't' && key[1] == 'e';
    if RustTestKey(key) { PartitionShape(key); }
    SamePrefix("test:", subject, OWNER_SESSION_TEST);
    SamePrefix("test:", subject, NATIVE_TASK_PANIC_TEST);
    hide RustTestKey;
  }

  lemma {:induction false} CheckNeedsNoRust(package: string)
    ensures !NeedsRust("check:" + package) && !RustTestKey("check:" + package)
  {
    var key := "check:" + package;
    assert key[0] == 'c' && key[1] == 'h';
    if RustTestKey(key) { PartitionShape(key); }
    PrefixShape(Test(OWNER_SESSION_TEST));
    PrefixShape(Test(NATIVE_TASK_PANIC_TEST));
    hide RustTestKey;
  }

  /** The tasks that get a Rust toolchain: the Rust ones, the planner's own tests, and two tests that build crates. */
  lemma {:induction false} RustAgrees(k: Key)
    ensures NeedsRust(Render(k)) <==>
            || k in {Fixed(RustCheck), Fixed(RustTest), Fixed(CiSelftest), Fixed(CiDryRun)}
            || k == Test("packages/coding-agent/test/tools/bash-master-owner-session-id.test.ts")
            || k == Test("packages/natives/test/task-panic-to-rejection.test.ts")
    ensures RustTestKey(Render(k)) <==> k == Fixed(RustTest)
  {
    hide NeedsRust, RustTestKey, Text;
    match k
    case Fixed(kind) => FixedNeedsRust(kind);
    case Test(subject) => TestNeedsRust(subject);
    case Check(package) => CheckNeedsNoRust(package);
  }
}

/** The targeted (pull-request) planner: an insertion-ordered task map filled path by path. */
module AffectedPlan {
  import opened AffectedPaths
  import opened AffectedTasks
  import opened ChangedPaths
  import opened ChangelogLines
  import opened Decimal
  import opened PlannerKeys
  import opened Text
  import opened Wrappers

  /** Path tables kept abstract, the discovered test files, and what is on disk. */
  datatype Tables = Tables(
    aiCatalog: string -> bool, releasePublish: string -> bool, wrapper: string -> bool, schemaContract: string -> bool,
    sdkSmoke: string -> bool, shardOne: string -> bool, runtime: string -> bool, codeIsh: string -> bool,
    behavioral: string -> seq<string>, darwinSmoke: string -> bool, releaseHarness: string -> bool, riskClasses: seq<RiskClass>,
    gates: Gates, shards: nat, testFiles: seq<string>, present: string -> bool, validate: bool)

  /** Paths at risk together, and the tests that watch them. */
  datatype RiskClass = RiskClass(matches: string -> bool, canaries: seq<string>)

  /** Named tests and documents that have rules of their own. */
  datatype Gates = Gates(ownerSession: string, docsGate: string, docsIndex: string, customDoc: string, customTest: string, releaseEvidence: string)

  datatype Scope = Scope(packages: seq<Workspace>, tables: Tables)

  // ---- Mapped tests ----

  function StripExtension(base: string): string {
    if EndsWith(base, ".ts") || EndsWith(base, ".js") then base[..|base| - 3]
    else if EndsWith(base, ".tsx") || EndsWith(base, ".jsx") || EndsWith(base, ".mts") || EndsWith(base, ".cts") then base[..|base| - 4]
    else base
  }

  predicate PackageTestExists(path: string, present: string -> bool) {
    && PackageTest(path)
    && (forall i | 0 <= i < |Split(path, '/')| ::
          Split(path, '/')[i] != "" && Split(path, '/')[i] != "." && Split(path, '/')[i] != "..")
    && present(path)
  }

  /** A test file named after the base, within the scope. */
  predicate NamedAfter(file: string, base: string, prefix: string) {
    (Basename(file) == base + ".test.ts" || Basename(file) == base + ".test.tsx") && StartsWith(file, prefix)
  }

  function Matching(files: seq<string>, base: string, prefix: string): seq<string> {
    if files == [] then []
    else (if NamedAfter(files[0], base, prefix) then [files[0]] else []) + Matching(files[1..], base, prefix)
  }

  /** The directory of the owning package, or of the file itself. */
  function ScopePrefix(path: string, packages: seq<Workspace>): string {
    var owner := Owner(path, packages);
    if owner.Some? then owner.value.dir + "/" else Dirname(path) + "/"
  }

  /** The changed test itself, or the only test named after the changed file in its scope. */
  function MappedTests(s: Scope, path: string): (r: seq<string>)
    ensures |r| <= 1
    ensures PackageTestExists(path, s.tables.present) ==> r == [path]
  {
    if TestFile(path) then
      if path in s.tables.testFiles || PackageTestExists(path, s.tables.present) then [path] else []
    else
      var base := StripExtension(Basename(path));
      if base == "" then []
      else
        var matches := Matching(s.tables.testFiles, base, ScopePrefix(path, s.packages));
        if |matches| == 1 then matches else []
  }

  /** Position i holds the only file named after the base in the scope. */
  ghost predicate OnlyMatch(files: seq<string>, base: string, prefix: string, i: nat) {
    i < |files| && forall j | 0 <= j < |files| :: NamedAfter(files[j], base, prefix) <==> j == i
  }

  lemma {:induction false} MatchingNone(files: seq<string>, base: string, prefix: string)
    ensures Matching(files, base, prefix) == [] <==> forall j | 0 <= j < |files| :: !NamedAfter(files[j], base, prefix)
  {
    hide NamedAfter;
    if files != [] {
      MatchingNone(files[1..], base, prefix);
      assert forall j | 1 <= j < |files| :: files[j] == files[1..][j - 1];
    }
  }

  lemma {:induction false} MatchingOne(files: seq<string>, base: string, prefix: string, t: string)
    ensures Matching(files, base, prefix) == [t] <==> exists i: nat :: OnlyMatch(files, base, prefix, i) && files[i] == t
  {
    hide NamedAfter;
    if files != [] {
      var rest := files[1..];
      MatchingNone(rest, base, prefix);
      MatchingOne(rest, base, prefix, t);
      assert forall j | 1 <= j < |files| :: files[j] == rest[j - 1];
      if NamedAfter(files[0], base, prefix) {
        assert Matching(files, base, prefix) == [files[0]] + Matching(rest, base, prefix);
        if Matching(files, base, prefix) == [t] {
          assert |Matching(rest, base, prefix)| == 0;
          assert Matching(files, base, prefix)[0] == files[0];
          assert files[0] == t;
          assert OnlyMatch(files, base, prefix, 0);
        }
        assert forall j | 0 <= j < |rest| :: rest[j] == files[j + 1];
        if i: nat :| OnlyMatch(files, base, prefix, i) && files[i] == t { assert i == 0; }
      } else {
        if i: nat :| OnlyMatch(rest, base, prefix, i) && rest[i] == t { assert OnlyMatch(files, base, prefix, i + 1); }
        if i: nat :| OnlyMatch(files, base, prefix, i) && files[i] == t {
          assert i != 0;
          assert OnlyMatch(rest, base, prefix, i - 1);
        }
      }
    }
  }

  /** Any other file maps to a test exactly when it is the only one named after the file in its scope. */
  lemma {:induction false} MappedIff(s: Scope, path: string, t: string)
    requires !TestFile(path)
    ensures t in MappedTests(s, path) <==>
            var base := StripExtension(Basename(path));
            base != "" && exists i: nat :: OnlyMatch(s.tables.testFiles, base, ScopePrefix(path, s.packages), i) && s.tables.testFiles[i] == t
  {
    var base, prefix := StripExtension(Basename(path)), ScopePrefix(path, s.packages);
    MatchingOne(s.tables.testFiles, base, prefix, t);
    var matches := Matching(s.tables.testFiles, base, prefix);
    hide OnlyMatch, Matching, ScopePrefix, StripExtension, Basename, PackageTest, TestFile;
    if |matches| == 1 { assert t in matches <==> matches == [t]; }
  }

  // ---- Which keys a plan contains ----

  const CODING_AGENT := "@gajae-code/coding-agent"
  const CODING_AGENT_DIR := "packages" + "/" + "coding-agent"

  function ShardKey(i: nat, n: nat): (k: Key)
    ensures k.Test?
  {
    Test(CODING_AGENT + ":shard-" + ToDecimal(i) + "-of-" + ToDecimal(n))
  }

  function SdkHostKey(): (k: Key)
    ensures k.Test?
  {
    Test(CODING_AGENT + ":sdk-production-host-isolated")
  }

  function ShardKeys(from: nat, n: nat): set<Key>
    decreases n + 1 - from
  {
    if from > n then {} else {ShardKey(from, n)} + ShardKeys(from + 1, n)
  }

  function TestKeys(s: Scope, files: seq<string>, required: bool): set<Key> {
    if files == [] then {}
    else (if required && !s.tables.present(files[0]) then {} else {Test(files[0])}) + TestKeys(s, files[1..], required)
  }

  function PackageKeys(s: Scope, w: Workspace): set<Key> {
    if w.name == "@gajae-code/natives" then {Test(w.name), Test(NATIVE_TASK_PANIC_TEST)}
    else if w.name == CODING_AGENT then {Test(s.tables.gates.ownerSession), SdkHostKey()} + ShardKeys(1, s.tables.shards)
    else {Test(w.name)}
  }

  function WorkspaceKeys(s: Scope, ws: seq<Workspace>): set<Key> {
    if ws == [] then {} else (if ws[0].hasTest then PackageKeys(s, ws[0]) else {}) + WorkspaceKeys(s, ws[1..])
  }

  function AiPackage(ws: seq<Workspace>): Option<Workspace> {
    if ws == [] then None else if ws[0].name == "@gajae-code/ai" then Some(ws[0]) else AiPackage(ws[1..])
  }

  function CheckKeys(s: Scope, path: string): set<Key> {
    var owner := Owner(path, s.packages);
    if owner.Some? && owner.value.hasCheck then {Check(owner.value.name)} else {}
  }

  function AiKeys(s: Scope, path: string): set<Key> {
    if s.tables.aiCatalog(path) && AiPackage(s.packages).Some? then PackageKeys(s, AiPackage(s.packages).value) else {}
  }

  function ContractKeys(s: Scope, path: string): set<Key> {
    (if s.tables.releasePublish(path)
     then {Fixed(ReleaseContract), Fixed(ReleaseDryRun), Test(s.tables.gates.releaseEvidence)}
          + if s.tables.wrapper(path) then {Fixed(WrapperVersion)} else {}
     else {})
    + (if s.tables.schemaContract(path) then {Fixed(CheckSchemas)} else {})
    + if s.tables.sdkSmoke(path) then {Fixed(SdkSmoke)} + CheckKeys(s, path) else {}
  }

  predicate Covered(s: Scope, path: string) {
    MappedTests(s, path) != [] || (EndsWith(path, ".md") && s.tables.behavioral(path) != [])
  }

  function FallbackKeys(s: Scope, path: string): set<Key> {
    if Covered(s, path) then {}
    else if Owner(path, s.packages).Some? then
      (if s.tables.runtime(path) || RuntimeMarkdown(path) then {Fixed(CliSmoke)} else {})
      + if s.tables.wrapper(path) then {Fixed(WrapperVersion)} else {}
    else if s.tables.codeIsh(path) then {Fixed(RootCheck)}
    else {}
  }

  /** The keys one changed path asks for by itself. */
  function PathKeys(s: Scope, path: string): set<Key> {
    if FullWorkspace(path) then {}
    else if Workflow(path) || CiHarness(path) then AiKeys(s, path)
    else if Rust(path) then AiKeys(s, path) + {Fixed(RustCheck), Fixed(RustTest)} + TestKeys(s, s.tables.behavioral(path), s.tables.validate)
    else if Install(path) then AiKeys(s, path) + {Fixed(InstallMethods)}
    else
      AiKeys(s, path) + ContractKeys(s, path)
      + TestKeys(s, MappedTests(s, path), s.tables.validate) + TestKeys(s, s.tables.behavioral(path), s.tables.validate)
      + (if s.tables.shardOne(path) then {ShardKey(1, s.tables.shards), SdkHostKey()} else {})
      + CheckKeys(s, path) + FallbackKeys(s, path)
  }

  function PathsKeys(s: Scope, paths: seq<string>): set<Key> {
    if paths == [] then {} else PathsKeys(s, paths[..|paths| - 1]) + PathKeys(s, paths[|paths| - 1])
  }

  function RelevantPaths(paths: seq<string>): (r: seq<string>)
    ensures forall p | p in r :: p in paths && Relevant(p)
    ensures forall p | p in paths && Relevant(p) :: p in r
  {
    if paths == [] then [] else (if Relevant(paths[0]) then [paths[0]] else []) + RelevantPaths(paths[1..])
  }

  predicate EmbeddedDocs(s: Scope, path: string) {
    (StartsWith(path, "docs/") && EndsWith(path, ".md")) || path == s.tables.gates.docsIndex
  }

  function DocsKeys(s: Scope, paths: seq<string>): set<Key> {
    (if s.tables.gates.customDoc in paths then {Test(s.tables.gates.customTest), Fixed(NativeLinux)} else {})
    + if exists i | 0 <= i < |paths| :: EmbeddedDocs(s, paths[i]) then {Test(s.tables.gates.docsGate)} else {}
  }

  predicate HarnessPath(s: Scope, path: string) {
    path == "package.json" || s.tables.releasePublish(path) || s.tables.releaseHarness(path) || s.tables.wrapper(path)
  }

  /** The root manifest changed together with nothing but the release harness. */
  predicate HarnessOnly(s: Scope, relevant: seq<string>) {
    "package.json" in relevant && forall i | 0 <= i < |relevant| :: HarnessPath(s, relevant[i])
  }

  predicate Full(s: Scope, relevant: seq<string>) {
    (exists i | 0 <= i < |relevant| :: FullWorkspace(relevant[i])) && !HarnessOnly(s, relevant)
  }

  predicate AnyDarwin(s: Scope, relevant: seq<string>) {
    exists i | 0 <= i < |relevant| :: s.tables.darwinSmoke(relevant[i])
  }

  predicate AtRisk(c: RiskClass, paths: seq<string>) {
    exists i | 0 <= i < |paths| :: c.matches(paths[i])
  }

  function Canaries(classes: seq<RiskClass>, paths: seq<string>): seq<string> {
    if classes == [] then []
    else (if AtRisk(classes[0], paths) then classes[0].canaries else []) + Canaries(classes[1..], paths)
  }

  predicate AnyWorkflow(relevant: seq<string>) {
    exists i | 0 <= i < |relevant| :: !FullWorkspace(relevant[i]) && Workflow(relevant[i])
  }

  predicate AnyHarness(relevant: seq<string>) {
    exists i | 0 <= i < |relevant| :: !FullWorkspace(relevant[i]) && !Workflow(relevant[i]) && CiHarness(relevant[i])
  }

  function FullKeys(s: Scope, relevant: seq<string>): set<Key> {
    if Full(s, relevant) then {Fixed(RootCheck), Fixed(NativeLinux), Fixed(RootTestRelease)} + WorkspaceKeys(s, s.packages) else {}
  }

  /** Keys decided by the relevant paths together. */
  function LateKeys(s: Scope, relevant: seq<string>): set<Key> {
    (if AnyDarwin(s, relevant) then {Fixed(InstallMethods)} else {})
    + (if AnyWorkflow(relevant) || AnyHarness(relevant) then {Fixed(CiSelftest), Fixed(CiDryRun), Fixed(WorkflowPermissions)} else {})
    + (if AnyWorkflow(relevant) then {Fixed(YamlParse)} else {})
    + TestKeys(s, Canaries(s.tables.riskClasses, relevant), false)
  }

  function RelevantKeys(s: Scope, relevant: seq<string>): set<Key> {
    if relevant == [] then {} else FullKeys(s, relevant) + PathsKeys(s, relevant) + LateKeys(s, relevant)
  }

  /** The native producer is added when something needs it and nothing builds it. */
  function WithNative(keys: set<Key>): set<Key> {
    if (exists k | k in keys :: WantsNative(k)) && !(exists k | k in keys :: BuildsNative(k))
    then keys + {Fixed(NativeLinux)} else keys
  }

  /** Every key of the plan, as a union over the changed paths. */
  function PlanKeys(s: Scope, paths: seq<string>): set<Key> {
    WithNative(DocsKeys(s, paths) + RelevantKeys(s, RelevantPaths(paths)))
  }

  // ---- What every plan satisfies ----

  lemma {:induction false} PathKeysIncluded(s: Scope, paths: seq<string>, p: string)
    requires p in paths
    ensures PathKeys(s, p) <= PathsKeys(s, paths)
  {
    var n := |paths| - 1;
    if paths[n] != p {
      assert paths == paths[..n] + [paths[n]];
      PathKeysIncluded(s, paths[..n], p);
    }
  }

  /** A changed package test that exists has its own task. */
  lemma {:induction false} NoTestOmitted(s: Scope, paths: seq<string>, p: string)
    requires p in paths && PackageTestExists(p, s.tables.present)
    ensures Test(p) in PlanKeys(s, paths)
  {
    PackageTestIsMapped(p);
    assert p in RelevantPaths(paths);
    PathKeysIncluded(s, RelevantPaths(paths), p);
    assert Test(p) in TestKeys(s, [p], s.tables.validate);
    assert Test(p) in PathKeys(s, p);
  }

  /** A plan with a task that needs the native addon has a task that builds it. */
  lemma {:induction false} NativeIsBuilt(s: Scope, paths: seq<string>, k: Key)
    requires k in PlanKeys(s, paths) && WantsNative(k)
    ensures exists b | b in PlanKeys(s, paths) :: BuildsNative(b)
  {
    WithNativeBuilds(DocsKeys(s, paths) + RelevantKeys(s, RelevantPaths(paths)), k);
  }

  lemma {:induction false} WithNativeBuilds(keys: set<Key>, k: Key)
    requires k in WithNative(keys) && WantsNative(k)
    ensures exists b | b in WithNative(keys) :: BuildsNative(b)
  {
    assert BuildsNative(Fixed(NativeLinux));
    if k in keys && !(exists b | b in keys :: BuildsNative(b)) {
      assert Fixed(NativeLinux) in WithNative(keys);
    } else if k !in keys {
      assert k == Fixed(NativeLinux) && k in WithNative(keys);
    }
  }

  // ---- Only which paths changed matters, not their order or number ----

  ghost predicate SameMembers(a: seq<string>, b: seq<string>) {
    forall p :: p in a <==> p in b
  }

  /** A key is demanded exactly when some path demands it. */
  lemma {:induction false} PathsKeysIff(s: Scope, paths: seq<string>, k: Key)
    ensures k in PathsKeys(s, paths) <==> exists p | p in paths :: k in PathKeys(s, p)
  {
    hide PathKeys;
    if paths != [] {
      var n := |paths| - 1;
      PathsKeysIff(s, paths[..n], k);
      assert paths == paths[..n] + [paths[n]];
    }
  }

  lemma {:induction false} PathsKeysSame(s: Scope, a: seq<string>, b: seq<string>)
    requires SameMembers(a, b)
    ensures PathsKeys(s, a) == PathsKeys(s, b)
  {
    hide PathKeys, PathsKeys;
    forall k
      ensures k in PathsKeys(s, a) <==> k in PathsKeys(s, b)
    {
      PathsKeysIff(s, a, k);
      PathsKeysIff(s, b, k);
    }
  }

  lemma {:induction false} SomeSame(a: seq<string>, b: seq<string>, f: string -> bool)
    requires SameMembers(a, b)
    ensures (exists i | 0 <= i < |a| :: f(a[i])) <==> exists i | 0 <= i < |b| :: f(b[i])
  {
    if i :| 0 <= i < |a| && f(a[i]) {
      assert a[i] in b;
      var j :| 0 <= j < |b| && b[j] == a[i];
      assert f(b[j]);
    }
    if j :| 0 <= j < |b| && f(b[j]) {
      assert b[j] in a;
      var i :| 0 <= i < |a| && a[i] == b[j];
      assert f(a[i]);
    }
  }

  lemma {:induction false} CanariesSame(classes: seq<RiskClass>, a: seq<string>, b: seq<string>)
    requires SameMembers(a, b)
    ensures Canaries(classes, a) == Canaries(classes, b)
  {
    if classes != [] {
      SomeSame(a, b, classes[0].matches);
      CanariesSame(classes[1..], a, b);
    }
  }

  lemma {:induction false} HarnessSame(s: Scope, a: seq<string>, b: seq<string>)
    requires SameMembers(a, b)
    ensures HarnessOnly(s, a) <==> HarnessOnly(s, b)
  {
    hide HarnessPath;
    assert (forall i | 0 <= i < |a| :: HarnessPath(s, a[i])) <==> forall p | p in a :: HarnessPath(s, p);
    assert (forall i | 0 <= i < |b| :: HarnessPath(s, b[i])) <==> forall p | p in b :: HarnessPath(s, p);
  }

  lemma {:induction false} WorkflowsSame(a: seq<string>, b: seq<string>)
    requires SameMembers(a, b)
    ensures (AnyWorkflow(a) <==> AnyWorkflow(b)) && (AnyHarness(a) <==> AnyHarness(b))
  {
    hide FullWorkspace, Workflow, CiHarness;
    SomeSame(a, b, p => !FullWorkspace(p) && Workflow(p));
    SomeSame(a, b, p => !FullWorkspace(p) && !Workflow(p) && CiHarness(p));
  }

  lemma {:induction false} FullSame(s: Scope, a: seq<string>, b: seq<string>)
    requires SameMembers(a, b)
    ensures Full(s, a) <==> Full(s, b)
  {
    hide FullWorkspace, HarnessOnly;
    SomeSame(a, b, FullWorkspace);
    HarnessSame(s, a, b);
  }

  lemma {:induction false} DarwinSame(s: Scope, a: seq<string>, b: seq<string>)
    requires SameMembers(a, b)
    ensures AnyDarwin(s, a) <==> AnyDarwin(s, b)
  {
    SomeSame(a, b, s.tables.darwinSmoke);
  }

  lemma {:induction false} RelevantKeysSame(s: Scope, a: seq<string>, b: seq<string>)
    requires SameMembers(a, b)
    ensures RelevantKeys(s, a) == RelevantKeys(s, b)
  {
    hide PathsKeys, Full, AnyDarwin, AnyWorkflow, AnyHarness, Canaries, TestKeys, WorkspaceKeys;
    assert a == [] <==> b == [] by {
      if a != [] { assert a[0] in b; }
      if b != [] { assert b[0] in a; }
    }
    PathsKeysSame(s, a, b);
    FullSame(s, a, b);
    WorkflowsSame(a, b);
    DarwinSame(s, a, b);
    CanariesSame(s.tables.riskClasses, a, b);
  }

  /** The demanded keys depend on the set of changed paths alone. */
  lemma {:induction false} PlanIgnoresOrder(s: Scope, a: seq<string>, b: seq<string>)
    requires SameMembers(a, b)
    ensures PlanKeys(s, a) == PlanKeys(s, b)
  {
    assert SameMembers(RelevantPaths(a), RelevantPaths(b));
    RelevantKeysSame(s, RelevantPaths(a), RelevantPaths(b));
    SomeSame(a, b, p => EmbeddedDocs(s, p));
    hide RelevantKeys, RelevantPaths, WithNative, EmbeddedDocs;
  }

  // ---- The task map ----

  datatype Item = Item(key: Key, cwd: Option<string>, capabilities: Option<Capabilities>)

  /** The check or the test suite of a package, run in its directory. */
  predicate RunsIn(t: Item, w: Workspace) {
    t.cwd == Some(w.dir) && (t.key == Check(w.name) || t.key == Test(w.name))
  }

  /** A planner task runs at the root or in the package it is named after; none claims to consume the addon by itself. */
  predicate Housed(t: Item, packages: seq<Workspace>) {
    && (t.cwd.Some? ==> t == Item(SdkHostKey(), Some(CODING_AGENT_DIR), None) || exists i | 0 <= i < |packages| :: RunsIn(t, packages[i]))
    && (t.key.Check? ==> exists i | 0 <= i < |packages| :: packages[i].hasCheck && RunsIn(t, packages[i]))
    && (t.capabilities.Some? ==> !t.capabilities.value.nativeConsumer)
  }

  function KeySet(ts: seq<Item>): set<Key> {
    set i | 0 <= i < |ts| :: ts[i].key
  }

  predicate HasItem(ts: seq<Item>, key: Key) {
    exists i | 0 <= i < |ts| :: ts[i].key == key
  }

  lemma {:induction false} KeySetPush(ts: seq<Item>, t: Item)
    ensures KeySet(ts + [t]) == KeySet(ts) + {t.key}
    ensures t.key in KeySet(ts) <==> HasItem(ts, t.key)
  {
    forall k | k in KeySet(ts)
      ensures k in KeySet(ts + [t])
    {
      var i :| 0 <= i < |ts| && ts[i].key == k;
      assert (ts + [t])[i].key == k;
    }
    assert (ts + [t])[|ts|].key == t.key;
  }

  ghost predicate PlannerItems(ts: seq<Item>, packages: seq<Workspace>) {
    && (forall i, j | 0 <= i < j < |ts| :: ts[i].key != ts[j].key)
    && forall i | 0 <= i < |ts| :: Housed(ts[i], packages)
  }

  class TaskMap {
    const packages: seq<Workspace>
    var entries: seq<Item>
    ghost var keys: set<Key>

    constructor (packages: seq<Workspace>)
      ensures Valid() && entries == [] && keys == {} && this.packages == packages
    {
      this.packages := packages;
      entries := [];
      keys := {};
    }

    ghost predicate Valid()
      reads this
    {
      keys == KeySet(entries) && PlannerItems(entries, packages)
    }

    /** First insertion of a key wins. */
    method Add(key: Key, cwd: Option<string>, capabilities: Option<Capabilities>)
      requires Valid() && Housed(Item(key, cwd, capabilities), packages)
      modifies this
      ensures Valid() && keys == old(keys) + {key}
      ensures entries == old(entries) + if key in old(keys) then [] else [Item(key, cwd, capabilities)]
    {
      KeySetPush(entries, Item(key, cwd, capabilities));
      if !HasItem(entries, key) {
        entries := entries + [Item(key, cwd, capabilities)];
        keys := keys + {key};
      }
    }

    method AddPlain(key: Key)
      requires Valid() && !key.Check?
      modifies this
      ensures Valid() && keys == old(keys) + {key}
    {
      Add(key, None, None);
    }

    method AddTest(s: Scope, file: string, required: bool)
      requires Valid()
      modifies this
      ensures Valid() && keys == old(keys) + TestKeys(s, [file], required)
    {
      assert TestKeys(s, [file], required) == if required && !s.tables.present(file) then {} else {Test(file)};
      if required && !s.tables.present(file) {
        return;
      }
      AddPlain(Test(file));
    }

    method AddTests(s: Scope, files: seq<string>, required: bool)
      requires Valid()
      modifies this
      ensures Valid() && keys == old(keys) + TestKeys(s, files, required)
    {
      for i := 0 to |files|
        invariant Valid() && keys == old(keys) + TestKeys(s, files[..i], required)
      {
        TestKeysAppend(s, files[..i], [files[i]], required);
        assert files[..i + 1] == files[..i] + [files[i]];
        AddTest(s, files[i], required);
      }
      assert files[..|files|] == files;
    }

    method AddCheck(s: Scope, path: string)
      requires Valid() && packages == s.packages
      modifies this
      ensures Valid() && keys == old(keys) + CheckKeys(s, path)
    {
      var owner := Owner(path, s.packages);
      if owner.Some? && owner.value.hasCheck {
        OwnerIsPackage(path, s.packages);
        var i :| 0 <= i < |packages| && packages[i] == owner.value;
        assert RunsIn(Item(Check(owner.value.name), Some(owner.value.dir), None), packages[i]);
        Add(Check(owner.value.name), Some(owner.value.dir), None);
      }
    }

    method AddShards(s: Scope)
      requires Valid()
      modifies this
      ensures Valid() && keys == old(keys) + ShardKeys(1, s.tables.shards)
    {
      var shard, n := 1, s.tables.shards;
      while shard <= n
        invariant 1 <= shard && Valid()
        invariant keys + ShardKeys(shard, n) == old(keys) + ShardKeys(1, n)
        decreases n as int + 1 - shard as int
      {
        AddPlain(ShardKey(shard, n));
        shard := shard + 1;
      }
    }

    method AddPackageTests(s: Scope, w: Workspace)
      requires Valid() && packages == s.packages && w in packages
      modifies this
      ensures Valid() && keys == old(keys) + PackageKeys(s, w)
    {
      var i :| 0 <= i < |packages| && packages[i] == w;
      assert RunsIn(Item(Test(w.name), Some(w.dir), None), packages[i]);
      if w.name == "@gajae-code/ai" {
        AddPlain(Test(w.name));
        return;
      }
      if w.name == "@gajae-code/natives" {
        Add(Test(w.name), Some(w.dir), None);
        Add(Test(NATIVE_TASK_PANIC_TEST), None, Some(Capabilities(true, false, false, false)));
        return;
      }
      if w.name != CODING_AGENT {
        Add(Test(w.name), Some(w.dir), None);
        return;
      }
      AddPlain(Test(s.tables.gates.ownerSession));
      AddShards(s);
      AddSdkHost();
    }

    method AddSdkHost()
      requires Valid()
      modifies this
      ensures Valid() && keys == old(keys) + {SdkHostKey()}
    {
      Add(SdkHostKey(), Some(CODING_AGENT_DIR), None);
    }

    method AddWorkspaceTests(s: Scope)
      requires Valid() && packages == s.packages
      modifies this
      ensures Valid() && keys == old(keys) + {Fixed(RootTestRelease)} + WorkspaceKeys(s, s.packages)
    {
      hide KeySet, PlannerItems, PackageKeys, Housed;
      AddPlain(Fixed(RootTestRelease));
      for i := 0 to |packages|
        invariant Valid() && keys == old(keys) + {Fixed(RootTestRelease)} + WorkspaceKeys(s, packages[..i])
      {
        WorkspaceKeysAppend(s, packages[..i], packages[i]);
        assert packages[..i + 1] == packages[..i] + [packages[i]];
        if packages[i].hasTest {
          AddPackageTests(s, packages[i]);
        }
      }
      assert packages[..|packages|] == packages;
    }

    method AddContracts(s: Scope, path: string)
      requires Valid() && packages == s.packages
      modifies this
      ensures Valid() && keys == old(keys) + ContractKeys(s, path)
    {
      hide CheckKeys, KeySet, PlannerItems, Housed;
      if s.tables.releasePublish(path) {
        AddPlain(Fixed(ReleaseContract));
        AddPlain(Fixed(ReleaseDryRun));
        AddPlain(Test(s.tables.gates.releaseEvidence));
        if s.tables.wrapper(path) {
          AddPlain(Fixed(WrapperVersion));
        }
      }
      if s.tables.schemaContract(path) {
        AddPlain(Fixed(CheckSchemas));
      }
      if s.tables.sdkSmoke(path) {
        AddPlain(Fixed(SdkSmoke));
        AddCheck(s, path);
      }
    }

    method AddFallback(s: Scope, path: string)
      requires Valid()
      modifies this
      ensures Valid() && keys == old(keys) + FallbackKeys(s, path)
    {
      if Covered(s, path) {
        return;
      }
      if Owner(path, s.packages).Some? {
        if s.tables.runtime(path) || RuntimeMarkdown(path) {
          AddPlain(Fixed(CliSmoke));
        }
        if s.tables.wrapper(path) {
          AddPlain(Fixed(WrapperVersion));
        }
        return;
      }
      if s.tables.codeIsh(path) {
        AddPlain(Fixed(RootCheck));
      }
    }

    method AddAiTests(s: Scope, path: string)
      requires Valid() && packages == s.packages
      modifies this
      ensures Valid() && keys == old(keys) + AiKeys(s, path)
    {
      if s.tables.aiCatalog(path) {
        var ai := AiPackage(s.packages);
        if ai.Some? {
          AiIsPackage(s.packages);
          AddPackageTests(s, ai.value);
        }
      }
    }

    /** A path that reaches the test mapping. */
    method AddMapped(s: Scope, path: string)
      requires Valid() && packages == s.packages
      modifies this
      ensures Valid()
      ensures keys == old(keys) + ContractKeys(s, path)
                + TestKeys(s, MappedTests(s, path), s.tables.validate) + TestKeys(s, s.tables.behavioral(path), s.tables.validate)
                + (if s.tables.shardOne(path) then {ShardKey(1, s.tables.shards), SdkHostKey()} else {})
                + CheckKeys(s, path) + FallbackKeys(s, path)
    {
      hide *;
      AddContracts(s, path);
      AddTests(s, MappedTests(s, path), s.tables.validate);
      AddTests(s, s.tables.behavioral(path), s.tables.validate);
      if s.tables.shardOne(path) {
        AddPlain(ShardKey(1, s.tables.shards));
        AddSdkHost();
      }
      AddCheck(s, path);
      AddFallback(s, path);
    }

    /** One changed path; the flags say which workflow checks it calls for. */
    method PlanPath(s: Scope, path: string) returns (workflow: bool, harness: bool)
      requires Valid() && packages == s.packages
      modifies this
      ensures Valid() && keys == old(keys) + PathKeys(s, path)
      ensures workflow <==> !FullWorkspace(path) && Workflow(path)
      ensures harness <==> !FullWorkspace(path) && !Workflow(path) && CiHarness(path)
    {
      hide KeySet, PlannerItems, AiKeys, ContractKeys, TestKeys, CheckKeys, FallbackKeys, MappedTests, FullWorkspace, Workflow, CiHarness, Rust, Install;
      workflow, harness := false, false;
      if FullWorkspace(path) {
        return;
      }
      AddAiTests(s, path);
      if Workflow(path) {
        workflow := true;
        return;
      }
      if CiHarness(path) {
        harness := true;
        return;
      }
      if Rust(path) {
        AddPlain(Fixed(RustCheck));
        AddPlain(Fixed(RustTest));
        AddTests(s, s.tables.behavioral(path), s.tables.validate);
        return;
      }
      if Install(path) {
        AddPlain(Fixed(InstallMethods));
        return;
      }
      AddMapped(s, path);
    }

    method AddFullWorkspace(s: Scope, relevant: seq<string>)
      requires Valid() && packages == s.packages
      modifies this
      ensures Valid() && keys == old(keys) + FullKeys(s, relevant)
    {
      hide KeySet, PlannerItems, Full, WorkspaceKeys, Housed;
      if Full(s, relevant) {
        AddPlain(Fixed(RootCheck));
        AddPlain(Fixed(NativeLinux));
        AddWorkspaceTests(s);
      }
    }

    method AddLate(s: Scope, relevant: seq<string>, workflow: bool, harness: bool)
      requires Valid() && workflow == AnyWorkflow(relevant) && harness == AnyHarness(relevant)
      modifies this
      ensures Valid() && keys == old(keys) + LateKeys(s, relevant)
    {
      hide AnyWorkflow, AnyHarness, TestKeys, KeySet, PlannerItems;
      if AnyDarwin(s, relevant) {
        AddPlain(Fixed(InstallMethods));
      }
      if workflow || harness {
        AddPlain(Fixed(CiSelftest));
        AddPlain(Fixed(CiDryRun));
      }
      if workflow {
        AddPlain(Fixed(YamlParse));
      }
      if workflow || harness {
        AddPlain(Fixed(WorkflowPermissions));
      }
      AddTests(s, Canaries(s.tables.riskClasses, relevant), false);
    }

    /** The loop over the relevant paths. */
    method AddPaths(s: Scope, relevant: seq<string>) returns (workflow: bool, harness: bool)
      requires Valid() && packages == s.packages
      modifies this
      ensures Valid() && keys == old(keys) + PathsKeys(s, relevant)
      ensures workflow == AnyWorkflow(relevant) && harness == AnyHarness(relevant)
    {
      hide PathKeys, AnyWorkflow, AnyHarness, FullWorkspace, Workflow, CiHarness;
      workflow, harness := false, false;
      AnyOfNone();
      assert relevant[..0] == [];
      for i := 0 to |relevant|
        invariant Valid() && keys == old(keys) + PathsKeys(s, relevant[..i])
        invariant workflow == AnyWorkflow(relevant[..i]) && harness == AnyHarness(relevant[..i])
      {
        AnyExtends(relevant, i);
        assert relevant[..i + 1][..i] == relevant[..i];
        var w, h := PlanPath(s, relevant[i]);
        workflow, harness := workflow || w, harness || h;
      }
      assert relevant[..|relevant|] == relevant;
    }

    method AddDocs(s: Scope, paths: seq<string>)
      requires Valid() && entries == []
      modifies this
      ensures Valid() && keys == DocsKeys(s, paths)
    {
      if s.tables.gates.customDoc in paths {
        AddPlain(Test(s.tables.gates.customTest));
        EnsureNativeBuild();
      }
      if exists i | 0 <= i < |paths| :: EmbeddedDocs(s, paths[i]) {
        AddPlain(Test(s.tables.gates.docsGate));
      }
    }

    method EnsureNativeBuild()
      requires Valid()
      modifies this
      ensures Valid() && keys == WithNative(old(keys))
    {
      if (exists i | 0 <= i < |entries| :: WantsNative(entries[i].key)) && !(exists i | 0 <= i < |entries| :: BuildsNative(entries[i].key)) {
        AddPlain(Fixed(NativeLinux));
      }
    }
  }

  lemma {:induction false} TestKeysAppend(s: Scope, a: seq<string>, b: seq<string>, required: bool)
    ensures TestKeys(s, a + b, required) == TestKeys(s, a, required) + TestKeys(s, b, required)
  {
    if a == [] {
      assert a + b == b;
    } else {
      assert (a + b)[1..] == a[1..] + b;
      TestKeysAppend(s, a[1..], b, required);
    }
  }

  lemma {:induction false} WorkspaceKeysAppend(s: Scope, ws: seq<Workspace>, w: Workspace)
    ensures WorkspaceKeys(s, ws + [w]) == WorkspaceKeys(s, ws) + if w.hasTest then PackageKeys(s, w) else {}
  {
    if ws == [] {
      assert (ws + [w])[1..] == [];
    } else {
      assert (ws + [w])[1..] == ws[1..] + [w];
      WorkspaceKeysAppend(s, ws[1..], w);
    }
  }

  lemma {:induction false} OwnerIsPackage(path: string, packages: seq<Workspace>)
    requires Owner(path, packages).Some?
    ensures Owner(path, packages).value in packages
  {
    if !Inside(path, packages[0].dir) { OwnerIsPackage(path, packages[1..]); }
  }

  lemma {:induction false} AiIsPackage(ws: seq<Workspace>)
    requires AiPackage(ws).Some?
    ensures AiPackage(ws).value in ws
  {
    if ws[0].name != "@gajae-code/ai" { AiIsPackage(ws[1..]); }
  }

  lemma {:induction false} AnyOfNone()
    ensures !AnyWorkflow([]) && !AnyHarness([])
  {
  }

  lemma {:induction false} AnyExtends(relevant: seq<string>, i: nat)
    requires i < |relevant|
    ensures AnyWorkflow(relevant[..i + 1]) <==> AnyWorkflow(relevant[..i]) || (!FullWorkspace(relevant[i]) && Workflow(relevant[i]))
    ensures AnyHarness(relevant[..i + 1]) <==>
            AnyHarness(relevant[..i]) || (!FullWorkspace(relevant[i]) && !Workflow(relevant[i]) && CiHarness(relevant[i]))
  {
    assert relevant[..i + 1] == relevant[..i] + [relevant[i]];
  }

  /** planTargetedTasks: the plan's keys are exactly the demanded ones, each once. */
  method PlanTargetedTasks(s: Scope, paths: seq<string>) returns (plan: seq<Item>)
    ensures PlannerItems(plan, s.packages) && KeySet(plan) == PlanKeys(s, paths)
  {
    hide DocsKeys, FullKeys, PathsKeys, LateKeys, WithNative, AnyWorkflow, AnyHarness, Relevant;
    var tasks := new TaskMap(s.packages);
    var relevant := RelevantPaths(paths);
    tasks.AddDocs(s, paths);
    if relevant != [] {
      tasks.AddFullWorkspace(s, relevant);
      var workflow, harness := tasks.AddPaths(s, relevant);
      tasks.AddLate(s, relevant, workflow, harness);
    }
    assert tasks.keys == DocsKeys(s, paths) + RelevantKeys(s, relevant);
    tasks.EnsureNativeBuild();
    return tasks.entries;
  }
}
