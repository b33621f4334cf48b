# Release and CI script models

A Dafny model of the algorithms and protocols inside the repository's release and CI scripts, with proofs
of what they are for. `dafny verify dfyconfig.toml` checks the whole project.

What is modelled, by area:

- **Tar codec** (`Tar*.dfy`, from `scripts/release-evidence.ts`): the ustar reader with PAX and GNU path
  extensions, resource limits and checksums; the exact language it accepts; the canonical ustar writer;
  canonicalisation as a normal form. Reader and writer loops are methods over offsets and a header buffer, proved
  against recursive definitions. `TarRules.dfy` says what paths, modes, octal fields, PAX records and canonical
  bytes mean without the reader's and writer's own predicates.
- **Immutable evidence store** (`EvidenceStore.dfy`, `EvidenceProgress.dfy`): any number of writers of one path
  as interleaved steps over a directory and inodes, with partial writes, failures and crashes; and what a writer
  that meets no failure gets to.
- **Publication plan and waves** (`Dag.dfy`, `Publish{Plan,Input,Waves}.dfy`, `DeclarationOrder.dfy`, from
  `scripts/ci-release-publish.ts`): Kahn's algorithm over an arbitrary declared list, waves, and the exact order
  of the plan.
- **Publication protocol** (`PublishProtocol.dfy`, `PublishProgress.dfy`): one package as a controller over
  observations and publish outcomes, and any number of runs, crashed and resumed, one package at a time or wave
  by wave with each wave concurrent, against an insert-once registry with stale reads; safety of every behaviour,
  and that a healthy one publishes the whole plan.
- **Changelog fold and history guard** (`Changelog*.dfy`, `HeadingLaws.dfy`, `FragmentLaws.dfy`,
  `HistoryGuard.dfy`): fragments, sections, merging, rendering, folding, and the guard on released headings.
- **Affected-path planner** (`DependentClosure.dfy`, `ChangedPaths.dfy`, `PathLaws.dfy`, `TaskIdentity.dfy`,
  `Affected*.dfy`, from `scripts/ci-dev-affected.ts`): reverse-dependency closures, the pull-request planner with
  its task map as a class, build tasks, task identities, the fail-closed plan loader, when it accepts an emitted
  plan, and the plan read the other way round: which changed paths put each task there.
- **Smaller algorithms**: reference plans (`Reference*.dfy`), the paired-bootstrap gate (`Bench*.dfy`), chunked
  byte search (`ChunkedSearch.dfy`), UTF-8 window trimming (`TextSniff.dfy`, `Utf8.dfy`), version ordering and
  nightly derivation (`Decimal.dfy`, `SemVer.dfy`, `Nightly.dfy`).

`Bytes.dfy`, `Text.dfy` and `Sorting.dfy` hold shared definitions. Standards followed: POSIX.1-2017 `pax`
("ustar Interchange Format", "pax Extended Header"), section 4 of RFC 3629, section 5 of RFC 4648, and section
11 of Semantic Versioning 2.0.0.

Where the code does not do what one would expect, the model follows the code, a lemma gives the input that
shows it, and another lemma gives the exact condition:

- A path split for ustar whose name part starts with a byte-order mark loses the mark when it is read back,
  so the round trip and idempotence hold exactly when no written name starts with one
  (`CanonicalRoundTrip`, `CanonicalizeIsIdempotentIff`, `RoundTripFailsOnMarkedPath`).
- The comment at `scripts/ci-release-publish.ts:1168` says declaration order is preserved within a wave. The
  code preserves the plan's order; declaration order holds exactly when, inside each wave, the packages'
  blockers are ordered as the packages are declared (`WavesInDeclarationOrderIff`,
  `WavesCanLeaveDeclarationOrder`). A package's blockers start with the last declared among itself
  and what it transitively needs; each next one is the last declared among those that also need the previous
  blocker; the list ends with the package itself.
- A changed path reported as "./" followed by white space is stored in a form its own loader refuses; all
  other safe paths are stable (`CanonicalIsStableIff`, `StoredPathCanBeRefused`).
- The loader trims the matrix key it is given, so the check of a package whose name ends in white space is
  looked up under another key. A shard is accepted exactly when its key survives trimming, or trimming makes it
  the key of a task with the same flags (`EmittedPlanIsAcceptedIff`, `SpacedNameIsRefused`).
- A stored task directory may be ".." by itself, which leads out of the repository; every other accepted
  directory stays inside (`AcceptedDirStaysInIff`, `ParentIsAccepted`).
- An existing section heading made of three number signs and only white space is rendered back as a line that
  reads as an entry, so a fold conserves entry lines exactly when no existing section heading is empty
  (`FoldConservesIff`, `FoldCanInventAnEntry`).

## Model

| member | source | states |
|---|---|---|
| `TarFields.ToOctalWidth` | scripts/release-evidence.ts:483-489 | a number's octal text fits a width exactly when the number is below that power of eight |
| `TarFields.ParseOctalDigits` | scripts/release-evidence.ts:316-323 | digits followed by any mix of NULs and spaces read as the number they spell |
| `TarFields.OctalFieldReads` | scripts/release-evidence.ts:316-323 | reading a written octal field returns the number that was written |
| `TarFields.StringFieldReads` | scripts/release-evidence.ts:325-333 | reading a NUL-filled text field returns the text as the decoder sees it |
| `Utf8.ValidIff` | scripts/release-evidence.ts:325-333 | the bytes the decoder accepts are exactly the encodings of strings of scalar values |
| `TarReader.BlankedSumIsChecksum` | scripts/release-evidence.ts:335-340 | the byte loop that reads the checksum field as spaces computes the ustar checksum of the header |
| `TarReader.AssertTarChecksum` | scripts/release-evidence.ts:335-340 | accepts exactly the headers whose stored octal sum is the blanked sum, and says which of the two errors applies |
| `TarReader.ParsePaxAttributes` | scripts/release-evidence.ts:364-389 | the offset loop computes the record-by-record parse, last value per key, with its errors |
| `TarReader.ParseTarEntries` | scripts/release-evidence.ts:402-475 | the offset loop over a whole tarball computes the recursive reader, limits and every error included |
| `TarRules.SafePathIff` | scripts/release-evidence.ts:342-356 | a path is accepted exactly when, up to one final slash, walking its segments loses none of them, starts in the package directory, and it has no backslash or NUL |
| `TarRules.NeverLeaves` | scripts/release-evidence.ts:342-356 | walking an accepted path, no prefix of it ever leaves the package directory |
| `TarRules.LegalModeDigits` | scripts/release-evidence.ts:458-459 | a mode is accepted exactly when its written digits spell at most three octal digits and the last is 0, 1, 4 or 5 |
| `TarRules.MemberIsReadIff` | scripts/release-evidence.ts:424-473 | a checksummed member enters exactly when its path is safe and new, its mode digits are safe, its type byte is NUL, 0 or that of an empty directory, and the limits leave room; otherwise the archive is refused |
| `TarRules.ParseOctalIff` | scripts/release-evidence.ts:316-323 | a field reads as a number exactly when, top bits dropped, it is that number in octal digits among white space, then NULs and spaces |
| `TarRules.LimitsAreChecked` | scripts/release-evidence.ts:72-77 | limits are refused exactly when one is zero or beyond the safe integers, or one entry may be larger than the whole |
| `TarRules.PaxRecordIff` | scripts/release-evidence.ts:364-389 | a record is read exactly when it is a self-counting decimal length, a space, a key, an equals sign, a UTF-8 value and a newline |
| `TarWriter.WriteTarString` | scripts/release-evidence.ts:477-481 | overwrites exactly the text's bytes at the offset, and fails without writing exactly when the text is too long |
| `TarWriter.WriteTarOctal` | scripts/release-evidence.ts:483-489 | writes the zero-padded NUL-terminated field, and fails without writing exactly when the value needs too many digits |
| `TarWriter.SplitUstarPath` | scripts/release-evidence.ts:491-500 | the right-to-left loop computes the split that the soundness lemma characterises |
| `TarWriter.SplitPathSound` | scripts/release-evidence.ts:491-500 | a split exists exactly when the path fits ustar; parts fit their fields and join to the path |
| `TarWriter.CanonicalTarHeader` | scripts/release-evidence.ts:502-523 | the buffer filled field by field, blanked and summed, is the specified 512-byte layout, or the first error |
| `TarRules.CanonicalHeaderIsFixed` | scripts/release-evidence.ts:502-523 | owner, group, time, link name, magic and all unused bytes of a canonical header are fixed, the type byte is 0 or 5, the checksum ends in NUL and space |
| `TarWriter.CreateCanonicalTarball` | scripts/release-evidence.ts:525-540 | the writing loop produces the canonical stream: members in byte order of path, payloads padded, two zero blocks |
| `TarRules.MemberShape` | scripts/release-evidence.ts:525-540 | a member is its header, a file's data, and zeros up to a whole block |
| `TarRules.CanonicalTarShape` | scripts/release-evidence.ts:525-540 | the stream holds each entry once, ordered by the first differing path byte, and ends in 1024 zeros |
| `TarRoundTrip.CanonicalHeaderReads` | scripts/release-evidence.ts:502-523 | a canonical header passes the checksum and reads back as its entry's kind, mode, size and path up to a leading mark |
| `TarRoundTrip.PaxPathRecordReads` | scripts/release-evidence.ts:364-389 | a self-counting PAX path record sets exactly the path it spells, whatever was pending |
| `TarRoundTrip.GnuLongPathReads` | scripts/release-evidence.ts:391-399 | a NUL-terminated GNU long path sets exactly the path before the NUL |
| `TarRoundTrip.ParseEncoded` | scripts/release-evidence.ts:424-473 | a member hands the reader the same entry behind any number of extension headers: PAX, global PAX and GNU, with or without a path, stacked in any order |
| `TarRoundTrip.ParseStream` | scripts/release-evidence.ts:402-475 | any mix of encodings of a valid entry list, path-less extension headers at the end included, parses to exactly that list, whatever uid, mtime, padding and trailing zeros hold |
| `TarRoundTrip.ParseStreamAs` | scripts/release-evidence.ts:402-475 | an accepted stream returns its entries, in order, under the paths their encodings carry |
| `TarNormalForm.CanonicalRoundTrip` | scripts/release-evidence.ts:402-540 | parsing the canonical stream of valid entries returns exactly those entries in byte order of path, if and only if no written name starts with a byte-order mark |
| `TarNormalForm.RoundTripFailsOnMarkedPath` | scripts/release-evidence.ts:491-500 | a concrete valid entry whose canonical stream does not parse back to it |
| `TarNormalForm.CanonicalTarAccepts` | scripts/release-evidence.ts:477-540 | the writer fails exactly when some path does not fit or some file needs twelve octal digits, and its output length is exact |
| `TarNormalForm.CanonicalTarIsNormal` | scripts/release-evidence.ts:525-540 | two lists with the same entries and distinct paths have byte-identical canonical streams |
| `TarNormalForm.StepKeepsGood` | scripts/release-evidence.ts:424-473 | every reader step keeps the accumulated entries valid under all limits and pays for the blocks they will need |
| `TarNormalForm.ParsedIsValid` | scripts/release-evidence.ts:402-475 | whatever the input bytes, accepted entries are valid under the limits and need no more blocks than the input had |
| `TarNormalForm.CanonicalNeverLonger` | scripts/release-evidence.ts:563-565 | the canonical stream of an accepted tarball is no longer than the stream it came from, so it meets the same limits |
| `TarNormalForm.MembersInjective` | scripts/release-evidence.ts:525-540 | different valid entry lists never have the same canonical body |
| `TarNormalForm.CanonicalizeIsIdempotentIff` | scripts/release-evidence.ts:563-565 | canonicalising twice equals once if and only if the result meets the compressed limit and no name starts with a byte-order mark |
| `TarNormalForm.CanonicalizePackageTarball` | scripts/release-evidence.ts:563-565 | reader and writer chained compute the canonical form the lemmas are about |
| `TarGrammar.AcceptedIsCarried` | scripts/release-evidence.ts:402-475 | from any reader state, an accepted rest of a stream is a sequence of extended members, path-less extension headers and zeros, and the entries added are the carried ones |
| `TarGrammar.AcceptedIff` | scripts/release-evidence.ts:402-475 | the reader returns a list of entries if and only if the stream carries exactly those entries and they are valid under the limits |
| `TarGrammar.SameEntriesSameResult` | scripts/release-evidence.ts:563-565 | two accepted tarballs holding the same entries canonicalise to the same result, whatever their order, encodings, compression or limits |
| `EvidenceStore.StepKeepsInv` | scripts/release-evidence.ts:897-922 | every step of every writer, failures and crashes included, keeps the invariant and any existing destination |
| `EvidenceStore.DestinationNeverChanges` | scripts/release-evidence.ts:897-922 | in every interleaving, once the destination exists its inode and bytes never change |
| `EvidenceStore.DestinationIsWhole` | scripts/release-evidence.ts:897-922 | in every reachable state the destination is absent, unchanged from the start, or the complete bytes of the one writer whose link succeeded |
| `EvidenceStore.VerdictIsTruth` | scripts/release-evidence.ts:910-918 | a writer that returned supplied exactly the destination's bytes, and one that reported a conflict did not, from then on |
| `EvidenceStore.ReturnsAgree` | scripts/release-evidence.ts:910-918 | any two writers that return normally supplied the same bytes |
| `EvidenceProgress.FreeNameIsClaimed` | scripts/release-evidence.ts:897-922 | from any state with the name free, a writer without failures claims it with its bytes, returns, and leaves no temporary file |
| `EvidenceProgress.TakenNameIsCompared` | scripts/release-evidence.ts:910-918 | with the name taken, it returns exactly when the bytes agree and reports a conflict otherwise, changing nothing |
| `SemVer.CompareIsPrecedence` | scripts/release-evidence.ts:171-182 | the string comparison of stable versions is SemVer precedence at every size, and zero exactly on equal strings |
| `Decimal.CompareAgreesWithValue` | scripts/nightly-release.ts:29-32 | length-then-lexicographic comparison of numerals has the sign of the integer difference, at every size |
| `Nightly.HighestPatchIsMaximum` | scripts/nightly-release.ts:75-77 | the reduction yields one of the input patches, no smaller than any other |
| `Nightly.RunIdIff` | scripts/nightly-release.ts:51-53 | a run id is the decimal numeral of a positive number |
| `Nightly.ShaIff` | scripts/nightly-release.ts:39-41 | a source SHA is forty lower-case hexadecimal digits |
| `Nightly.DerivesIff` | scripts/nightly-release.ts:60-80 | a nightly is derived exactly from stable versions of one major and minor line, a valid date, a positive run id and a full SHA |
| `Nightly.UtcIdentifierValue` | scripts/nightly-release.ts:55-58 | for four-digit years the identifier is the number spelled by year, month, day, hour, minute and second |
| `Nightly.UtcIdentifierIsNumeralIff` | scripts/nightly-release.ts:55-58 | over every representable date the timestamp is a legal numeric identifier exactly for years 1000 to 9999 and for years up to -100000 |
| `Nightly.DerivedParses` | scripts/nightly-release.ts:60-80 | the derived string parses into the next patch core and its four identifiers |
| `Nightly.NightlyAboveStable` | scripts/nightly-release.ts:60-80 | the derived nightly is above every stable version it was derived from |
| `Nightly.NightlyBelowNextPatch` | scripts/nightly-release.ts:60-80 | the derived nightly is below the patch release it leads to and every later release |
| `Nightly.NightlyIncreasing` | scripts/nightly-release.ts:60-80 | nightlies derived from two version lists of one line are ordered by highest patch, then by timestamp, then by run id, under SemVer precedence |
| `PublishInput.IndexByName` | scripts/ci-release-publish.ts:1089-1095 | succeeds exactly on distinct names, and then maps each name to its record |
| `PublishInput.SelectDeclared` | scripts/ci-release-publish.ts:1097-1121 | succeeds exactly when the records can be arranged in configuration order, returns that arrangement, and every error names a defect that is there |
| `PublishInput.ValidateDependencies` | scripts/ci-release-publish.ts:1123-1139 | accepts exactly one supported version with all dependencies pinned to it on known present packages; the error is the first fault, by record and then by sorted dependency name |
| `PublishPlan.OrderByDependencies` | scripts/ci-release-publish.ts:1127-1152 | Kahn's loop always takes the first declared record whose dependencies are out, and stops only when none is left |
| `Dag.GreedyIsLeast` | scripts/ci-release-publish.ts:1143-1152 | no dependency-respecting order comes before a complete greedy one, by declaration index |
| `Dag.StuckHasCycle` | scripts/ci-release-publish.ts:1153-1159 | stopping before every node is taken exhibits a dependency cycle |
| `Dag.TopologicalHasNoCycle` | scripts/ci-release-publish.ts:1153-1159 | a graph with a dependency-respecting order has no cycle of any length |
| `PublishPlan.GreedyVerdict` | scripts/ci-release-publish.ts:1153-1160 | a greedy order that got stuck is complete if and only if the graph has no cycle, and then it is the least order |
| `PublishPlan.PlanDeclared` | scripts/ci-release-publish.ts:1127-1160 | the cycle error exactly on a cycle; otherwise a permutation of the records that is the least dependency order |
| `PublishInput.PlanExpectedEvidencePublication` | scripts/ci-release-publish.ts:1087-1160 | over arbitrary records and configuration: cycle error exactly on valid cyclic input, success exactly on valid acyclic input, least order of exactly those records, and every other error names a defect that is there |
| `PublishWaves.WaveOf` | scripts/ci-release-publish.ts:1174-1177 | the smallest wave after all dependencies |
| `PublishWaves.GroupWaves` | scripts/ci-release-publish.ts:1170-1182 | waves are the layers of the dependency graph, without gaps, each in plan order |
| `PublishWaves.PlanExpectedEvidencePublicationWaves` | scripts/ci-release-publish.ts:1170-1182 | fails exactly as the plan fails, otherwise groups the plan into layers without gaps |
| `Dag.LayerIsLongestChain` | scripts/ci-release-publish.ts:1163-1177 | a package's wave number is the length of its longest dependency chain |
| `Dag.LayerIsEarliest` | scripts/ci-release-publish.ts:1163-1177 | no assignment that puts dependencies strictly earlier puts any package earlier |
| `PublishWaves.WavesPartition` | scripts/ci-release-publish.ts:1178-1181 | each planned package lies in exactly one wave, once, and waves hold nothing else |
| `PublishWaves.WavesAreIndependent` | scripts/ci-release-publish.ts:1163-1166 | packages of one wave never depend on each other; their dependencies sit in earlier waves |
| `PublishWaves.WavesKeepPlanOrder` | scripts/ci-release-publish.ts:1178-1179 | within a wave the plan's order is kept |
| `PublishWaves.PlannedDependenciesFirst` | scripts/ci-release-publish.ts:1170-1177 | every plan lists each record after all its dependencies, as grouping assumes |
| `DeclarationOrder.LeastOrderUnique` | scripts/ci-release-publish.ts:1143-1152 | there is only one least order |
| `DeclarationOrder.PlanIsByBlockers` | scripts/ci-release-publish.ts:1127-1160 | the plan lists packages in order of their blocker lists, an order no queue is needed to state |
| `DeclarationOrder.PlanOrderIff` | scripts/ci-release-publish.ts:1127-1160 | one package is planned before another exactly when its blocker list is smaller |
| `DeclarationOrder.WavesInDeclarationOrderIff` | scripts/ci-release-publish.ts:1163-1182 | declaration order holds within every wave exactly when blocker lists follow it inside each wave |
| `DeclarationOrder.WavesCanLeaveDeclarationOrder` | scripts/ci-release-publish.ts:1168 | for any four names, a graph whose second wave reverses declaration order |
| `DeclarationOrder.PlanIsDeclarationOrderIff` | scripts/ci-release-publish.ts:1127-1160 | the plan is the declaration order itself exactly when every dependency is declared first |
| `RegistryObservation.ExactIff` | scripts/ci-release-publish.ts:996-1007 | an observation passes exactly when it equals the expected evidence under a tag naming this version, stable where the channel is |
| `RegistryObservation.ObservedIsExact` | scripts/ci-release-publish.ts:924-959 | a look that reports the package reports it exactly, whatever the download served |
| `RegistryObservation.LookAnswers` | scripts/ci-release-publish.ts:924-959 | what a look answers to every state of the registry: absence, missing or lagging tag, foreign bytes, newer tag, or the expected evidence |
| `PublishController.AwaitVisibility` | scripts/ci-release-publish.ts:1055-1084 | the bounded retry loop follows the controller look by look, and the first look that does not lag, or the last allowed, decides the result |
| `PublishController.PublishRetainedPackage` | scripts/ci-release-publish.ts:1023-1085 | touches nothing when the retained tarball is not the expected one; otherwise the looks alone decide: a first look that finds something, the look after a failed publish, or the first look after a successful one that does not lag |
| `PublishController.LookLagsIff` | scripts/ci-release-publish.ts:1063-1078 | the looks that are retried are exactly those where the version is missing or right and the tag is missing or names another version that is not newer |
| `PublishController.PublishOnceAfterAbsence` | scripts/ci-release-publish.ts:1041-1049 | in every event sequence publish is called at most once, right after a first look that found nothing |
| `PublishController.ReturnsWhatItSaw` | scripts/ci-release-publish.ts:1041-1084 | the controller returns only the observation it has just made and checked |
| `PublishController.EventsAreBounded` | scripts/ci-release-publish.ts:1062-1081 | no event sequence exceeds the first look, the publish call and the allowed visibility looks |
| `PublishRuns.StepKeepsInv` | scripts/ci-release-publish.ts:1023-1085 | every step of any run, of the registry or of another publisher keeps the protocol invariant |
| `PublishRuns.RegistryOnlyGrows` | scripts/ci-release-publish.ts:1184-1193 | in every behaviour a registered name keeps its bytes |
| `PublishRuns.PublishedIsClosed` | scripts/ci-release-publish.ts:1184-1193 | in every state whatever the runs got published, or may still get published by a request in flight, has all dependencies published with their expected bytes, also when the packages of a stage are published concurrently |
| `PublishRuns.RegistryIsClosed` | scripts/ci-release-publish.ts:1184-1193 | with no other publisher the whole registry is closed under internal dependencies in every state |
| `PublishRuns.ReturnIsExact` | scripts/ci-release-publish.ts:1023-1085 | a package that a run has returned is registered with exactly its retained bytes from then on |
| `PublishRuns.StagesInOrder` | scripts/ci-release-publish.ts:642-650 | in every state, a package a run has looked at has every package of every earlier stage returned |
| `PublishRuns.CallsOnceAfterAbsence` | scripts/ci-release-publish.ts:1041-1049 | each run publishes each package at most once, counting a call still under way, and only after an absent look |
| `PublishRuns.PlanIsFollowed` | scripts/ci-release-publish.ts:1184-1193 | publishing a plan one package at a time, in order, satisfies what the runs rely on |
| `PublishRuns.WavesAreFollowed` | scripts/ci-release-publish.ts:1163-1182 | publishing wave by wave, each wave concurrently, satisfies it too |
| `PublishProgress.PresentIsSkipped` | scripts/ci-release-publish.ts:1041-1045 | a package already registered with its bytes takes one look and no publish call |
| `PublishProgress.MissingIsPublished` | scripts/ci-release-publish.ts:1046-1084 | a missing package is sent once, registered with exactly its bytes, seen and returned |
| `PublishProgress.PlanIsPublished` | scripts/ci-release-publish.ts:1184-1193 | from any start with some packages registered by earlier runs, a run that meets no failure returns every package of the plan, stage by stage |
| `PublishRuns.PublishExpectedEvidencePackages` | scripts/ci-release-publish.ts:1184-1193 | a run stops at the first package that throws, with that error, and reports exactly the packages it returned |
| `ChangelogSections.SplitSections` | scripts/changelog-fragments.ts:260-276 | the line loop computes the split in which each heading owns the lines up to the next |
| `HeadingLaws.VersionIff` | scripts/changelog-fragments.ts:28 | a version heading is two number signs and white space, then anything |
| `HeadingLaws.UnreleasedIff` | scripts/changelog-fragments.ts:27 | the unreleased heading is two number signs, white space, the bracketed word and white space |
| `HeadingLaws.SectionIff` | scripts/changelog-fragments.ts:29 | a section is named by a trimmed text on one line between three number signs with white space and trailing white space |
| `HeadingLaws.UnnamedSectionIff` | scripts/changelog-fragments.ts:29 | an unnamed section is white space after the signs, with something after its first character that ends no line |
| `HeadingLaws.HeadingIff` | scripts/changelog-fragments.ts:30 | any heading is a run of number signs and white space |
| `HeadingLaws.BulletIff` | scripts/changelog-fragments.ts:31 | a bullet is white space, a dash, white space and something else |
| `HeadingLaws.SpaceIff` | scripts/changelog-fragments.ts:27-31 | white space is exactly the 25 characters ECMAScript lists |
| `HeadingLaws.StripIff` | scripts/changelog-fragments.ts:72 | stripping leaves the text without a tail of spaces and tabs and with none at its end |
| `ChangelogSections.ScanFragment` | scripts/changelog-fragments.ts:80-103 | accepts exactly lines whose headings are all non-empty section headings with only blanks before the first; an error names the first fault |
| `ChangelogSections.ParseFragment` | scripts/changelog-fragments.ts:76-114 | accepts exactly the well-formed fragments, returns their sections, and otherwise names the first fault |
| `FragmentLaws.FragmentIff` | scripts/changelog-fragments.ts:76-114 | a fragment is accepted exactly when every heading names a section, only blank lines come before the first, and a bullet follows each before the next |
| `FragmentLaws.LinesRead` | scripts/changelog-fragments.ts:80 | lines ended by a line feed, with or without a carriage return before it, are read back as they were |
| `ChangelogMerge.TrimBlankLines` | scripts/changelog-fragments.ts:67-73 | the two index loops drop exactly the outer blank lines and strip trailing pads |
| `ChangelogMerge.EntriesTrim` | scripts/changelog-fragments.ts:67-73 | trimming loses no entry line |
| `ChangelogMerge.MergeUnreleasedBody` | scripts/changelog-fragments.ts:289-312 | the heading-map loops compute the specified merge of body and fragments |
| `ChangelogMerge.MergedConserves` | scripts/changelog-fragments.ts:289-312 | the multiset of entry lines after merging is the old one plus the fragments' |
| `ChangelogMerge.MergedUnder` | scripts/changelog-fragments.ts:289-312 | under every folded heading the old entries come first, then the fragments' in fragment order |
| `ChangelogMerge.MergedShape` | scripts/changelog-fragments.ts:289-312 | old sections keep place and heading; new ones follow, one per folded heading, sorted by section rank and within a rank in order of first appearance |
| `ChangelogMerge.EqualRankKeepsOrder` | scripts/changelog-fragments.ts:310 | sorting by rank leaves new sections of equal rank in the order in which the fragments first name them |
| `ChangelogMerge.StandardOrder` | scripts/changelog-fragments.ts:11-22 | new sections named as standard ones stand in the standard order, all others after them |
| `ChangelogFold.LocateUnreleased` | scripts/changelog-fragments.ts:239-253 | finds the first unreleased heading and the next version heading, exactly when there is one |
| `ChangelogFold.RenderBodyLines` | scripts/changelog-fragments.ts:278-287 | joining blocks and splitting again yields the line-by-line rendering |
| `ChangelogFold.ReadPackageFragments` | scripts/changelog-fragments.ts:155-161 | succeeds exactly when every fragment file is well formed, and then yields named sections of plain lines; otherwise explains the fault of the first malformed file |
| `ChangelogFold.FoldFragmentsIntoChangelog` | scripts/changelog-fragments.ts:314-331 | no fragments: unchanged; otherwise succeeds exactly with an unreleased heading and rewrites exactly its body |
| `ChangelogFold.FoldKeepsRest` | scripts/changelog-fragments.ts:314-331 | every line outside the body is unchanged, and looking again finds the same heading and the same tail |
| `ChangelogFold.ParsedIsPlain` | scripts/changelog-fragments.ts:76-114 | accepted fragments contain nothing that could open a version or an unnamed section |
| `ChangelogFold.ResplitHeadings` | scripts/changelog-fragments.ts:260-287 | splitting a rendered body finds exactly its non-empty headings |
| `ChangelogFold.Resplit` | scripts/changelog-fragments.ts:260-287 | with non-empty headings, splitting a rendered body gives back the same sections up to blank lines |
| `ChangelogFold.FoldConservesIff` | scripts/changelog-fragments.ts:260-331 | from text to text a fold conserves entry lines if and only if no existing section heading is empty |
| `ChangelogFold.FoldCanInventAnEntry` | scripts/changelog-fragments.ts:28-30 | three number signs and two spaces in the body come back as an entry nobody wrote |
| `HistoryGuard.ReleaseHeadings` | scripts/changelog-history-guard.ts:58-68 | the loop lists the released headings of the lines in order |
| `HistoryGuard.ReleasedIff` | scripts/changelog-history-guard.ts:44-68 | a line lists exactly the version that its bracketed text trims to, after two number signs and white space, unless that is the unreleased one |
| `HistoryGuard.ReleasesInOrder` | scripts/changelog-history-guard.ts:58-68 | the list is the versions of the announcing lines, in line order, each line counted once |
| `HistoryGuard.CompareHistory` | scripts/changelog-history-guard.ts:77-92 | no violation exactly when every released heading of the base is still there; what it reports as removed is exactly the versions some base line announces and no head line does, deletion included |
| `HistoryGuard.FoldKeepsReleases` | scripts/changelog-history-guard.ts:58-68 | a fold leaves the list of released headings exactly as it was |
| `HistoryGuard.FoldPassesGuard` | scripts/changelog-history-guard.ts:77-92 | whatever the changelog and the fragment files hold, the guard accepts every fold, which keeps the released headings in order |
| `DependentClosure.ExpandWithDependents` | scripts/ci-dev-affected.ts:1538-1554 | the queue loop terminates with exactly the least set of names holding the touched ones and closed under dependents |
| `DependentClosure.SelectionIsPackages` | scripts/ci-dev-affected.ts:1538-1554 | with unique names the selection holds the workspace packages themselves |
| `DependentClosure.LeastIsUnique` | scripts/ci-dev-affected.ts:1538-1554 | there is only one such least set |
| `DependentClosure.LeastIsReach` | scripts/ci-dev-affected.ts:1538-1554 | that set holds exactly the names some chain of dependents leads to from a touched one |
| `DependentClosure.DependsOnIff` | scripts/ci-dev-affected.ts:1556-1566 | a workspace package is depended on through any range, another name only through the workspace protocol, and in every scope |
| `DependentClosure.ReverseDependencies` | scripts/ci-dev-affected.ts:1875-1883 | the reverse lists hold exactly the path dependencies of the metadata |
| `DependentClosure.ExpandCargoDependents` | scripts/ci-dev-affected.ts:1875-1890 | the Cargo breadth-first search meets the same least-closure specification |
| `ChangedPaths.NormalizeChangedPaths` | scripts/ci-dev-affected.ts:1674-1682 | fails exactly on an unsafe entry, naming the first; otherwise the distinct cleaned entries in order |
| `ChangedPaths.CanonicalIsStableIff` | scripts/ci-dev-affected.ts:1674-1682 | stored paths are accepted as canonical if and only if no reported path was a "./" before white space |
| `ChangedPaths.StoredPathCanBeRefused` | scripts/ci-dev-affected.ts:2345-2346 | a concrete reported path whose stored form the loader refuses |
| `PathLaws.ParentIff` | scripts/ci-dev-affected.ts:1677 | the three parent tests together find a parent segment that is alone or has another segment after it |
| `PathLaws.UnsafeIff` | scripts/ci-dev-affected.ts:1677 | a changed path is refused exactly for an empty or dot segment, a parent segment with more after it or alone, or a drive letter |
| `PathLaws.SafeEntryStaysIn` | scripts/ci-dev-affected.ts:1674-1682 | no accepted changed path leads out of the repository |
| `PathLaws.CleanForms` | scripts/ci-dev-affected.ts:1675 | white space around a path and one leading "./" make no difference |
| `PathLaws.AcceptedDirStaysInIff` | scripts/ci-dev-affected.ts:1728-1732 | a directory the loader takes leads out of the repository exactly when it is ".." by itself |
| `PathLaws.ParentIsAccepted` | scripts/ci-dev-affected.ts:1728-1732 | and the loader does take that one |
| `TaskIdentity.Base64UrlIsInjective` | scripts/ci-dev-affected.ts:1794 | unpadded base64url of different bytes differs |
| `TaskIdentity.DigitIs` | scripts/ci-dev-affected.ts:1794 | the digits are those of the base64url alphabet |
| `TaskIdentity.GroupSpells` | scripts/ci-dev-affected.ts:1794 | four digits spell the 24 bits of three bytes |
| `TaskIdentity.StableIsInjective` | scripts/ci-dev-affected.ts:1793 | identities agree only when domain, id and location all do |
| `AffectedTasks.DeserializeAll` | scripts/ci-dev-affected.ts:2372-2396 | loads exactly when every stored task does; otherwise reports the first failing task's error |
| `AffectedTasks.LoadCanonicalPlan` | scripts/ci-dev-affected.ts:2331-2371 | accepts exactly the canonical, loadable, distinct, complete plans in which the trimmed matrix key, if any, finds a task with the shard's flags, and names the first failing check |
| `AffectedTasks.ConsistentMeans` | scripts/ci-dev-affected.ts:2356-2369 | the checks hold exactly when no key or identity repeats, a pull request has a task for every changed package test on disk, and the shard agrees |
| `AffectedTasks.MatrixIff` | scripts/ci-dev-affected.ts:2364-2369 | a shard agrees exactly when its trimmed key names a task with its three flags |
| `AffectedTasks.UnknownShardIsRefused` | scripts/ci-dev-affected.ts:2364-2369 | a shard whose key names no task is refused |
| `AffectedTasks.ReloadKeeps` | scripts/ci-dev-affected.ts:1952-1975 | a stored task loads exactly when its directory is safe, and keeps key, identity, capabilities and matrix flags |
| `AffectedTasks.ReloadAll` | scripts/ci-dev-affected.ts:1952-1975 | a stored plan loads exactly when every directory is safe, with unchanged descriptors |
| `AffectedTasks.ConsistentTransfers` | scripts/ci-dev-affected.ts:602-614 | tasks with the same descriptors pass exactly the same checks, for every shard and without one |
| `AffectedTasks.AcceptsIff` | scripts/ci-dev-affected.ts:2331-2396 | storing and loading changes no verdict: the loader accepts exactly canonical paths and safely placed tasks that pass the checks as planned |
| `AffectedPaths.PackageTestIsMapped` | scripts/ci-dev-affected.ts:1166-1194 | no package test takes a branch of the path loop that skips the test mapping |
| `PlannerKeys.RenderIsInjective` | scripts/ci-dev-affected.ts:1502-1514 | different planner keys are different strings |
| `PlannerKeys.NativeAgrees` | scripts/ci-dev-affected.ts:546-574 | the string tests on task keys classify planner keys as intended |
| `PlannerKeys.RustAgrees` | scripts/ci-dev-affected.ts:576-597 | which planner keys get a Rust toolchain and which run under nextest |
| `AffectedPlan.TaskMap.Add` | scripts/ci-dev-affected.ts:1502-1514 | the first insertion of a key wins; the key set grows by that key |
| `AffectedPlan.TaskMap.PlanPath` | scripts/ci-dev-affected.ts:1166-1257 | one changed path adds exactly the keys it demands and sets the workflow flags it calls for |
| `AffectedPlan.TaskMap.EnsureNativeBuild` | scripts/ci-dev-affected.ts:1439-1444 | adds the native producer exactly when a key needs the addon and none builds it |
| `AffectedPlan.MappedTests` | scripts/ci-dev-affected.ts:1394-1413 | at most one test, and an existing changed package test is its own |
| `AffectedPlan.MappedIff` | scripts/ci-dev-affected.ts:1394-1413 | any other file maps to a test exactly when that is the only test file named after it in its scope |
| `AffectedTasks.TestFileIff` | scripts/ci-dev-affected.ts:1464-1466 | test files are exactly the paths that end in the two test extensions |
| `AffectedCoverage.ScopeIs` | scripts/ci-dev-affected.ts:1408-1409 | a file outside every package has the tests of its own directory |
| `AffectedCoverage.TestMapsToItself` | scripts/ci-dev-affected.ts:1395-1401 | a changed test maps to itself alone, and exactly when it is indexed or a plain package test on disk |
| `AffectedCoverage.SourceTestIsPlanned` | scripts/ci-dev-affected.ts:1394-1413 | a changed source file whose name has just one test in its scope has that test planned |
| `AffectedPlan.PlanTargetedTasks` | scripts/ci-dev-affected.ts:1130-1284 | the plan's keys are exactly the demanded ones, each once, and each task runs at the root or in the package it is named after |
| `AffectedPlan.PathsKeysIff` | scripts/ci-dev-affected.ts:1166-1257 | a key is demanded exactly when some changed path demands it |
| `AffectedPlan.PlanIgnoresOrder` | scripts/ci-dev-affected.ts:1130-1284 | the demanded keys depend on the set of changed paths alone, not on their order or repetition |
| `AffectedCoverage.FullIff` | scripts/ci-dev-affected.ts:1155 | the whole workspace is planned exactly when a root file changed and not just the root manifest with its release harness |
| `AffectedCoverage.RustIff` | scripts/ci-dev-affected.ts:1183-1190 | the Rust check and the Rust tests are planned exactly when a relevant Rust path that no earlier branch claims has changed |
| `AffectedCoverage.InstallIff` | scripts/ci-dev-affected.ts:1191-1194 | the install methods are tried exactly for an unclaimed install path or one the tab worker smoke watches |
| `AffectedCoverage.WorkflowIff` | scripts/ci-dev-affected.ts:1172-1182 | the parse check exactly for a workflow file; self-tests, dry run and permission check exactly for a workflow file or a CI script |
| `AffectedCoverage.ContractsIff` | scripts/ci-dev-affected.ts:1195-1217 | the release, schema and package smokes exactly for the open paths their tables name |
| `AffectedCoverage.FallbackIff` | scripts/ci-dev-affected.ts:1238-1256 | wrapper and CLI smokes and the root check exactly where no test covers an open path, or the whole workspace is planned |
| `AffectedCoverage.NativeProducerIff` | scripts/ci-dev-affected.ts:1439-1444 | the native producer exactly for the custom provider document, the whole workspace, or a planned task that needs the addon |
| `AffectedCoverage.CheckIff` | scripts/ci-dev-affected.ts:1233-1236 | a package is checked exactly when it has a check and is the first to contain some relevant open path |
| `AffectedCoverage.TestIff` | scripts/ci-dev-affected.ts:1130-1284 | a test is planned exactly for a document that gates it, the whole workspace with its suite, a relevant path that calls for it, or a risk class some relevant path is in |
| `AffectedCoverage.CratesAreTested` | scripts/ci-dev-affected.ts:1621-1628 | every file under crates or .cargo that is no document has the Rust check and tests planned |
| `AffectedCoverage.CargoFilesAreTested` | scripts/ci-dev-affected.ts:1621-1628 | so has every Cargo manifest, lock file, toolchain and formatter file that no earlier branch claims, in any directory |
| `AffectedCoverage.WorkflowsAreChecked` | scripts/ci-dev-affected.ts:1658-1660 | every workflow file that is no document has all four workflow tasks planned |
| `AffectedCoverage.CiScriptsAreChecked` | scripts/ci-dev-affected.ts:1488-1490 | the planner's own scripts and tests are self-tested, dry-run and checked for permissions |
| `AffectedCoverage.InstallersAreTried` | scripts/ci-dev-affected.ts:1630-1632 | install scripts and Docker files have the install methods tried |
| `AffectedCoverage.DocumentsAreFree` | scripts/ci-dev-affected.ts:1136-1154 | changes to documents outside the embedded ones plan nothing at all |
| `AffectedCoverage.BundledPromptsAreSource` | scripts/ci-dev-affected.ts:1447-1451 | markdown bundled into a runtime reaches the test mapping like source |
| `AffectedPlan.NoTestOmitted` | scripts/ci-dev-affected.ts:1394-1413 | a changed package test that exists on disk has its own task |
| `AffectedPlan.NativeIsBuilt` | scripts/ci-dev-affected.ts:1439-1444 | a plan with a task that needs the addon has a task that builds it |
| `AffectedBuild.RequiresCargoWorkspaceEmergency` | scripts/ci-dev-affected.ts:1829-1836 | true exactly when a selected crate's name is borne by several supported crates, by count and by two different positions |
| `AffectedBuild.PlanIsDistinct` | scripts/ci-dev-affected.ts:1762-1774 | keys and identities are pairwise distinct across planner, native, TypeScript and Cargo tasks |
| `AffectedBuild.ProducerOnceAndFirst` | scripts/ci-dev-affected.ts:1762-1774 | the native producer occurs at most once and before every TypeScript and Cargo build |
| `AffectedBuild.ConsumerHasProducer` | scripts/ci-dev-affected.ts:1762-1774 | a plan with a task that consumes the addon contains the producer |
| `AffectedBuild.CargoProducerIff` | scripts/ci-dev-affected.ts:1768-1770 | the crate-level trigger fires exactly when the addon's crate is built, by itself or with the whole workspace |
| `AffectedBuild.ProducerIff` | scripts/ci-dev-affected.ts:1762-1774 | the producer is planned exactly when a planned task builds or needs the addon, a TypeScript unit does, or its crate is built |
| `AffectedAcceptance.ResolvedCovers` | scripts/ci-dev-affected.ts:1479-1486 | no changed package test that exists is left out of the resolved plan |
| `AffectedAcceptance.ResolvedIsPlacedIff` | scripts/ci-dev-affected.ts:1728-1732 | the plan's directories are safe if and only if those of the packages and TypeScript units with tasks of their own are |
| `AffectedAcceptance.OwnTaskIsDemanded` | scripts/ci-dev-affected.ts:1330-1387 | a package has a task of its own only when a check or test suite in its directory, or the isolated host test, is demanded |
| `AffectedAcceptance.DemandedCheckOwnsTask` | scripts/ci-dev-affected.ts:1233-1236 | the demanded check of a package with a unique name is a task of its own |
| `AffectedAcceptance.ShardIsFoundIff` | scripts/ci-dev-affected.ts:2364-2369 | a shard of the plan is found again exactly when its key survives trimming or a task with the trimmed key has the same flags |
| `AffectedAcceptance.EmittedPlanIsAcceptedIff` | scripts/ci-dev-affected.ts:2331-2396 | the loader accepts an emitted plan, empty or not, with no matrix key or for a shard started from it, if and only if no reported path was a "./" before white space, the packages and units with tasks of their own sit in safe directories, and the key is found after trimming |
| `AffectedAcceptance.SpacedNameIsRefused` | scripts/ci-dev-affected.ts:2364-2369 | a changed test of a package named with a trailing space plans a check whose own shard refuses the plan |
| `BenchGate.RankedIff` | scripts/native-bench-ab.ts:174-179 | the k-th smallest sample is at most x exactly when more than k samples are |
| `BenchGate.OrderStatisticWithin` | scripts/native-bench-ab.ts:174-179 | a pointwise bound on paired samples bounds every order statistic |
| `BenchLaws.QuantileIff` | scripts/native-bench-ab.ts:174-179 | a quantile is at most x exactly when that share of the values is |
| `BenchGate.ResamplePairs` | scripts/native-bench-ab.ts:205-211 | both sides are resampled at the same positions of the generator's stream |
| `BenchGate.PairedBootstrapRatio` | scripts/native-bench-ab.ts:190-214 | the interval over the generated draws, or the error for mismatched or non-positive samples |
| `BenchLaws.DrawsAt` | scripts/native-bench-ab.ts:181-209 | every drawn index is the generator's state at its place in the stream, modulo the number of pairs |
| `BenchLaws.IntervalIff` | scripts/native-bench-ab.ts:190-214 | the interval is below a threshold exactly when at most one draw in forty is slower, and above it exactly when more than thirty-nine are |
| `BenchGate.IntervalWithin` | scripts/native-bench-ab.ts:190-214 | for every index stream a pointwise upper bound on the samples bounds the whole interval |
| `BenchGate.IntervalBeyond` | scripts/native-bench-ab.ts:190-214 | for every index stream a pointwise lower bound on the samples bounds the whole interval |
| `BenchGate.SummarizeBlocks` | scripts/native-bench-ab.ts:303-305 | one median and one 95th percentile per block, failing exactly on an empty block |
| `BenchGate.MakeLatencyResult` | scripts/native-bench-ab.ts:444-467 | the verdict over the two generated streams exactly when no error applies, and otherwise the first error: mismatched, empty or non-positive samples, or no resamples; blocks may differ in size |
| `BenchGate.NoSlowerPasses` | scripts/native-bench-ab.ts:444-467 | head samples within three percent of their pairs give PASS for every index stream |
| `BenchGate.UniformlySlowerFails` | scripts/native-bench-ab.ts:444-467 | head samples slower than their pairs by one factor above 1.03 give FAIL for every index stream |
| `BenchLaws.VerdictIff` | scripts/native-bench-ab.ts:444-467 | PASS and FAIL by counting the draws whose resampled medians are slower than 1.03, and tails than 1.10 |
| `BenchLaws.SlowEverywhereFails` | scripts/native-bench-ab.ts:462-464 | tails slower than 1.10 in every block, or medians slower than 1.03, counted on the samples, FAIL for every index stream |
| `BenchLaws.FastEverywherePasses` | scripts/native-bench-ab.ts:462-464 | neither slower in any block: PASS for every index stream |
| `BenchLaws.PassKeepsUp` | scripts/native-bench-ab.ts:462-464 | a PASS means some block keeps up in the tail and some block in the median |
| `BenchLaws.TailOutgrows` | scripts/native-bench-ab.ts:174-179 | more than one head sample in twenty beyond 1.10 times every base sample is a slower tail |
| `BenchGate.AssessLatencyRound` | scripts/native-bench-ab.ts:289-293 | FAIL exactly on no cases or a failing case, PASS exactly when every case passes |
| `ReferencePlan.ValidateScriptPlan` | scripts/benchmark-code-mode.ts:212-252 | accepts exactly the plans of three to eight well-formed steps linked to earlier ones |
| `ReferencePlan.CheckStep` | scripts/benchmark-code-mode.ts:227-247 | accepts exactly the linked steps, and reports the first of the duplicate, malformed, unknown and unlinked faults |
| `ReferenceLaws.CollectAccounts` | scripts/benchmark-code-mode.ts:184-205 | collecting finds exactly the references at any depth of a value, or reports a malformed one that is there |
| `ReferenceLaws.IdIff` | scripts/benchmark-code-mode.ts:159 | an id is a letter and up to 39 letters, digits, underscores and hyphens |
| `ReferenceLaws.SelectIff` | scripts/benchmark-code-mode.ts:162-170 | a dot path is a name, then names and numbers, none of which reaches a prototype |
| `ReferenceLaws.ReferenceIff` | scripts/benchmark-code-mode.ts:153-181 | a reference object has exactly its two or three properties, each a text of its kind, with a literal of 1 to 256 characters |
| `ReferenceLaws.StepIff` | scripts/benchmark-code-mode.ts:221-232 | a step is an object of exactly an id, a tool named read or search, and an input object |
| `ReferenceLaws.RawStepsIff` | scripts/benchmark-code-mode.ts:212-217 | a plan is an object with nothing but an array of steps |
| `ReferenceLaws.LinkedIff` | scripts/benchmark-code-mode.ts:227-247 | a step is linked exactly when its id is new, every reference in its input is well formed and names an earlier step, and its path, pattern or paths refer to the preceding one |
| `ReferencePlan.ResolveIsSound` | scripts/benchmark-code-mode.ts:298-317 | a value whose references are well formed and known resolves to a reference-free value or fails on data alone |
| `ReferencePlan.ResolvedWasKnown` | scripts/benchmark-code-mode.ts:298-317 | only values whose references are well formed and known resolve |
| `ReferenceLaws.WalkIff` | scripts/benchmark-code-mode.ts:280-296 | selecting returns the value at the end of the dot path, one array index or own property per segment |
| `ReferenceLaws.FollowIff` | scripts/benchmark-code-mode.ts:298-312 | a reference yields the text or texts at its path in the named result, or the literal that text contains |
| `ReferenceLaws.ResolveIsPointwise` | scripts/benchmark-code-mode.ts:298-317 | resolving replaces reference objects and changes nothing else, element by element |
| `ReferenceLaws.FreeIff` | scripts/benchmark-code-mode.ts:298-317 | a value is free of references exactly when no way down ends in one |
| `ReferencePlan.LinkedInputIsPlain` | scripts/benchmark-code-mode.ts:764-765 | no accepted step's input is itself a reference, so it stays an object |
| `ReferencePlan.AcceptedStepResolves` | scripts/benchmark-code-mode.ts:761-783 | when every earlier step has a result, an accepted step never meets an unknown or forward reference |
| `ReferencePlan.Execute` | scripts/benchmark-code-mode.ts:761-783 | each executed input is its step resolved against earlier results; in an accepted plan all are reference-free; a run aborts at its first step that does not resolve, is refused or throws, with that error |
| `ChunkedSearch.ReadInto` | scripts/dev-link.ts:239 | a read lands right after the carried overlap, inside the buffer |
| `ChunkedSearch.MoveToFront` | scripts/dev-link.ts:244 | the in-place overlapping copy moves exactly the tail to the front |
| `ChunkedSearch.SearchChunk` | scripts/dev-link.ts:239-245 | one iteration reports a match in the file read so far, or carries the right overlap |
| `ChunkedSearch.FileContainsBytes` | scripts/dev-link.ts:228-253 | for every file, needle and sequence of short non-zero reads: true exactly when the non-empty needle occurs; never true otherwise even with early end of file |
| `TextSniff.TrimSplitUtf8Sequence` | scripts/rebrand-inventory.ts:248-257 | the backward walk drops what the cut lemma is about, and only on truncation |
| `TextSniff.TrimmedCutIsValid` | scripts/rebrand-inventory.ts:248-257 | cutting valid UTF-8 anywhere and trimming leaves valid UTF-8, a prefix, at most three bytes shorter |
| `TextSniff.IsBinary` | scripts/rebrand-inventory.ts:270-286 | truncation alone never makes valid text binary: for valid input only control bytes decide; up to 8000 bytes that is a zero byte or more than three tenths control bytes |
| `TextSniff.NonTextCounts` | scripts/rebrand-inventory.ts:279-284 | the count is of control bytes other than tab, line feed, form feed and carriage return, and of delete |
| `TextSniff.WindowIs` | scripts/rebrand-inventory.ts:272-273 | up to 8000 bytes the whole input is looked at, beyond that its front up to a character boundary |

## Left out

- Compression and hashing: gzip is a parameter, assumed inverse where idempotence is stated; digests are
  uninterpreted, the integrity string assumed injective where exact bytes are concluded.
- JSON text, `JSON.parse` and shape checks on untyped values: models start from decoded values.
- `localeCompare` sorting of closure results, build units and crates: closures are sets and maps; orders of
  build tasks are taken as given.
- Unicode case folding in the changelog scripts is the parameter `lower`, of which nothing is assumed. Lone
  surrogates in JavaScript strings are not modelled.
- `BenchGate` uses real numbers; the step of the xorshift generator is a parameter, only its index range
  matters. Non-finite samples, adapters and reruns are not modelled.
- `AffectedPlan.PlanTargetedTasks`: states the exact set of task keys and where each task runs; commands,
  descriptions and the order of first insertion are not part of this model.
- `AffectedPlan.TaskMap.PlanPath`: states the key set and the flags, for the same reason.
- `AffectedPlan.TaskMap.Add`: states the key set, not the whole entry list.
- Literal path tables of the planner (behavioural owners, risk classes, platform paths, smoke paths) are abstract
  functions and lists in `Tables` and `Gates`; push and full planning modes are left out.
- Which crates and TypeScript units are selected for building enters `AffectedBuild` as a parameter; the
  closures themselves are modelled, the fallback decisions only add case analysis.
- `AffectedTasks.LoadCanonicalPlan`: starts from a decoded plan whose shape, source SHA and digest have passed;
  those checks are type tests and equality tests on opaque strings.
- `DependentClosure.ExpandCargoDependents`: takes readable metadata that agrees with the inventory; the fallback
  to all crates and the drift errors only add case analysis.
- Registry: the tag document, the version document's tarball address and the download are arbitrary; the
  version document's integrity is truthful when present. Reading the retained file, npm and the final
  re-observation sweep are left out.
- Evidence store: directory creation and durability after power loss are left out; a crash stops a writer.
- Fragment file names, discovery and the pull-request check on unreleased edits: file-system and git plumbing.
- `validateTaskPlan` and tool argument schemas in the benchmark: argument checking is an outcome of `Execute`.
- Build metadata in versions; release channels other than their effect on tag comparison.
- Files with other scripts' plumbing (release notes, workflow checks, code signing, host detection): they
  would only add easy members.
