# A Dafny model of anodizer's release core

anodizer is a release pipeline. Much of `crates/core` has to do one of two
things: reproduce exactly what another pass of the pipeline does, or put mutable
state back exactly as it was. This project models that code in Dafny and proves
those agreements and invariants for all inputs and all runs.

| part | files |
|---|---|
| crash-safe file write, as a step protocol with crashes and any number of writers | `TempNames`, `FsAtomic`, `FsAtomicSafety`, `FsAtomicShared`, `AtomicWrite` |
| templates and the variables they depend on | `Templates`, `OneVariable` |
| deferred versions in installer URLs, against what a release uploads | `DeferredVersion`, `ReleaseSpelling`, `ArchiveName`, `ArchiveStage`, `DefaultName`, `Binstall`, `NameLocality`, `NamedBuild`, `InstallUrl`, `BuilderNames` |
| template scopes that must be put back | `TemplateScope`, `CrateScope`, `BuildScope` |
| CPU-level detection and its agreement with the planner | `RustFlags`, `ReproFlags`, `TargetEnv`, `BuildSelect`, `BuildEnv`, `ConfigLevel`, `PlannerLevel` |
| the defaults merge | `Json`, `JsonMerge`, `DefaultsMerge`, `ApplyDefaults`, `DefaultsKeep`, `DefaultsArrive` |
| scanners and parsers | `EnvExpand`, `Elf`, `Checksums`, `ManifestDrift` |
| planning and guards | `Builds`, `BuildPlan`, `BuiltTargets`, `ChangelogScope`, `ArchPathGuard` |
| shared vocabulary | `Prelude`, `Text`, `Lists` |

Code that changes state step by step is modelled as classes and methods
(`TemplateVars`, `Disk`, `Config`, `Guard`), each tied by its `ensures` to a
function of the old state; the theorems are about those functions. Code that
only computes is modelled as functions.

## Where the code and its promises part

Several promises turn out to hold only under a condition. Each is stated as an
"if and only if" (or with the smallest condition found) beside a failing input.

- **Idempotent defaults.** The comment at `crates/core/src/defaults_merge.rs:90-93`
  calls `apply_defaults` idempotent without qualification. `FoldTwiceExactly`
  gives the exact condition: no list default without an identity key (archives
  excepted where a crate disables them) and no publish hook list to append.
  `ExtraPass` says what each further pass adds.
- **Atomic writes.** `AlwaysWholeExactly`: no reader and no crash ever sees a torn
  file exactly when no target is a temp name and calls that share a temp name all
  write nothing.
- **Restoring the template scope.** String variables and the template env come
  back exactly, on errors too. A structured variable under a seeded name does not
  (`UntouchedExactly`), because setting a string variable evicts it.
- **Reproducible builds.** The comment at `crates/core/src/build_env.rs:575-582`
  says appended flags can never carry a `target-cpu` token.
  `PlannerSeesBaseExactly`: true exactly when the working directory names no
  level after its first whitespace; `/w -Ctarget-cpu=x86-64-v3` breaks it
  (`SpacedCwdExample`).
- **Encoded flag lists.** An argument list survives the encoded form exactly when
  no argument is empty or holds whitespace (`EncodedArgsExactly`); otherwise the
  level can change (`EmptyArgChangesLevel`).
- **Deferred versions.** `DeferredExactly`: faithful exactly when the fixed text
  before a version position, with two underscores appended, holds no sentinel,
  and the last run holds none. `SpellingExactly`: a template with one version
  variable resolves to the release's own text exactly when the release spells it
  as the stamp does; a prefixed tag or a prerelease's `RawVersion` does not.
- **One name on both sides.** The archive stage binds `CrateName`, the derivation
  does not. `StagesAlikeExactly`: all templates agree exactly when the caller's
  `CrateName` is the crate; `{{ .CrateName }}` is the failing one. Build stage and
  derivation also render a `binary:` in different scopes. `ScopesAgreeExactly` has
  the law of each variable: `Arch` and `Arm` differ on 32-bit ARM, `Arm64` on
  aarch64, `I386`, `Ppc64` and `Riscv64` on their families, `ArtifactExt` and
  `ArtifactID` unless the caller has the seeded values; `BuilderNamesExactly`
  gives the condition on the template.
- **Listed is not built.** Targets are listed without reading `ignore:`.
  `ListedIsBuiltExactly` says when a listed target is built; an ignored one still
  gets an override (`IgnoredTargetIsListed`).
- **One target at a time.** The loop over targets leaves `Binary` behind.
  `BinaryLocalExactly`: a target's binary is its own exactly when its template
  does not depend on `Binary`; `LeakingRun` shows one that does.
- **One build.** A name's `Binary` and its CPU level can come from different
  builds (`NamedAndLevelledExactly`, `ImportAfterCompile`).
- **The tag's scope.** The tag is rendered after the target loop, in the scope the
  loop leaves behind. `TagLocalExactly` says when that does not matter;
  `TagSeesLastTarget` shows a tag where it does.
- **The ELF file probe.** With entries of one to three bytes it can index past
  its buffer; `IsDynamicallyLinked` states exactly when, and `OneByteEntryPanics`
  gives an image.
- **Changelog narrowing.** `/**`, `/**/*` and `/*` on their own are taken to cover
  every directory yet match no repository file (`RootSuffixIsUnsound`); `name**`
  is taken to cover `name` and does not parse (`GluedStarsAreUnsound`); so are
  `a//**` (`SlashedBaseWitness`) and `pkg[1]/**` (`BracketBaseIsUnsound`); and
  `Cargo.toml/**` is taken to cover the manifest it does not match
  (`TreeMatchesItselfExactly`).
- **Collision advice.** Advising `Arch` does not help between two 32-bit ARM
  levels under the archive naming, nor `Amd64` between the baseline and an
  unstated level (`ArmAdviceFails`, `BaselineLevelAdviceFails`);
  `AdviceSeparatesExactly` has every case.

## Model

| member | source | states |
|---|---|---|
| TempNames.DecimalInjective | crates/core/src/fs_atomic.rs:34-42 | decimal spellings of two numbers are equal only for equal numbers |
| TempNames.TempNameInjective | crates/core/src/fs_atomic.rs:34-42 | a temp name determines file name, pid and nanoseconds, even when file names contain dots and digits |
| TempNames.TempNameSuffix | crates/core/src/fs_atomic.rs:34-42 | every temp name ends in `.tmp` |
| FsAtomic.InvBoot | crates/core/src/fs_atomic.rs:22-69 | the protocol invariant holds of any directory at rest, hard links between other names included, before any writer starts |
| FsAtomicSafety.InvStep | crates/core/src/fs_atomic.rs:22-69 | every step of every writer, failing ones included, and every crash (un-synced data cut to a prefix, un-synced directory entries old or new) keeps the invariant |
| FsAtomicSafety.InvRun | crates/core/src/fs_atomic.rs:22-69 | the invariant holds after every interleaving of any number of writers and crashes |
| FsAtomicSafety.NeverTorn | crates/core/src/fs_atomic.rs:1-21 | in every reachable state, and in every image a crash there can leave, each non-temp file holds its complete original contents or the complete contents of one writer that renamed |
| FsAtomicSafety.DurableWriteStays | crates/core/src/fs_atomic.rs:58-69 | once a writer's directory sync succeeded, its target holds its contents or those of a writer that renamed later, before and after any crash |
| FsAtomicSafety.OnlyRenameIsVisible | crates/core/src/fs_atomic.rs:44-57 | no step but the successful rename changes what any non-temp name reads as |
| FsAtomicSafety.ErrorMeansNoRename | crates/core/src/fs_atomic.rs:44-57 | a writer that returned an error never renamed |
| FsAtomicSafety.NamesSeparate | crates/core/src/fs_atomic.rs:34-42 | targets not ending in `.tmp`, and same-target writers differing in pid or nanoseconds, never get in each other's way |
| FsAtomicSafety.TornByTarget | crates/core/src/fs_atomic.rs:22-69 | a target that is some writer's temp name can be read torn |
| FsAtomicSafety.TornByTemp | crates/core/src/fs_atomic.rs:34-42 | two writers sharing a temp name can publish a torn file |
| FsAtomicShared.AlwaysWholeExactly | crates/core/src/fs_atomic.rs:22-69 | every run, crashes included, from every directory at rest keeps every target whole if and only if no call targets a temp name and calls that share a temp name all write nothing |
| FsAtomicShared.SharedStep | crates/core/src/fs_atomic.rs:22-69 | with temp names shared by calls that write nothing, every step of every call and every crash keeps the weaker invariant: each name holds its original or one published write, an empty one synced or not |
| FsAtomicShared.SharedRun | crates/core/src/fs_atomic.rs:22-69 | so does every interleaving |
| FsAtomicSafety.LinkedTempTears | crates/core/src/fs_atomic.rs:44-45 | a temp name that is already a second name of a non-empty file: opening it tears that file, so the assumption on the starting directory cannot be dropped |
| AtomicWrite.Disk.WriteAll | crates/core/src/fs_atomic.rs:44-49 | for given outcomes of the system calls, the write loop is a run of protocol write steps that ends with all bytes written or in failure, as they say |
| AtomicWrite.Disk.WriteTemp | crates/core/src/fs_atomic.rs:44-49 | creating, writing and syncing the temp file is a protocol run that ends flushed or failed |
| AtomicWrite.Disk.Publish | crates/core/src/fs_atomic.rs:44-57 | temp file then rename is a protocol run that ends renamed or failed |
| AtomicWrite.Disk.Write | crates/core/src/fs_atomic.rs:22-69 | for given outcomes of the system calls: success exactly when the path has a file name and create, write, sync and rename succeed; then the target reads the contents, the temp file is gone, and a successful directory sync leaves nothing else for a crash to bring back; on an error the target reads as before and the temp file is gone if its removal succeeded; no other name changes; the whole call is a run of the protocol |
| AtomicWrite.StepWellFormed | crates/core/src/fs_atomic.rs:22-69 | each step keeps the directory well formed and the writer's own file in the state its program counter says |
| TemplateScope.RestoreExact | crates/core/src/crate_scope.rs:200-209 | restoring gives every saved variable its original value or absence, touches no other variable and no env entry, and drops structured variables under saved names, provided `Abi` is restored after `Target` |
| TemplateScope.RestoreOrderMatters | crates/core/src/build_env.rs:38-52 | restoring `Abi` before `Target` loses an `Abi` that is not its target's |
| TemplateScope.TemplateVars.Set | crates/core/src/template/vars.rs:43-56 | a string variable is set, its structured namesake evicted, and setting `Target` also sets `Abi` |
| TemplateScope.AbiIs | crates/core/src/target.rs:169-182 | `Abi` is the fourth field of a triple, without a dotted version; a triple of three fields has none |
| TemplateScope.TemplateVars.Unset | crates/core/src/template/vars.rs:76-84 | the variable goes from both maps (`Abi` with `Target`); the answer says whether it was in either |
| TemplateScope.TemplateVars.SetEnv | crates/core/src/template/vars.rs:108-110 | one env entry set, nothing else changed |
| TemplateScope.TemplateVars.UnsetEnv | crates/core/src/template/vars.rs:131-135 | one env entry removed; the answer says whether it was there |
| TemplateScope.TemplateVars.PutBackAll | crates/core/src/crate_scope.rs:200-209 | the restore loop computes the restore that RestoreExact is about |
| ArchiveName.SeedTargetVars | crates/core/src/archive_name.rs:135-155 | the in-place seeding computes the seeding function, in the source's order |
| ArchiveName.ResetVariantVars | crates/core/src/archive_name.rs:164-172 | all seven variant variables are blanked |
| ArchiveName.SeedOverlay | crates/core/src/archive_name.rs:135-155 | seeding any scope overlays one table of values that depends on the target alone |
| ArchiveName.SeededKeys | crates/core/src/archive_name.rs:135-172 | that table covers exactly the eleven per-target variables: a stale one cannot survive |
| ArchiveName.NameScopeOverlay | crates/core/src/archive_name.rs:464-483 | naming overlays on any scope exactly what target, binary and level fix |
| ArchiveName.NameScopeForgets | crates/core/src/archive_name.rs:464-483 | two scopes that differ only in seeded variables give the same naming variables: nothing leaks from one target to the next |
| ArchiveName.NameScopeKeeps | crates/core/src/archive_name.rs:464-483 | naming leaves every other variable alone |
| ArchiveStage.SeedArchiveNameVars | crates/core/src/archive_name.rs:301-313 | the archive stage seeds target, level, crate and binary, in that order |
| ArchiveStage.SeedAmd64VariantVar | crates/core/src/archive_name.rs:278-290 | the group's level, else the architecture's default |
| ArchiveStage.ScopesAgree | crates/stage-archive/src/plan.rs:147-161 | the scope the archive stage names under is the derivation's scope with the crate's name added: they agree on every other variable |
| ArchiveStage.StagesAlikeExactly | crates/core/src/archive_name.rs:301-313 | every template names alike in the derivation and in the archive stage if and only if the caller's `CrateName` is the crate |
| ArchiveStage.TemplateAlikeExactly | crates/core/src/archive_name.rs:301-313 | a template names alike in every scope and for every crate if and only if it does not depend on `CrateName` |
| ArchiveStage.CrateNameTemplateDiffers | crates/core/src/binstall.rs:400-452 | `{{ .CrateName }}` renders at upload and fails, or is misnamed, in a deriving scope without the crate's name |
| DefaultName.DefaultNameIs | crates/core/src/archive_name.rs:30-55 | the default names of any target in any scope, as text: project (or binary), version, OS, the architecture with its ARM version put together again, and the level when one above the baseline is stated |
| DefaultName.DefaultUploadIs | crates/core/src/archive_name.rs:301-313 | the archive stage gives the same names, whatever the crate |
| DefaultName.DefaultNamesCollideExactly | crates/core/src/archive_name.rs:30-55 | two default names of a release are the same if and only if the OS is, and architecture and level put together |
| DefaultName.LevelsShareExactly | crates/core/src/archive_name.rs:30-55 | on one platform an unstated and the baseline level share a name, and no other two levels do |
| Templates.DependsExactly | crates/core/src/archive_name.rs:30-55 | rendering is unaffected by a set of variables, whatever the others hold, if and only if the template neither refers to them nor has a clause with text on one of them where the fixed variables leave it on |
| Templates.RenderReads | crates/core/src/archive_name.rs:30-55 | a render depends only on the variables its template names |
| DeferredVersion.RenderIsJoin | crates/core/src/binstall.rs:545-584 | a render over variables with version holes is its fixed runs with the version between them, and fails exactly when the runs do |
| DeferredVersion.RunsAgree | crates/core/src/binstall.rs:571-584 | what is in the holes does not change the fixed runs, when every clause comes out alike |
| DeferredVersion.ReplaceTidy | crates/core/src/binstall.rs:303-323 | when no occurrence starts inside a run, left-to-right replacement swaps the stamped positions and nothing else |
| DeferredVersion.ReplaceUntidy | crates/core/src/binstall.rs:303-323 | when one does, the replaced string is wrong |
| DeferredVersion.QuietExactly | crates/core/src/binstall.rs:17-17 | an occurrence of the sentinel starts inside a run before a stamp if and only if the run plus two underscores contains the sentinel: no other straddling exists |
| DeferredVersion.InnerFreeIsQuiet | crates/core/src/binstall.rs:17-17 | text without the sentinel's inner word is always safe |
| DeferredVersion.DeferredExactly | crates/core/src/binstall.rs:303-323 | stamp, render, replace equals rendering with the token in the version positions, if and only if the runs are quiet; also for variables that carry the version inside other text, such as a versioned binary name |
| DeferredVersion.DeferredCommutes | crates/core/src/binstall.rs:303-323 | in particular whenever no run contains the inner word |
| DeferredVersion.InstallerResolves | crates/core/src/binstall.rs:545-584 | putting version `v` into the deferred text gives exactly the text rendered with `v` in the holes |
| DeferredVersion.FillStamp | crates/core/src/binstall.rs:571-584 | stamping a version into a scope is filling the holes of its three version variables |
| DeferredVersion.BlindIsSteady | crates/core/src/binstall.rs:571-584 | a template that compares no version variable with the stamped text comes out alike for both versions |
| ReleaseSpelling.ReleaseResolves | crates/core/src/binstall.rs:571-584 | for every template and every release: the installer gets the release's own text whenever the release spells each version variable the template names as the stamp does |
| ReleaseSpelling.SpellingExactly | crates/core/src/binstall.rs:571-584 | a template that names one version variable, outside clause conditions, is resolved to the release's own text if and only if the release spells that variable as the stamp does or nothing of it is rendered |
| OneVariable.OneVariableExactly | crates/core/src/archive_name.rs:30-55 | a template without a condition on a variable tells two scopes apart that differ in it if and only if their values (or presence) differ and some of it is rendered |
| ReleaseSpelling.BareReference | crates/core/src/binstall.rs:571-584 | a bare reference to any of the three resolves to the stamped spelling, and is right exactly when the release has that spelling |
| ReleaseSpelling.PrefixedTagIsMissed | crates/core/src/binstall.rs:571-584 | a release tagged `core-v1.2.0` is not the tag the installer resolves |
| ReleaseSpelling.PrereleaseRawIsMissed | crates/core/src/binstall.rs:571-584 | nor is a prerelease whose `RawVersion` drops its suffix |
| InstallUrl.UrlResolves | crates/core/src/binstall.rs:289-340 | a derived URL with `v` in place of the token is the URL under which the archive stage of a release of `v` uploads that target's archive: the release's own tag, the name rendered in the archive stage's own scope, a binary that may itself carry the version |
| InstallUrl.UploadedIsStamped | crates/stage-archive/src/plan.rs:147-161 | the archive stage's name of a faithful release is the deriving scope's name for that version, when `CrateName` makes no difference |
| InstallUrl.AssetResolves | crates/core/src/binstall.rs:303-323 | derived asset and uploaded asset are the same fixed runs, around the token and around `v` |
| InstallUrl.TagResolves | crates/core/src/binstall.rs:545-566 | the same of the tag |
| InstallUrl.OneBuildRuns | crates/core/src/binstall.rs:407-418 | a `binary:` template puts its own fixed runs, holes included, into the name |
| InstallUrl.DerivedEach | crates/core/src/binstall.rs:316-336 | in a whole derivation exactly the listed targets get assets, exactly the installable ones overrides, each its target's own |
| BuilderNames.VariantTables | crates/core/src/archive_name.rs:135-232 | each variant variable in the two stages: the family's level or blank in the build stage; the ARM version, the amd64 baseline or blank in the derivation |
| BuilderNames.ArchTables | crates/core/src/archive_name.rs:147-155 | `Arch` is whole in the build stage, and `arm` for every 32-bit ARM in the derivation |
| BuilderNames.ArtifactTables | crates/core/src/build_env.rs:62-69 | `ArtifactExt` and `ArtifactID` are seeded by the build stage and the caller's own in the derivation |
| BuilderNames.ScopesAgreeExactly | crates/stage-build/src/run.rs:495-510 | a variable of the build stage's own has one value in both stages exactly as those laws say |
| BuilderNames.BuilderNamesAlike | crates/stage-build/src/run.rs:495-510 | a `binary:` all of whose variables are the same in both stages gets one name from both |
| BuilderNames.BuilderNamesExactly | crates/stage-build/src/run.rs:495-510 | a `binary:` that names one differing variable, not in a condition, gets one name from both stages if and only if that variable is the same in the two or nothing of it is rendered |
| BuilderNames.BuilderBinary | crates/stage-build/src/run.rs:495-510 | the binary the build stage packs is then the derivation's, with the release's version in the holes |
| BuilderNames.ArmDiffers | crates/core/src/archive_name.rs:147-149 | `Arch` and `Arm` differ on every 32-bit ARM target |
| BuilderNames.FamilyDiffers | crates/core/src/archive_name.rs:207-232 | the variable of every family but x86-64 (`Arm64`, `I386`, `Ppc64`, `Riscv64`) differs on that family's targets |
| BuilderNames.Amd64Agrees | crates/core/src/archive_name.rs:150-153 | `Amd64` is the same exactly where triple and architecture token agree on being x86-64 |
| BuiltTargets.ListedIsBuiltExactly | crates/core/src/build_plan.rs:185-209 | a listed target is built if and only if some surviving build that names it does not ignore it; the list never reads `ignore:` |
| BuiltTargets.BuiltIsListed | crates/stage-build/src/run.rs:443-452 | what the build stage builds is always listed |
| BuiltTargets.IgnoredTargetIsListed | crates/stage-build/src/run.rs:443-452 | one build that names a target and ignores its platform: the target is listed, so it gets an asset and an override, and is never built |
| InstallUrl.UrlOfRuns | crates/core/src/binstall.rs:323-327 | the host part and the slashes between tag and asset cannot create or hide a token |
| InstallUrl.UrlFields | crates/core/src/binstall.rs:323-327 | field by field the URL is the forge, owner, repository, `releases`, `download`, tag and asset |
| Binstall.CrateArchiveAssetNames | crates/core/src/binstall.rs:369-465 | nothing without an archive entry or listed targets; else the target loop's assets; on success the variables left are the last target's with `Binary` put back; on errors too only seeded variables differ, and structured ones only under the touched names |
| Binstall.RenderAll | crates/core/src/binstall.rs:400-452 | the loop is the walk in which each turn starts from the variables the one before left, and stops at the first error; on success the variables are those the last turn left |
| Binstall.RenderOne | crates/core/src/binstall.rs:402-450 | one turn: the target is seeded before the binary's name renders in the live scope, the level is searched with that binary bound, and the asset and the variables left behind are functions of the live variables and env |
| Binstall.BindTarget | crates/core/src/binstall.rs:407-440 | seed, render the binary's name in the seeded scope, bind it, find the level in the scope so bound |
| Binstall.SeedWithLevel | crates/core/src/archive_name.rs:464-483 | seeding again with the level gives the naming variables, whatever was seeded before |
| NameLocality.WalkIsLocal | crates/core/src/binstall.rs:400-452 | for a crate whose `binary:` and `skip:` texts do not read `Binary`, every target gets the name it would get alone and the loop fails exactly when some target alone would |
| NameLocality.AssetIsLocal | crates/core/src/binstall.rs:402-450 | such an asset, level included, is the same from any scope that differs only in what naming writes |
| NameLocality.BinaryLocalExactly | crates/core/src/binstall.rs:407-418 | for a `binary:` that renders as a template, the binary is the same whatever an earlier target left if and only if the template does not depend on `Binary` on that target |
| NameLocality.IgnoresExactly | crates/core/src/binstall.rs:407-418 | a text that renders as a template ignores variables exactly when the template does not depend on them |
| NameLocality.LeakingRun | crates/core/src/binstall.rs:407-418 | `binary: "{{ .Binary }}x"`: the second target's binary carries the first one's |
| NamedBuild.NamedAndLevelledExactly | crates/core/src/build_env.rs:391-458 | an unfiltered archive takes `Binary` from the first released build in config order and the level from the first in class order; they are the same build if and only if no released build of a lower class follows the first |
| NamedBuild.ImportAfterCompile | crates/core/src/build_env.rs:391-458 | a compile followed by an import of the same target: the import decides the level |
| NamedBuild.ChosenIsBuilt | crates/core/src/build_env.rs:391-458 | the level search picks a build exactly when the build stage builds the target with it |
| NamedBuild.CompileBeforeCopy | crates/core/src/build_env.rs:391-458 | a copy listed before a compile of the same target does not decide the level |
| Binstall.StampSentinelVersion | crates/core/src/binstall.rs:571-584 | the three version variables hold the sentinel, and what is returned restores them |
| Binstall.RenderTagWithVersionToken | crates/core/src/binstall.rs:545-566 | the deferred tag, an error when it renders blank; the variables are as before on every return |
| Binstall.StampedAssets | crates/core/src/binstall.rs:303-309 | the assets under the stamped scope; version variables put back, on errors too; what is left of variables and of structured variables |
| Binstall.DeriveOverrides | crates/core/src/binstall.rs:289-343 | a function of the caller's variables and env, the tag included: an error exactly when a name or the tag fails; nothing without a repository, an archive entry, targets or an installable format; else exactly the overrides of the installable targets; afterwards only seeded string variables differ, and structured ones only under touched or stamped names |
| Binstall.DeriveEach | crates/core/src/binstall.rs:316-336 | one override for each asset of an installable format, in any order |
| Binstall.TagLocalExactly | crates/core/src/binstall.rs:311-314 | the tag renders alike before and after the target loop, from every scope, if and only if it depends on no per-target variable |
| Binstall.TagIgnoresTargets | crates/core/src/binstall.rs:311-314 | then the whole deferred tag, blank check included, is unaffected by the loop |
| Binstall.WalkLeavesLast | crates/core/src/binstall.rs:400-452 | what a successful loop leaves of a seeded variable is the last target's value |
| Binstall.TagSeesLastTarget | crates/core/src/binstall.rs:311-314 | over any run whose last target is a Linux one, a tag that names `Os` is published under `linux`, where the caller's own scope would have refused it |
| Binstall.PkgFmtExactly | crates/core/src/archive_name.rs:512-523 | an archive format maps to a package format if and only if it is one of the extensions that format stands for |
| Binstall.OverrideFormat | crates/core/src/binstall.rs:316-336 | an override's format stands for the extension its asset's name ends in |
| Binstall.BinaryOutputIs | crates/core/src/archive_name.rs:498-506 | a raw binary keeps its name, with exactly one `.exe` at the end on Windows |
| Binstall.TagRefusedExactly | crates/core/src/binstall.rs:545-566 | the tag is refused exactly when it does not render or renders to whitespace; else it is the render with the token in place of the sentinel |
| RustFlags.Amd64VariantFromRustflags | crates/core/src/build_env.rs:203-231 | the index loop with lookahead finds the first level of the token grammar, whose text LevelText fixes |
| RustFlags.LevelAppend | crates/core/src/build_env.rs:203-231 | detection over appended tokens is the first level of either part, when the second does not start with a bare `target-cpu` argument |
| RustFlags.NeutralTokensKeepLevel | crates/core/src/build_env.rs:203-231 | appending tokens that start with no recognised spelling never changes the level, even after a dangling `-C` or `--codegen` |
| RustFlags.EffectiveIsCargoSource | crates/core/src/build_env.rs:258-282 | tier-by-tier lookup over two maps is cargo's mutually exclusive precedence on the overlaid child environment |
| RustFlags.EncodedArgsKeepLevel | crates/core/src/build_env.rs:258-296 | an encoded list of plain tokens gives back those tokens, and the level of the space-joined list |
| RustFlags.EncodedArgsExactly | crates/core/src/build_env.rs:258-282 | an argument list comes back from the encoded form as it went in if and only if no argument is empty or holds whitespace |
| RustFlags.SpacedArgIsSplit | crates/core/src/build_env.rs:258-282 | an argument with a space comes back as two |
| RustFlags.LevelFromExactly | crates/core/src/build_env.rs:203-231 | no level is detected exactly when no token names one, in any of the three spellings |
| RustFlags.LevelText | crates/core/src/build_env.rs:203-231 | level `v` is detected if and only if the first token that names one spells `x86-64-` and then `v`, joined, with the long option, or in the token after a bare `-C` or `--codegen` |
| RustFlags.VariantFromEnvIs | crates/core/src/build_env.rs:258-296 | off x86-64 no level; on it the level of the flags cargo would take from the child environment |
| RustFlags.EmptyArgIsLost | crates/core/src/build_env.rs:258-282 | an empty encoded argument disappears |
| RustFlags.EmptyArgChangesLevel | crates/core/src/build_env.rs:258-296 | and that can turn no level into one |
| ReproFlags.MergeMsvcDeterminismRustflags | crates/core/src/determinism.rs:69-91 | the loop appends to the trimmed base exactly the missing flags, in order |
| ReproFlags.MergeFlags | crates/core/src/determinism.rs:69-91 | the same for any list of distinct flag arguments, though the loop re-reads the growing string |
| ReproFlags.HasFlagAppend | crates/core/src/determinism.rs:69-91 | pushing a flag makes that flag present and no other |
| ReproFlags.MergedKeepsAndCompletes | crates/core/src/determinism.rs:55-91 | the trimmed base is a prefix of the result, and every required flag is a token window of it |
| ReproFlags.MergedTwice | crates/core/src/determinism.rs:55-91 | merging is idempotent for every base string |
| ReproFlags.MergedKeepsLevel | crates/core/src/build_env.rs:575-582 | merging never changes the detected level, for every base string |
| ReproFlags.PlannerSeesBaseExactly | crates/stage-build/src/rustflags.rs:31-53 | the planner detects the level of the base flags, for all bases, if and only if the working directory names no level after its first whitespace |
| ReproFlags.RuleLevelExactly | crates/stage-build/src/rustflags.rs:41-47 | the remap rule names a level exactly when the working directory, from its first whitespace on, names one: the rule's own ends never complete or hide a flag |
| ReproFlags.SpacedCwdNamesLevel | crates/stage-build/src/rustflags.rs:41-47 | every plain path followed by whitespace and text that names a level breaks the promise |
| ReproFlags.SpacedCwdExample | crates/stage-build/src/rustflags.rs:41-47 | for example `/w -Ctarget-cpu=x86-64-v3` |
| ReproFlags.PlainCwdIsSafe | crates/stage-build/src/rustflags.rs:31-53 | a working directory without whitespace is always safe |
| ReproFlags.ReproBaseTokens | crates/stage-build/src/rustflags.rs:31-53 | the flags a reproducible build starts from are the config's tokens, else the inherited ones; text without a token counts as unset |
| ReproFlags.WithRemapIs | crates/stage-build/src/rustflags.rs:31-53 | the base stays in front, the working directory has a remap rule afterwards, and a base that has one is left alone |
| TargetEnv.SortKeys | crates/core/src/build_env.rs:145-173 | the keys in the one strictly increasing order they have |
| TargetEnv.SortedUnique | crates/core/src/build_env.rs:145-173 | a set of keys has one sorted order, so hash-map iteration order cannot matter |
| TargetEnv.LessExactly | crates/core/src/build_env.rs:145-173 | keys are ordered by their first difference, a proper prefix first |
| TargetEnv.ResolveTargetEnv | crates/core/src/build_env.rs:145-173 | error exactly for an invalid pattern under strict compilation; `None` exactly when nothing matches; each variable from the greatest matching key that sets it |
| TargetEnv.MergeMatching | crates/core/src/build_env.rs:145-173 | the merge loop: failure, match and values, each by the keys visited |
| TargetEnv.LatestIsGreatest | crates/core/src/build_env.rs:145-173 | over sorted keys "last one wins" is "greatest key wins" |
| TargetEnv.GreatestWinsUnique | crates/core/src/build_env.rs:145-173 | at most one environment satisfies that specification |
| TargetEnv.ResolvesUnique | crates/core/src/build_env.rs:145-173 | the whole answer is determined by env, patterns and target |
| TargetEnv.Resolution | crates/core/src/build_env.rs:145-173 | the answer as a function, meeting the specification for every input |
| BuildSelect.OnePassEach | crates/core/src/build_env.rs:391-458 | each build is judged in exactly one of the three passes |
| BuildSelect.Select | crates/core/src/build_env.rs:391-458 | `None` exactly when no build is eligible; else the first eligible build of the lowest class |
| BuildSelect.StableSortIsStable | crates/core/src/build_env.rs:391-458 | the reference sort orders by class and keeps each class's builds in their order |
| BuildSelect.SortedHead | crates/core/src/build_env.rs:391-458 | the deciding build heads the stable-sorted list of eligible builds |
| BuildSelect.SelectIsSortedHead | crates/core/src/build_env.rs:391-458 | the three-pass search refines "filter, stable-sort by class, take the head" |
| BuildScope.VariantAt | crates/core/src/archive_name.rs:207-232 | after seeding, the variable of the target's architecture family holds its level, the other six are blank whatever a previous target left, and nothing else moves |
| BuildScope.VariantOverlay | crates/core/src/archive_name.rs:207-232 | seeding the variants overlays one table, the same on any scope |
| BuildScope.SeedBuildTargetVars | crates/core/src/build_env.rs:62-69 | the in-place seeding computes the seeding function |
| BuildScope.BuildOverlay | crates/core/src/build_env.rs:62-69 | seeding a build's target overlays one table that depends on target and build id alone |
| BuildScope.SeedOwned | crates/core/src/build_env.rs:38-69 | seeding changes only variables that are saved |
| BuildScope.RestoreBuildVars | crates/core/src/build_env.rs:501-573 | saving and restoring around any change confined to the saved variables gives back variables and env |
| BuildScope.UntouchedExactly | crates/core/src/template/vars.rs:43-56 | the whole store is untouched if and only if no structured variable has a seeded name |
| BuildEnv.FindMatchingOverride | crates/core/src/build_env.rs:178-195 | the nested loops compute the first hit |
| BuildEnv.MatchingOverrideIsFirst | crates/core/src/build_env.rs:178-195 | a match is the first override with an applicable pattern; none means no pattern applies; only strict mode errs |
| BuildEnv.RenderKeys | crates/core/src/build_env.rs:519-539 | the loop computes the cascade that CascadeIs is about, and records what the env held before |
| BuildEnv.CascadeIs | crates/core/src/build_env.rs:519-539 | exactly the raw keys; each value is its text rendered under the caller's template env with all rendered values of the keys before it laid over it; the env left behind has all of them |
| BuildEnv.OverlayIs | crates/core/src/build_env.rs:541-551 | of the override's entries the last of a key is rendered; a key without an entry keeps its value |
| BuildEnv.RenderedEnvIs | crates/core/src/build_env.rs:519-551 | the entries render with every rendered block value in the template env |
| BuildEnv.OverrideEntriesAre | crates/core/src/build_env.rs:541-551 | a build's own overrides stand in for the defaults; with none that matches there is no entry |
| BuildEnv.RawFallback | crates/core/src/build_env.rs:519-539 | a value that does not render is used raw, and is expanded either way |
| BuildEnv.UndoEnv | crates/core/src/build_env.rs:553-560 | the undo loop gives back exactly the original env |
| BuildEnv.RenderEnv | crates/core/src/build_env.rs:519-563 | the rendered environment; the whole store is as before, also when overrides fail |
| BuildEnv.BuildEnvAmd64Variant | crates/core/src/build_env.rs:475-594 | on every return variables and template env are untouched; the result is the projection, a function of the caller's original variables and env, which CompileLevelIs, CopyLevelIs and DeclaredDecides pin |
| BuildEnv.CompileLevelIs | crates/core/src/build_env.rs:501-594 | without a declared level, a compile build's level is that of its blocks rendered in the seeded scope in key order, the override's entries over them and a reproducible build's base flags filled in |
| BuildEnv.CopyLevelIs | crates/core/src/build_env.rs:489-499 | a build that copies renders nothing: it has the level of a compile build of plain texts without overrides |
| BuildEnv.DeclaredDecides | crates/core/src/build_env.rs:302-307 | a declared level decides on x86-64; elsewhere no build has a level |
| ConfigLevel.ConfigTimeAmd64Variant | crates/core/src/build_env.rs:391-458 | the deciding build's own level, or its error, with skip expressions rendered in the caller's scope; `None` off x86_64 or with no eligible build; caller's variables and env untouched |
| ConfigLevel.LevelOfDeciding | crates/core/src/build_env.rs:391-458 | the level is the one of the first eligible build of the lowest class |
| ConfigLevel.ImportLevel | crates/core/src/build_env.rs:349-355 | an import on x86-64 has its declared level, else the baseline; elsewhere none |
| PlannerLevel.CompileEnvsAgree | crates/core/src/build_env.rs:575-594 | the environment the projection reads and the one cargo gets carry the same level; only a reproducible build needs the working directory to name none |
| PlannerLevel.ProjectionMatchesPlanner | crates/stage-build/src/run.rs:565-830 | config-time level, in its own (version-stamped) scope, equals the planner's level in the planner's scope, when the build's env texts render alike in the two |
| PlannerLevel.RenderedAlike | crates/stage-build/src/run.rs:618-680 | texts that render alike give the same cascaded and overridden environment |
| CrateScope.WithinRestores | crates/core/src/crate_scope.rs:220-233 | after any body, the five scoped variables are the caller's and every other variable is what the body left |
| CrateScope.WithinNests | crates/core/src/crate_scope.rs:220-233 | a scope inside a scope restores the outer scope's values, then the caller's |
| CrateScope.ScopeBinds | crates/core/src/crate_scope.rs:41-52 | inside, the five variables describe this crate and tag, and no other variable changed |
| CrateScope.ApplyVarOverrides | crates/core/src/crate_scope.rs:182-197 | saves all five variables, then sets the overrides |
| CrateScope.WithCrateScope | crates/core/src/crate_scope.rs:220-233 | an unresolvable or unparsable tag is an error with nothing changed; otherwise the body's result, with the scoped variables restored |
| JsonMerge.DeepMergeJson | crates/core/src/defaults_merge.rs:376-396 | the field loop computes the merge |
| JsonMerge.MergeAt | crates/core/src/defaults_merge.rs:376-396 | at every path: target values survive, a missing or null field takes the default subtree unless an ancestor is a non-null scalar, nothing else appears |
| JsonMerge.PathsDetermine | crates/core/src/defaults_merge.rs:376-396 | a value is determined by what its paths lead to |
| JsonMerge.MergeIsTheOnlyOne | crates/core/src/defaults_merge.rs:376-396 | so the path-wise promise admits no other merge |
| JsonMerge.MergeSelf | crates/core/src/defaults_merge.rs:376-396 | merging a value into itself changes nothing |
| JsonMerge.MergeTwice | crates/core/src/defaults_merge.rs:376-396 | merging the same defaults again changes nothing |
| DefaultsMerge.DeepMergeStruct | crates/core/src/defaults_merge.rs:334-372 | the value that holds, at every path, what the merge promises of block and default, when that value decodes; otherwise the block as it was |
| DefaultsMerge.BlockKeepsPromise | crates/core/src/defaults_merge.rs:334-372 | the same of the merge function, for every value with the promised paths |
| DefaultsMerge.DeepMergeOption | crates/core/src/defaults_merge.rs:306-326 | the four presence cases, skip included |
| DefaultsMerge.MergeBlockTwice | crates/core/src/defaults_merge.rs:334-372 | block merge is idempotent, also when it falls back |
| DefaultsMerge.MergeOptionTwice | crates/core/src/defaults_merge.rs:306-326 | optional-block merge is idempotent |
| DefaultsMerge.MergeKeepsIdentity | crates/core/src/defaults_merge.rs:465-498 | merging a default into the entry it matched keeps that entry's identity, for every kind of list |
| DefaultsMerge.MergeOneIntoList | crates/core/src/defaults_merge.rs:465-498 | first match merged in place, else appended |
| DefaultsMerge.MergeOneKeyed | crates/core/src/defaults_merge.rs:465-498 | a keyed default is idempotent: the first match stays the first match |
| DefaultsMerge.MergeOneUnkeyed | crates/core/src/defaults_merge.rs:465-503 | an unkeyed default matches nothing and is appended |
| DefaultsMerge.MergeOneAgain | crates/core/src/defaults_merge.rs:465-498 | a further pass adds one copy exactly when the default is unkeyed |
| ApplyDefaults.MergeListFields | crates/core/src/defaults_merge.rs:245-270 | every list field merged by its own identity |
| ApplyDefaults.MergeArchiveList | crates/core/src/defaults_merge.rs:400-412 | disabled archives inherit nothing; others merge by identity |
| ApplyDefaults.MergeBuildList | crates/core/src/defaults_merge.rs:272-287 | an absent or empty list takes the default; otherwise every build takes its settings |
| ApplyDefaults.MergePublishDefaults | crates/core/src/defaults_merge.rs:551-564 | ten publisher blocks merged, two hook lists appended |
| ApplyDefaults.FillFields | crates/core/src/defaults_merge.rs:215-238 | unset scalar fields filled, an empty tag template counted as unset |
| ApplyDefaults.ApplyToCrate | crates/core/src/defaults_merge.rs:215-295 | the in-place fold of one crate computes the fold function that CrateWins and DefaultsDoArrive pin from both sides |
| ApplyDefaults.ExtraPass | crates/core/src/defaults_merge.rs:215-295 | a further pass adds exactly one copy of each unkeyed list default and of each publish hook list, and changes nothing else |
| DefaultsKeep.ListKeeps | crates/core/src/defaults_merge.rs:465-498 | a list default lands on one entry of its identity or at the end; every entry keeps its place and all it states, every other entry is untouched |
| DefaultsKeep.CrateWins | crates/core/src/defaults_merge.rs:215-295 | no default displaces anything a crate states: scalars, every non-null value at every path of every block, list entry, build and publisher, and its own hooks first |
| DefaultsKeep.CrateAlwaysWins | crates/core/src/defaults_merge.rs:86-128 | the same after any number of passes |
| DefaultsArrive.SkippedExactly | crates/core/src/defaults_merge.rs:62-84 | a block is skipped exactly by `skip: true` or a `skip` text that trims to a spelling of true |
| DefaultsArrive.ArchiveKey | crates/core/src/defaults_merge.rs:414-421 | an archive entry is identified by the first of its formats |
| DefaultsArrive.EntryKeys | crates/core/src/defaults_merge.rs:506-549 | which key of the JSON identifies an entry of each list: `id`, else `package_name`, for nfpm; `name` for snapcraft; `id` elsewhere |
| DefaultsArrive.BlockArrives | crates/core/src/defaults_merge.rs:334-396 | wherever a block is missing or null, with no scalar of its own in the way, the default's shape is in the result, if the promised value decodes |
| DefaultsArrive.OptionDoesArrive | crates/core/src/defaults_merge.rs:306-326 | an absent block takes the default whole; a present one takes what it does not state unless it is skipped |
| DefaultsArrive.ListDoesArrive | crates/core/src/defaults_merge.rs:465-498 | the first entry of the default's identity takes what it does not state; without one the default itself is the last entry |
| DefaultsArrive.BuildsDoArrive | crates/core/src/defaults_merge.rs:272-287 | an absent or empty list of builds becomes the default; otherwise every build takes what it does not state |
| DefaultsArrive.PublishDoesArrive | crates/core/src/defaults_merge.rs:551-564 | every publisher's default arrives, and the default hooks stand at the end |
| DefaultsArrive.DefaultsDoArrive | crates/core/src/defaults_merge.rs:215-295 | every default is in the folded crate wherever the crate leaves room: scalars, checksum, archives, every list, builds and publishers |
| DefaultsArrive.ConfigDoesArrive | crates/core/src/defaults_merge.rs:105-190 | the same for the whole config: every crate and workspace member, the top-level blocks, the lists that were empty, and the record of the filled signing lists |
| ApplyDefaults.CrateTwiceExactly | crates/core/src/defaults_merge.rs:86-104 | twice is once for a crate if and only if it is stable |
| ApplyDefaults.FoldTwiceExactly | crates/core/src/defaults_merge.rs:86-128 | twice is once for the whole config if and only if every crate, workspace members included, is stable |
| ApplyDefaults.Config.ApplyDefaults | crates/core/src/defaults_merge.rs:105-128 | the in-place pass over the config computes that fold; without defaults nothing changes |
| ApplyDefaults.Config.ApplyTopLevel | crates/core/src/defaults_merge.rs:136-190 | top-level blocks merged, empty top-level lists filled, filled signing lists recorded |
| ApplyDefaults.Config.FillTopLists | crates/core/src/defaults_merge.rs:136-190 | exactly the lists with a default and no entry are filled, and the signing ones among them recorded |
| EnvExpand.ScanCovers | crates/core/src/env_expand.rs:19-80 | the segments concatenate back to the input |
| EnvExpand.ScanGrammatical | crates/core/src/env_expand.rs:19-80 | every cut follows the documented grammar |
| EnvExpand.ScanUnique | crates/core/src/env_expand.rs:19-80 | and it is the only grammatical cut |
| EnvExpand.StepExpand | crates/core/src/env_expand.rs:25-78 | one turn consumes one grammatical segment and pushes its value |
| EnvExpand.StepPreserve | crates/core/src/env_expand.rs:99-155 | the same, with an unknown reference kept as written |
| EnvExpand.ExpandWith | crates/core/src/env_expand.rs:19-80 | terminates; the result is each segment's value in order, which Substituted fixes, so substituted text is never rescanned |
| EnvExpand.ExpandWithPreserve | crates/core/src/env_expand.rs:93-157 | the same segments as `expand_with`, unknown references kept as written |
| EnvExpand.Substituted | crates/core/src/env_expand.rs:19-157 | in any grammatical string and either mode, what stands in the result for one segment: the character, a known reference's value, for an unknown one nothing or its own text; before and after it, the expansions of the rest |
| EnvExpand.HeadSubstituted | crates/core/src/env_expand.rs:19-157 | a reference in front of text it fits is replaced, and that text expands on its own |
| EnvExpand.KnownIsReplaced | crates/core/src/env_expand.rs:19-157 | `$NAME/rest` with a known name is its value and then `/rest`, in both modes |
| EnvExpand.PlainText | crates/core/src/env_expand.rs:19-157 | text without a dollar sign expands to itself |
| EnvExpand.ExpandIsPreserveOrEmpty | crates/core/src/env_expand.rs:19-157 | expanding is preserving under the lookup that answers unknown names with the empty string |
| EnvExpand.PreserveIsIdentity | crates/core/src/env_expand.rs:93-157 | with none of its names known, every string is preserved |
| Elf.EncodeRoundTrip | crates/core/src/elf.rs:12-37 | the readers invert writing a number in either byte order, at every width |
| Elf.LocateRoundTrip | crates/core/src/elf.rs:43-60 | fields written at the ELF header's places are found, in both classes and byte orders |
| Elf.IsDynamicallyLinkedBytes | crates/core/src/elf.rs:72-114 | never reads out of bounds; true exactly when some in-bounds entry is PT_INTERP |
| Elf.ScanImage | crates/core/src/elf.rs:94-113 | stopping at the first entry outside the image misses nothing |
| Elf.WrittenImage | crates/core/src/elf.rs:43-114 | an image written to the ELF layout, in either class and byte order, is linked exactly when some in-bounds entry's type is 3 |
| Elf.IsDynamicallyLinked | crates/core/src/elf.rs:130-197 | whenever it answers, it answers what the in-memory probe answers (given a first read that is not cut short); exact conditions for an error and for a panic |
| Elf.ReadHeader | crates/core/src/elf.rs:144-172 | the zero-padded buffer yields the same header fields, exactly when the file has a header long enough for its class |
| Elf.ScanTable | crates/core/src/elf.rs:175-196 | the loop over the table: true, false and panic each exactly characterised |
| Elf.OneByteEntryPanics | crates/core/src/elf.rs:175-196 | a 46-byte image that declares one entry of one byte makes the file probe index past its buffer, while the in-memory probe answers |
| Checksums.MembersByUnit | crates/core/src/determinism.rs:503-527 | one unit per non-blank line, an error on a line without a member |
| Checksums.ParseFormat | crates/core/src/determinism.rs:503-527 | parsing a listing gives exactly its lines, each with its own name |
| Checksums.DriftIsDigestChange | crates/core/src/determinism.rs:503-527 | a name drifts between two listings if and only if its digests changed or it is in one run only |
| Checksums.ManifestMembersByUnit | crates/core/src/determinism.rs:543-583 | an error for a non-array or an entry without a string path; else one unit per entry, keyed by path and content token |
| Checksums.KeyInjective | crates/core/src/determinism.rs:543-583 | a unit key determines its manifest entry |
| Checksums.ManifestDriftIsItemChange | crates/core/src/determinism.rs:543-583 | a base name drifts if and only if some pair of path and content token of that name is in one manifest only |
| Checksums.RefusedExactly | crates/core/src/determinism.rs:503-527 | a listing is refused exactly when some line has text but no member |
| ManifestDrift.ItemIs | crates/core/src/determinism.rs:543-583 | a manifest entry is told by its `path` and the digest its metadata records (`sha256`, else `SHA256`, else `Checksum`); one without a digest by its whole text |
| ManifestDrift.PathIsNeeded | crates/core/src/determinism.rs:543-583 | an entry without a string path is refused |
| ManifestDrift.DigestChangeDrifts | crates/core/src/determinism.rs:543-583 | over two JSON manifests: an entry whose path has only other digests in the other manifest makes its base name drift, in both directions |
| ManifestDrift.SameEntriesDoNotDrift | crates/core/src/determinism.rs:543-583 | the same entries in any order: nothing drifts |
| ManifestDrift.BasenameIs | crates/core/src/determinism.rs:543-583 | a member is named by what follows the last separator, either slash |
| ChangelogScope.CoveredMatches | crates/core/src/changelog_scope.rs:80-147 | an entry that covers a directory matches every file strictly under it, for literal directories and non-empty bases with a recursion suffix |
| ChangelogScope.TreeCoverage | crates/core/src/changelog_scope.rs:133-147 | such an entry covers only its base and what lies below it, whichever suffix is tried first |
| ChangelogScope.DroppedFilterIsSuperset | crates/core/src/changelog_scope.rs:159-240 | when narrowing resolves to none for a non-empty list, any commit touching a file under a derived directory, or a derived path itself unless an entry asks only for what is below it, would have survived it: dropping it changes no verdict |
| ChangelogScope.NarrowExactly | crates/core/src/changelog_scope.rs:222-240 | a filter is kept if and only if some path is not blank and the scope is the whole repository or has an uncovered directory; what is kept is the non-blank paths |
| ChangelogScope.CoveredMatchesItself | crates/core/src/changelog_scope.rs:80-147 | an entry that covers a path matches a file of exactly that path, unless it is a recursion suffix on it |
| ChangelogScope.TreeMatchesItselfExactly | crates/core/src/changelog_scope.rs:133-147 | for a derived path that is a file (a workspace manifest), a suffixed entry that covers it matches it if and only if it is not the entry's own base |
| ChangelogScope.AggregateScope | crates/core/src/changelog_scope.rs:159-212 | an aggregate track derives every declared directory once, as normalised, then the two manifests |
| ChangelogScope.PerCrateScope | crates/core/src/changelog_scope.rs:159-212 | a crate that is one of several is scoped to its own directory alone |
| ChangelogScope.WholeRepoScope | crates/core/src/changelog_scope.rs:159-212 | the scope is the whole repository exactly for an aggregate track with no directory declared anywhere |
| ChangelogScope.RootSuffixIsUnsound | crates/core/src/changelog_scope.rs:115-147 | a bare recursion suffix covers every directory and matches no relative file |
| ChangelogScope.TreeSoundExactly | crates/core/src/changelog_scope.rs:115-147 | a suffixed entry is sound if and only if its base is not empty |
| ChangelogScope.SuffixSoundExactly | crates/core/src/changelog_scope.rs:133-147 | over all four stripped suffixes and every literal base: those that begin with a slash are sound if and only if the base is not empty and does not end in a slash, the bare double star if and only if it has no base (or `.`) |
| ChangelogScope.GluedStarsAreUnsound | crates/core/src/changelog_scope.rs:80-147 | `name**` is taken to cover directory `name`, yet does not parse as a pattern and matches nothing below it |
| ChangelogScope.SlashedBaseWitness | crates/core/src/changelog_scope.rs:133-147 | a base with a slash too many (`a//**`) is taken to cover the directory and matches nothing below it |
| ChangelogScope.BracketBaseIsUnsound | crates/core/src/changelog_scope.rs:133-147 | a base with a character class (`pkg[1]/**`) is taken to cover the directory of that literal name, while the pattern reads the class |
| ChangelogScope.ResolveChangelogScope | crates/core/src/changelog_scope.rs:159-240 | the derived directories and the narrowing for them |
| BuildPlan.CrateBuildTargetEntries | crates/core/src/build_plan.rs:185-209 | the loop yields the surviving builds' entries in order |
| BuildPlan.CrateTargetList | crates/core/src/build_plan.rs:419-433 | the push-if-new loops compute the target list |
| BuildPlan.PushNew | crates/core/src/build_plan.rs:419-433 | pushing unseen targets keeps the list the deduplicated concatenation |
| BuildPlan.TargetListIs | crates/core/src/build_plan.rs:419-433 | duplicate-free, exactly the union of the surviving builds' targets, in order of first occurrence |
| BuildPlan.TargetListSurvivors | crates/core/src/build_plan.rs:108-130 | a target is listed exactly when some planned build that produces and is not skipped names or inherits it; the synthesised default build counts when the list of builds is absent or empty |
| BuildPlan.ArchiveNamedAfterFirst | crates/core/src/build_plan.rs:346-413 | an asset is named after the first planned build the archive takes, by the build's own fields, else after the crate |
| BuildPlan.UnfilteredPacksReleasedTargets | crates/core/src/build_plan.rs:346-433 | an archive without filters packs some binary on a target exactly when that target is in the list |
| BuildPlan.FiltersLeaveOut | crates/core/src/build_plan.rs:259-274 | any `ids` and `binaries` filters give a subsequence of what an archive without filters packs |
| BuildPlan.ArchivePacksExactly | crates/core/src/build_plan.rs:346-413 | an archive packs, in config order, exactly the binaries of the planned builds that produce, are not skipped, have the target, have their id (else their rendered binary) among non-empty `ids` and their rendered binary in a given `binaries` |
| BuildPlan.PackedMembers | crates/core/src/build_plan.rs:346-413 | a binary is packed if and only if some planned build that meets those conditions renders to it |
| BuildPlan.IdsSelect | crates/core/src/build_plan.rs:259-264 | of two builds on a target and `ids: ["cli"]`, only `cli` is packed and names the asset |
| BuildPlan.PlannedExactly | crates/core/src/build_plan.rs:108-130 | the crate's own builds when it has some; else one named after the crate exactly when it has that binary |
| Builds.SkipsExactly | crates/core/src/build_plan.rs:282-303 | a build is skipped exactly by a true flag or an expression that renders to a spelling of true; one that fails to render does not skip |
| Builds.IgnoredExactly | crates/core/src/build_env.rs:82-88 | a platform is ignored exactly when a rule for its OS and architecture is in the build's list, or in the defaults when it has none |
| ArchPathGuard.Guard.Check | crates/core/src/arch_path_guard.rs:127-140 | a new path is remembered; a taken one is refused with the advice for the earlier claim and nothing changes |
| ArchPathGuard.CheckAll | crates/core/src/arch_path_guard.rs:127-140 | over any sequence of claims each answer is the one the claims before it determine |
| ArchPathGuard.SeenIsFirst | crates/core/src/arch_path_guard.rs:127-140 | what is remembered for a path is the first claim on it |
| ArchPathGuard.RefusedExactly | crates/core/src/arch_path_guard.rs:127-140 | a claim is refused if and only if an earlier accepted claim has its path, so accepted paths are pairwise distinct |
| ArchPathGuard.AdviceSeparatesExactly | crates/core/src/arch_path_guard.rs:159-289 | every advised variable takes different values in the two claims exactly when: always for `CrateName`, `Target`, `Os`; `Arch` unless the tokens are equal or both are split ARM levels; `Amd64` unless one level is unstated and the other its default; `Binary` unless the two are the same or one is unstated and the other empty |
| ArchPathGuard.AdviceSeparates | crates/core/src/arch_path_guard.rs:159-289 | with `Os` exposed and whole architecture tokens, advice always separates claims that differ in crate or target |
| ArchPathGuard.AdviceIsGiven | crates/core/src/arch_path_guard.rs:163-289 | with every variable exposed, claims of one entry always get a variable to add; two entries are told to use distinct templates |
| ArchPathGuard.ArmAdviceFails | crates/core/src/arch_path_guard.rs:159-289 | two ARM levels: `Arch` is advised and does not separate them |
| ArchPathGuard.BaselineLevelAdviceFails | crates/core/src/arch_path_guard.rs:159-289 | baseline against unstated level: `Amd64` is advised and does not separate them |

## Left out

- The Tera engine: templates are text, references and `if` clauses, the shape of the default name templates; a build's environment values render through an arbitrary function.
- `map_target`, glob compilation and matching, semver parsing and serde: parameters, with only the laws a proof needs. For the changelog, globs with a recursion suffix match what lies under their base, `**` alone matches everything and glued to a name does not parse, a literal base is a prefix of every match, and a class matches the character it lists. For serde, a predicate says which merged values decode, and a decoded value is taken to serialise back to itself.
- Templates in names: values of the template env (`{{ .Env.X }}`) and structured variables are not part of a name template; texts of builds render through an arbitrary function of variables and env, and are templates only where a statement says so.
- InstallUrl.UrlResolves: takes the archive group's binary and level to be the ones the derivation selects; BuilderBinary, NamedAndLevelledExactly and ProjectionMatchesPlanner say when they are, and ListedIsBuiltExactly when there is an upload at all. Several groups of one target (different levels) are not modelled.
- BuildEnv.FindMatchingOverride: an override's env entries are its parsed list or a parse error.
- The refusal of stale typed comparisons in a `skip:` expression is part of what rendering it yields.
- Elf.IsDynamicallyLinkedBytes: assumes a 64-bit `usize`, so no truncating conversion of the table offset.
- Elf.IsDynamicallyLinked: agreement is stated for a first read that fills the buffer, reaches the end of the file or covers the header; a shorter read makes the source answer "not linked".
- EnvExpand.ExpandWith: the lookup is a pure function, so a lookup with state of its own is not represented.
- JsonMerge.DeepMergeJson: works on values, so the in-place update of one JSON tree is a value returned.
- AtomicWrite.Disk.Write: one directory; the path is reduced to its optional file name, and the directory handle's own open failure is part of a failed directory sync. Its own temp name must not already be a second link to another file, which opening it would truncate.
- AtomicWrite.Disk.WriteTemp: the same assumption on the temp name.
- AtomicWrite.Disk.Publish: the same assumption on the temp name.
- FsAtomicSafety.NeverTorn: of the starting directory it assumes only that no call's temp name is a second link to another file, which LinkedTempTears shows is needed; other hard links are allowed.
- ChangelogScope.DroppedFilterIsSuperset: states soundness for the entries its predicate admits; RootSuffixIsUnsound and TreeSoundExactly show which suffixed entries fall outside.
- cargo splits `RUSTFLAGS` at spaces; the source, and so the model, at any whitespace.
- `crate_declares_bin`, tag discovery and release-repository lookup: file-system and git probes, taken as inputs.
- TOML editing in `binstall.rs`, error wording, log warnings and allow-list texts.
- Subprocess, HTTP, disk-space and command-line code: plumbing whose claims would be easy or need foreign tools.
