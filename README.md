# covector `apply`: a Dafny model

This project models the bump step of covector's `packages/apply`. It covers two operations:

- `apply` takes bump commands (package name and severity `patch`, `minor` or `major`) and the `packages` section of the configuration. For every command whose package has a manifest, it writes that manifest back with:
  - the version bumped;
  - every reference to another bumped package rewritten.

  The manifest is a `package.json` for the JavaScript manager or a `Cargo.toml` for the Rust manager.
- `changesConsideringParents` grows a set of requested releases until it reaches a fixed point. It stops when every package that lists a released package among its `dependencies` is itself released, at least as severely.

The implementation `packages/apply/index.js` is not part of this model. The model is built from what `packages/apply/index.test.js` asserts about those two exported functions:

- the input commands;
- the configurations;
- the manifest contents expected after each bump.

Modules, one per concern:

| file | module | models |
|---|---|---|
| `wrappers.dfy` | `Wrappers` | `Option` |
| `text.dfy` | `Text` | decimal numerals and splitting and joining strings at a separator |
| `semver.dfy` | `SemVer` | versions `X.Y.Z` and the three bumps (items 6 to 8 of Semantic Versioning 2.0.0); parsing and formatting version strings; partial requirements such as `"0.9"` and how a bump rewrites them at their own precision |
| `manifests.dfy` | `Manifests` | a manifest as an ordered list of entries (settings, the version, the dependency table); JSON and TOML references (a bare string, or a TOML inline table with a `path`); the update a bump makes to a manifest |
| `packages.dfy` | `Packages` | `config.packages` (its entries in key order) and the bump commands |
| `apply.dfy` | `Apply` | `apply` over a store of manifests keyed by file path: the class `ManifestStore`, with a read phase and a write phase, each a loop over the commands |
| `resolver.dfy` | `Resolver` | `changesConsideringParents` as repeated full scans over the packages, with the properties of the fixed point it reaches |
| `scenarios.dfy` | `Scenarios` | the fixtures of the test file, stated as lemmas about the model |

Decisions the model makes:

- **Locating a manifest.**
  - The manifest of a command is found under `cwd`, at the `path` of the package's configuration entry. The command's own `path` is never used: in test line 104 it is `"./"`, while the manifest lives under `./packages/pkg-a/`. A leading `./` is dropped and a trailing `/` is supplied.
  - The file name is `package.json` for `javascript` and `Cargo.toml` for `rust`.
  - A configuration entry without a `path` or without a `manager` is virtual: it loads nothing and writes nothing. An example is `all: { version: true }` at line 139. An entry needs both a path and an ecosystem tag to be written.
  - A command whose package is not configured is also skipped.
- **Failures.** The model reports three kinds of failure and carries on with the other commands:
  - a `manager` that selects no manifest format;
  - a missing manifest;
  - a version that is not exactly three numerals without leading zeros.
- **Rewriting references.**
  - A `package.json` reference to a bumped package becomes the full new version (line 153).
  - A `Cargo.toml` reference keeps its precision:
    - a two-component requirement stays two components (lines 350, 414, 478);
    - a three-component requirement becomes the full version (lines 222, 286).
  - An inline table's `path` is kept.
- **Resolving releases.**
  - A dependent takes its dependency's severity and `cause` chain, extended by that dependency. This happens only when the dependent is not on that chain and is absent or less severe than the dependency.
  - Severities never decrease.

## Model

| member | source | states |
|---|---|---|
| SemVer.RankInjective | packages/apply/index.test.js:543-586 | major, minor and patch are three distinct severity levels; a property of the model that the resolver's uniqueness proof uses, beyond what the test asserts |
| SemVer.Bump | packages/apply/index.test.js:44-51 | a bump gives a later version that changes the component its severity names or a more significant one |
| SemVer.BumpIsNextRelease | packages/apply/index.test.js:39-50 | a bump gives a later version that changes the component its severity names (or a more significant one), and it is the least such version |
| SemVer.BumpKeepsMoreSignificant | packages/apply/index.test.js:402-423 | a patch keeps major and minor; a minor keeps major and resets patch; a major resets minor and patch |
| SemVer.Parse | packages/apply/index.test.js:44-51 | a version string that reads as a version is exactly its three components' numerals, so no leading zeros and no fourth part |
| SemVer.ParseFormat | packages/apply/index.test.js:44-51 | writing a version and reading it back gives the same version |
| SemVer.FormatParse | packages/apply/index.test.js:44-51 | a version string that reads successfully is exactly the string written for the version it reads as |
| SemVer.RewriteKeepsPrecision | packages/apply/index.test.js:350 | a rewritten requirement has as many components as the original one |
| SemVer.RewriteNamesLeadingComponents | packages/apply/index.test.js:478 | a rewritten requirement reads as exactly the leading components of the new version, as many as the original had |
| SemVer.RewriteFullPrecision | packages/apply/index.test.js:222 | a requirement with all three components becomes the full new version |
| SemVer.RewriteRequirement | packages/apply/index.test.js:414 | a requirement moved to a new version is a prefix of the new version string, as `"0.8"` is of `0.8.9` |
| SemVer.RewriteIdempotent | packages/apply/index.test.js:414 | rewriting a requirement a second time to the same version changes nothing; this is a property of the model beyond what the test asserts |
| Manifests.EcosystemOf | packages/apply/index.test.js:59-88 | the manager `javascript` selects the JSON manifest and `rust` selects the TOML one, each in both directions |
| Manifests.RewriteRef | packages/apply/index.test.js:286 | a bare reference stays bare, a table keeps its `path`; a JSON reference becomes the full version; a TOML one keeps its precision |
| Manifests.RewriteRefKeepsPrecision | packages/apply/index.test.js:478 | a TOML reference holds as many components after the rewrite as before, and they are the leading components of the new version |
| Manifests.RewriteRefIdempotent | packages/apply/index.test.js:414 | a reference already rewritten to a version is left alone by a second rewrite; a property of the model beyond what the test asserts |
| Manifests.CurrentVersion | packages/apply/index.test.js:44-51 | a manifest has no version exactly when it has no version entry; a version it reports is held by one of its entries |
| Manifests.RewriteDependencies | packages/apply/index.test.js:414 | the dependency table keeps its length, and each dependency keeps its name and gets the reference rewritten to its package's new version if that package is bumped |
| Manifests.UpdateManifest | packages/apply/index.test.js:144-156 | the updated manifest has the same number of entries, each entry updated in its own place |
| Manifests.UpdatePreservesStructure | packages/apply/index.test.js:144-156 | an update keeps every key in file order. It keeps every setting, the names and order of the dependencies, and every reference to a package that is not bumped. The version now reads the new version. |
| Manifests.UpdateIdempotent | packages/apply/index.test.js:143-166 | updating a manifest twice to the same versions is the same as updating it once; a property of the model beyond what the test asserts |
| Apply.RelativeDirDropsDot | packages/apply/index.test.js:131-136 | a configured path `./dir/` names the directory `dir/` under the working directory |
| Apply.Load | packages/apply/index.test.js:97-143 | a command is skipped exactly when its package has no configured `path` or no `manager`. A failure names the command's package. Each failure kind holds exactly under its condition: `UnknownEcosystem` for a manager that selects no format, `ManifestNotFound` for no file at the configured path, `InvalidVersionFormat` for a missing or malformed version. The command loads exactly when none of these holds. It then holds the manifest at the configured path under `cwd`, in the file its manager selects, and bumps that manifest's version by the command's severity. |
| Apply.LoadsWhenFound | packages/apply/index.test.js:128-143 | a configured package whose manifest is at its path and holds a valid version loads exactly that manifest and its bumped version |
| Apply.ManifestStore.Apply | packages/apply/index.test.js:143 | `apply` leaves the store as `Applied` describes it and returns the failures of the commands in order |
| Apply.ManifestStore.ReadAll | packages/apply/index.test.js:143 | the read phase loads each command's manifest and collects the new versions and the failures |
| Apply.ManifestStore.WriteAll | packages/apply/index.test.js:143-167 | the write phase stores the updated manifest of every loaded command and changes nothing else |
| Apply.WritesOnlyLoaded | packages/apply/index.test.js:139 | the files written are exactly the manifests that were loaded |
| Apply.Applied | packages/apply/index.test.js:139 | `apply` creates no file and leaves every file it did not load as it was |
| Apply.WrittenByLastLoader | packages/apply/index.test.js:145-167 | a loaded manifest is written updated to its command's version with the new versions of all bumped packages, unless a later command loads the same file |
| Apply.NextVersionOfLastLoader | packages/apply/index.test.js:151-153 | the new version of a package is the one the last command that loaded it computed |
| Apply.NextVersionsFromLoaders | packages/apply/index.test.js:153 | every new version that references are rewritten to was computed by some command that loaded that package; a property of the model beyond what the test asserts |
| Apply.FailuresReported | packages/apply/index.test.js:39 | a failure is reported exactly when some command failed with it; a property of the model's per-package error reporting, beyond what the test asserts |
| Apply.UnloadedChangesNothing | packages/apply/index.test.js:118-139 | dropping a command that loads nothing changes neither the new versions nor the files written |
| Apply.CommandLocationIgnored | packages/apply/index.test.js:100-112 | commands that agree on package names and severities give the same store and the same failures, whatever their own `path`, `manager`, `dependencies` and `parents` |
| Resolver.ChangesConsideringParents | packages/apply/index.test.js:534 | the result is a fixed point that keeps every request. Every entry is explained: its `cause` chain leads from a request along dependency edges, has no duplicates, is at least as severe, and carries the requested severity. |
| Resolver.Pass | packages/apply/index.test.js:534 | one scan never loses or lowers an entry and keeps the result sound; a scan that changes nothing leaves a fixed point |
| Resolver.ConsiderDependencies | packages/apply/index.test.js:519-528 | scanning one package changes no other entry, and afterwards the package covers every dependency of it that is in the set. If the package grew, it took one of those dependencies' severity and `cause` chain, extended by that dependency. If it did not grow, the set is unchanged. |
| Resolver.DependentsIncluded | packages/apply/index.test.js:505-541 | every package that a requested package reaches along dependency edges is in the result at least as severe as the request |
| Resolver.IncludedOnlyIfReachable | packages/apply/index.test.js:505-541 | every package in the result is reached from a request along its `cause` chain, with the severity asked there |
| Resolver.ResolutionUnique | packages/apply/index.test.js:534 | two results for the same requests bump the same packages with the same severities |
| Scenarios.BumpsSingleJsJson | packages/apply/index.test.js:16-57 | a minor bump of the single JSON package from any version `0.5.z` writes `0.6.0` at `cwd/package.json`, and keeps `private`, `name` and `description` before it in their order |
| Scenarios.BumpsSingleRustToml | packages/apply/index.test.js:59-95 | a minor bump of the single crate from any version `0.5.z` writes `0.6.0` at `cwd/Cargo.toml`, after its `name` |
| Scenarios.CrateALoads | packages/apply/index.test.js:175-212 | in every two-crate fixture, crate a's manifest is found at `pkg-a/Cargo.toml` under `cwd`, and the version it holds is bumped by the command's severity |
| Scenarios.CrateBLoads | packages/apply/index.test.js:175-212 | crate b's manifest is found at `pkg-b/Cargo.toml` under `cwd`, and the version it holds is bumped by the command's severity |
| Scenarios.CratesApplied | packages/apply/index.test.js:175-493 | for crates at any valid versions and any reference of a to b, a bump of both by one severity writes exactly the two manifests: each with its bumped version, and a's reference rewritten by the Cargo rule |
| Scenarios.BumpsMultiRustToml | packages/apply/index.test.js:175-237 | from any `0.5.z` and `0.8.z` and a bare three-component reference, a minor bump gives crate a `0.6.0` with `"0.9.0"` and crate b `0.9.0` |
| Scenarios.BumpsMultiRustTomlObjectDep | packages/apply/index.test.js:239-301 | the same with a three-component table reference: `{ version = "0.9.0", path = "../rust_pkg_b_fixture" }` |
| Scenarios.BumpsMultiRustTomlMissingPatch | packages/apply/index.test.js:303-365 | the same with a bare two-component reference, which stays at two components: `"0.9"` |
| Scenarios.ObjectNoPatchApplied | packages/apply/index.test.js:367-493 | from `0.5.0` and `0.8.8`, after a bump of both crates by any one severity, crate a has its new version and a table reference at the old precision with the old `path`, and crate b has its new version |
| Scenarios.PatchWithObjectDepMissingPatch | packages/apply/index.test.js:367-429 | with any two-component table reference, a patch bump gives crate a `0.5.1` with `{ version = "0.8", path = ... }` and crate b `0.8.9` |
| Scenarios.MinorWithObjectDepMissingPatch | packages/apply/index.test.js:431-493 | with any two-component table reference, a minor bump gives crate a `0.6.0` with `{ version = "0.9", path = ... }` and crate b `0.9.0` |
| Scenarios.WorkspaceLoadsA | packages/apply/index.test.js:97-136 | package a is located through its configured `./packages/pkg-a/`, not through its command's `./`, and any `1.0.z` it holds moves to `1.1.0` |
| Scenarios.WorkspaceLoadsB | packages/apply/index.test.js:97-136 | package b is located through its configured `./packages/pkg-b/`, although its command has no `path`, and any `1.0.z` it holds moves to `1.1.0` |
| Scenarios.WorkspaceSkipsAll | packages/apply/index.test.js:139 | the virtual `all` loads nothing |
| Scenarios.BumpsMultiJsJson | packages/apply/index.test.js:97-173 | in the yarn workspace both packages move from any `1.0.z` to `1.1.0`, package a's reference to b becomes `"1.1.0"` whatever it was before, and only those two files are in the store |
| Scenarios.AddsChangesForDependency | packages/apply/index.test.js:505-541 | a minor bump of `all` yields exactly packages a, b and `all`, each at minor |
| Scenarios.BumpsHigherDueToDependency | packages/apply/index.test.js:543-586 | a patch request for a, together with a minor bump of `all`, yields exactly a, b and `all`, each at minor |

## Left out

- Reading and writing files, and the fixture and virtual-file libraries, are not modelled. Manifests are an in-memory map from path to manifest, and `cwd` is a parameter.
- Parsing and writing JSON and TOML text are not modelled. A manifest is an ordered list of entries, so "formatting and other fields untouched" becomes equality of the other entries and of their order.
- Console output and snapshot contents are not modelled: the snapshot files are not part of this model, and log text is presentational.
- The asynchronous generator plumbing of `apply` is not modelled: `apply` is a method that runs to completion.
- Path normalisation is limited to a leading `./` and a trailing `/`. Paths such as `../x` or repeated separators are not normalised.
- A manifest without a dependency table is never given one: only existing references are rewritten.
- `CyclicDependencyStall` is not modelled: termination of the resolver is proved for every configuration, cycles included, so no pass bound is needed.
- The `all` dependency is not treated as a wildcard meaning "every package". It is an ordinary, virtual node of the graph. In the configurations of the resolver tests (lines 518-531 and 563-576) both real packages list `all` directly, so the two readings agree there.
- A requirement's range operator is not modelled. The precision of a reference is its number of `.`-separated pieces, and the rewrite writes only numerals. So a Cargo `^0.8`, `~0.8` or `=0.8.8` loses its operator, and a `package.json` `^1.0.0` becomes a bare `1.1.0`; no expected result in the test file contains an operator (lines 153, 222, 286, 350, 414 and 478). Scenarios.BumpsMultiJsJson relies on this for its "whatever it was before".
- Apply.Load: keys commands by their `pkg` name and ignores the command's `manager`, `path`, `dependencies` and `parents`.
- Resolver.ChangesConsideringParents: the releases are keyed by their map key, not by the `pkg` field inside a release; the second resolver test has `pkg: "all"` under the key of package a.
- Resolver.ChangesConsideringParents: states no exact shape or order for the result, because these appear only in snapshot files, which are not part of this model. It states only the constraints of being explained and closed, and proves that keys and severities are determined by them (Resolver.ResolutionUnique).
- Resolver.ChangesConsideringParents: does not produce the source's `parents` lists. Each entry carries instead a `cause` chain in the causal reading: the requested package first, then each package reached by following a dependency edge, the entry's own dependency last. The `parents` values in the test's commands point the other way and name a package's dependents: package b has `parents: [pkg-a]` at line 115, and `all` has `[pkg-a, pkg-b]` at line 123. No sound result of the model has those lists, and the resolver's source is not part of this model. Keys and severities do not depend on the chains.
- Scenarios.AddsChangesForDependency: states which packages are released and at which severity, not the snapshot of the full result.
- Scenarios.BumpsHigherDueToDependency: as above, only packages and severities.
- The fixture directories are not part of this model. Each scenario takes, for the manifests before the bump, what the expected results imply. It quantifies over whatever the results leave open:
  - the single packages: any version that reads as `0.5.z`;
  - the crates of lines 175-365: any `0.5.z` and `0.8.z`. A's reference to b is any bare or table requirement of the precision the result shows: three components at lines 222 and 286, two at line 350;
  - the crates of lines 367-493: versions that read as `0.5.0` and `0.8.8`, which the patch bump pins. The table reference is any requirement of two components: the result `"0.8"` pins its precision, not its numerals;
  - the workspace packages: any versions that read as `1.0.z`, each with its own `z`. The reference of a to b is left arbitrary.
- Each manifest is assumed to hold, before the bump, exactly the entries that its expected result shows, a dependency table included. A table is never created, and an entry is never added or removed.
- Duplicate keys in a manifest and concurrency are not modelled, and neither is the text of error messages.
