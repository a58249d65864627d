/**
 * The fixtures of the test suite, stated as lemmas about the model. The
 * fixtures' manifests before the bump are read back from the expected
 * results: the version before a bump, and a dependency reference whose
 * precision the result keeps.
 */
module Scenarios {
  import opened Wrappers
  import opened SemVer
  import opened Manifests
  import opened Packages
  import opened Apply
  import opened Resolver

  const JsSingle := "js-single-json-fixture"
  const RustSingle := "rust-single-fixture"

  /** A one-package configuration with the package at the root of `cwd`. */
  function SingleConfig(pkg: string, manager: string): Config {
    Config([pkg], map[pkg := PackageConfig(Some("./"), Some(manager), [])])
  }

  function SingleCommand(pkg: string, manager: string): Command {
    Command(pkg, Minor, Some(manager), Some("./"), None, [])
  }

  /** `pkg.js-single-json`: the `package.json` entries in file order. */
  function JsSingleJson(version: string): Manifest {
    Manifest([ Setting("private", "true"), Setting("name", JsSingle),
               Setting("description", "A single package at the root. No monorepo setup."), VersionEntry(version) ])
  }

  /** `pkg.rust-single`: the `[package]` table of its `Cargo.toml`. */
  function RustSingleToml(version: string): Manifest {
    Manifest([Setting("name", RustSingle), VersionEntry(version)])
  }

  /** A minor bump of the one package at the root of `cwd`. */
  lemma SingleApplied(pkg: string, manager: string, eco: Ecosystem, cwd: string, m: Manifest, v: Version)
    requires EcosystemOf(manager) == Some(eco) && VersionOf(m) == Some(v)
    ensures var next := Bump(v, Minor);
      Applied([SingleCommand(pkg, manager)], SingleConfig(pkg, manager), cwd, map[cwd + "/" + ManifestFile(eco) := m])
        == map[cwd + "/" + ManifestFile(eco) := UpdateManifest(eco, m, next, map[pkg := next])]
  {
    var c, config := SingleCommand(pkg, manager), SingleConfig(pkg, manager);
    var file := cwd + "/" + ManifestFile(eco);
    LoadsAtRoot(c, config, cwd, eco, m, v);
    AppliedOne([c], config, cwd, map[file := m], Loaded(pkg, file, eco, m, Bump(v, Minor)));
  }

  lemma SingleVersions(ver: string)
    ensures VersionOf(JsSingleJson(ver)) == Parse(ver)
    ensures VersionOf(RustSingleToml(ver)) == Parse(ver)
  {
    var j, r := JsSingleJson(ver), RustSingleToml(ver);
    assert j.entries[3] == VersionEntry(ver) && forall i :: 0 <= i < 3 ==> !j.entries[i].VersionEntry?;
    assert r.entries[1] == VersionEntry(ver) && !r.entries[0].VersionEntry?;
  }

  lemma SingleUpdated(ver: string, bumped: map<string, Version>)
    ensures UpdateManifest(JsonManifest, JsSingleJson(ver), Version(0, 6, 0), bumped) == JsSingleJson("0.6.0")
    ensures UpdateManifest(TomlManifest, RustSingleToml(ver), Version(0, 6, 0), bumped) == RustSingleToml("0.6.0")
  {
    assert Format(Version(0, 6, 0)) == "0.6.0";
    var u := UpdateManifest(JsonManifest, JsSingleJson(ver), Version(0, 6, 0), bumped);
    assert u.entries == JsSingleJson("0.6.0").entries;
    var w := UpdateManifest(TomlManifest, RustSingleToml(ver), Version(0, 6, 0), bumped);
    assert w.entries == RustSingleToml("0.6.0").entries;
  }

  /**
   * A minor bump of the single JSON package, from any version `0.5.z`, writes
   * `0.6.0` at `cwd/package.json` and keeps the other fields in their order.
   */
  lemma BumpsSingleJsJson(cwd: string, ver: string, z: nat)
    requires Parse(ver) == Some(Version(0, 5, z))
    ensures Applied([SingleCommand(JsSingle, "javascript")], SingleConfig(JsSingle, "javascript"), cwd, map[cwd + "/package.json" := JsSingleJson(ver)])
         == map[cwd + "/package.json" := JsSingleJson("0.6.0")]
  {
    assert cwd + "/" + ManifestFile(JsonManifest) == cwd + "/package.json";
    assert EcosystemOf("javascript") == Some(JsonManifest) && Bump(Version(0, 5, z), Minor) == Version(0, 6, 0);
    SingleVersions(ver);
    SingleApplied(JsSingle, "javascript", JsonManifest, cwd, JsSingleJson(ver), Version(0, 5, z));
    SingleUpdated(ver, map[JsSingle := Version(0, 6, 0)]);
  }

  /** A minor bump of the single crate, from any `0.5.z`, writes `0.6.0` at `cwd/Cargo.toml`. */
  lemma BumpsSingleRustToml(cwd: string, ver: string, z: nat)
    requires Parse(ver) == Some(Version(0, 5, z))
    ensures Applied([SingleCommand(RustSingle, "rust")], SingleConfig(RustSingle, "rust"), cwd, map[cwd + "/Cargo.toml" := RustSingleToml(ver)])
         == map[cwd + "/Cargo.toml" := RustSingleToml("0.6.0")]
  {
    assert cwd + "/" + ManifestFile(TomlManifest) == cwd + "/Cargo.toml";
    assert EcosystemOf("rust") == Some(TomlManifest) && Bump(Version(0, 5, z), Minor) == Version(0, 6, 0);
    SingleVersions(ver);
    SingleApplied(RustSingle, "rust", TomlManifest, cwd, RustSingleToml(ver), Version(0, 5, z));
    SingleUpdated(ver, map[RustSingle := Version(0, 6, 0)]);
  }

  const RustA := "rust_pkg_a_fixture"
  const RustB := "rust_pkg_b_fixture"
  const CrateDirA := "pkg-a/"
  const CrateDirB := "pkg-b/"

  lemma CrateNamesDiffer()
    ensures RustA != RustB
  {
    assert RustA[9] != RustB[9];
  }

  /** Two packages in sibling directories of the same name length have different manifests. */
  lemma ManifestsDiffer(cwd: string, x: string, y: string, file: string)
    requires |x| == |y| && x != y
    ensures cwd + "/" + x + file != cwd + "/" + y + file
  {
    var n := |cwd| + 1;
    assert (cwd + "/" + x + file)[n..n + |x|] == x;
    assert (cwd + "/" + y + file)[n..n + |y|] == y;
  }

  /** The configuration of the two-crate Rust fixtures. */
  function RustMultiConfig(): Config {
    Config([RustA, RustB], map[
      RustA := PackageConfig(Some("./" + CrateDirA), Some("rust"), []),
      RustB := PackageConfig(Some("./" + CrateDirB), Some("rust"), [])])
  }

  function RustMultiCommands(kind: Severity): seq<Command> {
    [ Command(RustA, kind, Some("rust"), Some("./" + CrateDirA), Some([RustB]), []),
      Command(RustB, kind, Some("rust"), Some("./" + CrateDirB), None, []) ]
  }

  function CrateA(version: string, dep: DepRef): Manifest {
    Manifest([Setting("name", RustA), VersionEntry(version), Dependencies([Dependency(RustB, dep)])])
  }

  function CrateB(version: string): Manifest {
    Manifest([Setting("name", RustB), VersionEntry(version)])
  }

  function CratePathA(cwd: string): string {
    cwd + "/" + CrateDirA + "Cargo.toml"
  }

  function CratePathB(cwd: string): string {
    cwd + "/" + CrateDirB + "Cargo.toml"
  }

  /**
   * The two-crate fixtures: crate a at `verA`, referring to crate b through
   * `dep`, and crate b at `verB`.
   */
  function CrateFiles(cwd: string, verA: string, dep: DepRef, verB: string): map<string, Manifest> {
    map[CratePathA(cwd) := CrateA(verA, dep), CratePathB(cwd) := CrateB(verB)]
  }

  /**
   * `pkg.rust-multi-object-no-patch-dep`: crate a at `verA` depends on crate b
   * at `verB` through `{ version = req, path = "../rust_pkg_b_fixture" }`.
   */
  function ObjectNoPatchFiles(cwd: string, verA: string, verB: string, req: string): map<string, Manifest> {
    CrateFiles(cwd, verA, Table(req, "../rust_pkg_b_fixture"), verB)
  }

  /** A command for a package configured at `./` loads the manifest at the root of `cwd`. */
  lemma LoadsAtRoot(c: Command, config: Config, cwd: string, eco: Ecosystem, m: Manifest, v: Version)
    requires c.pkg in config.packages && config.packages[c.pkg].path == Some("./")
    requires config.packages[c.pkg].manager.Some? && EcosystemOf(config.packages[c.pkg].manager.value) == Some(eco)
    requires VersionOf(m) == Some(v)
    ensures LoadAll([c], config, cwd, map[cwd + "/" + ManifestFile(eco) := m])
         == [Ready(Loaded(c.pkg, cwd + "/" + ManifestFile(eco), eco, m, Bump(v, c.kind)))]
  {
    var file := cwd + "/" + ManifestFile(eco);
    assert RelativeDir("./") == "";
    assert ManifestPath(cwd, "./", eco) == file by {
      assert cwd + "/" + "" == cwd + "/";
    }
    LoadsWhenFound(c, config, cwd, map[file := m], "./", eco, file, m, v);
  }

  /** `apply` over a store of exactly one manifest, which the commands load. */
  lemma AppliedOne(cmds: seq<Command>, config: Config, cwd: string, files: map<string, Manifest>, l: Loaded)
    requires LoadAll(cmds, config, cwd, files) == [Ready(l)]
    requires files.Keys == {l.file}
    ensures Applied(cmds, config, cwd, files) == map[l.file := UpdateManifest(l.eco, l.manifest, l.next, map[l.pkg := l.next])]
  {
    OneLoaded(l, map[l.pkg := l.next]);
  }

  lemma OneLoaded(l: Loaded, bumped: map<string, Version>)
    ensures NextVersions([Ready(l)]) == map[l.pkg := l.next]
    ensures Writes([Ready(l)], bumped) == map[l.file := UpdateManifest(l.eco, l.manifest, l.next, bumped)]
  {
    assert [Ready(l)][..0] == [];
  }

  /** Two commands that both load, for different packages and files. */
  lemma TwoLoaded(la: Loaded, lb: Loaded, bumped: map<string, Version>)
    requires la.pkg != lb.pkg && la.file != lb.file
    ensures NextVersions([Ready(la), Ready(lb)]) == map[la.pkg := la.next, lb.pkg := lb.next]
    ensures Writes([Ready(la), Ready(lb)], bumped)
         == map[ la.file := UpdateManifest(la.eco, la.manifest, la.next, bumped),
                 lb.file := UpdateManifest(lb.eco, lb.manifest, lb.next, bumped) ]
  {
    var one, two := [Ready(la)], [Ready(la), Ready(lb)];
    assert two[..1] == one && two[1] == Ready(lb);
    assert one[..0] == [] && one[0] == Ready(la);
    assert NextVersions(one) == map[la.pkg := la.next];
    assert Writes(one, bumped) == map[la.file := UpdateManifest(la.eco, la.manifest, la.next, bumped)];
  }

  /** A skipped third command adds nothing to two that loaded. */
  lemma TwoLoadedThenSkipped(la: Loaded, lb: Loaded, bumped: map<string, Version>)
    requires la.pkg != lb.pkg && la.file != lb.file
    ensures NextVersions([Ready(la), Ready(lb), Skipped]) == map[la.pkg := la.next, lb.pkg := lb.next]
    ensures Writes([Ready(la), Ready(lb), Skipped], bumped)
         == map[ la.file := UpdateManifest(la.eco, la.manifest, la.next, bumped),
                 lb.file := UpdateManifest(lb.eco, lb.manifest, lb.next, bumped) ]
  {
    var os := [Ready(la), Ready(lb), Skipped];
    UnloadedChangesNothing(os, bumped, 2);
    assert os[..2] + os[3..] == [Ready(la), Ready(lb)];
    TwoLoaded(la, lb, bumped);
  }

  /** `apply` over a store of exactly two manifests, both loaded by the commands. */
  lemma AppliedTwo(cmds: seq<Command>, config: Config, cwd: string, files: map<string, Manifest>, la: Loaded, lb: Loaded)
    requires LoadAll(cmds, config, cwd, files) == [Ready(la), Ready(lb)]
    requires la.pkg != lb.pkg && la.file != lb.file && files.Keys == {la.file, lb.file}
    ensures var bumped := map[la.pkg := la.next, lb.pkg := lb.next];
      Applied(cmds, config, cwd, files)
        == map[ la.file := UpdateManifest(la.eco, la.manifest, la.next, bumped),
                lb.file := UpdateManifest(lb.eco, lb.manifest, lb.next, bumped) ]
  {
    TwoLoaded(la, lb, map[la.pkg := la.next, lb.pkg := lb.next]);
  }

  /** The same when a third command, for a virtual package, loads nothing. */
  lemma AppliedTwoThenSkipped(cmds: seq<Command>, config: Config, cwd: string, files: map<string, Manifest>,
                              la: Loaded, lb: Loaded)
    requires LoadAll(cmds, config, cwd, files) == [Ready(la), Ready(lb), Skipped]
    requires la.pkg != lb.pkg && la.file != lb.file && files.Keys == {la.file, lb.file}
    ensures var bumped := map[la.pkg := la.next, lb.pkg := lb.next];
      Applied(cmds, config, cwd, files)
        == map[ la.file := UpdateManifest(la.eco, la.manifest, la.next, bumped),
                lb.file := UpdateManifest(lb.eco, lb.manifest, lb.next, bumped) ]
  {
    TwoLoadedThenSkipped(la, lb, map[la.pkg := la.next, lb.pkg := lb.next]);
  }

  /** Crate a's manifest after a bump to `a` while crate b moves to `b`. */
  lemma CrateAUpdated(verA: string, dep: DepRef, a: Version, b: Version, bumped: map<string, Version>)
    requires bumped == map[RustA := a, RustB := b]
    ensures UpdateManifest(TomlManifest, CrateA(verA, dep), a, bumped) == CrateA(Format(a), RewriteRef(TomlManifest, dep, b))
  {
    var r := RewriteDependencies(TomlManifest, [Dependency(RustB, dep)], bumped);
    assert r[0] == Dependency(RustB, RewriteRef(TomlManifest, dep, b));
    var u := UpdateManifest(TomlManifest, CrateA(verA, dep), a, bumped);
    var want := CrateA(Format(a), RewriteRef(TomlManifest, dep, b));
    assert u.entries[0] == want.entries[0] && u.entries[1] == want.entries[1] && u.entries[2] == want.entries[2];
    assert u.entries == want.entries;
  }

  /** Crate b's manifest after a bump to `b`. */
  lemma CrateBUpdated(verB: string, b: Version, bumped: map<string, Version>)
    ensures UpdateManifest(TomlManifest, CrateB(verB), b, bumped) == CrateB(Format(b))
  {
    var u := UpdateManifest(TomlManifest, CrateB(verB), b, bumped);
    assert u.entries == CrateB(Format(b)).entries;
  }

  lemma CrateVersions(verA: string, dep: DepRef, verB: string)
    ensures VersionOf(CrateA(verA, dep)) == Parse(verA)
    ensures VersionOf(CrateB(verB)) == Parse(verB)
  {
    var a, b := CrateA(verA, dep), CrateB(verB);
    assert a.entries[1] == VersionEntry(verA) && !a.entries[0].VersionEntry?;
    assert b.entries[1] == VersionEntry(verB) && !b.entries[0].VersionEntry?;
  }

  /** The entries of the two-crate configuration. */
  lemma CrateEntries()
    ensures RustA in RustMultiConfig().packages && RustB in RustMultiConfig().packages
    ensures RustMultiConfig().packages[RustA].path == Some("./" + CrateDirA)
    ensures RustMultiConfig().packages[RustB].path == Some("./" + CrateDirB)
    ensures RustMultiConfig().packages[RustA].manager == Some("rust")
    ensures RustMultiConfig().packages[RustB].manager == Some("rust")
  {
    CrateNamesDiffer();
  }

  /** The two crates' manifests sit where their configured directories say. */
  lemma CrateManifests(cwd: string, verA: string, dep: DepRef, verB: string)
    ensures ManifestPath(cwd, "./" + CrateDirA, TomlManifest) == CratePathA(cwd)
    ensures ManifestPath(cwd, "./" + CrateDirB, TomlManifest) == CratePathB(cwd)
    ensures CratePathA(cwd) != CratePathB(cwd)
    ensures CratePathA(cwd) in CrateFiles(cwd, verA, dep, verB) && CratePathB(cwd) in CrateFiles(cwd, verA, dep, verB)
    ensures CrateFiles(cwd, verA, dep, verB)[CratePathA(cwd)] == CrateA(verA, dep)
    ensures CrateFiles(cwd, verA, dep, verB)[CratePathB(cwd)] == CrateB(verB)
  {
    RelativeDirDropsDot(CrateDirA);
    RelativeDirDropsDot(CrateDirB);
    ManifestsDiffer(cwd, CrateDirA, CrateDirB, "Cargo.toml");
  }

  /** Crate a's command finds its manifest through `./pkg-a/` under `cwd` and bumps the version it holds. */
  lemma CrateALoads(cwd: string, kind: Severity, verA: string, dep: DepRef, verB: string, va: Version)
    requires Parse(verA) == Some(va)
    ensures Load(RustMultiCommands(kind)[0], RustMultiConfig(), cwd, CrateFiles(cwd, verA, dep, verB))
         == Ready(Loaded(RustA, CratePathA(cwd), TomlManifest, CrateA(verA, dep), Bump(va, kind)))
  {
    var c := RustMultiCommands(kind)[0];
    assert c.pkg == RustA && c.kind == kind;
    CrateEntries();
    CrateManifests(cwd, verA, dep, verB);
    CrateVersions(verA, dep, verB);
    LoadsWhenFound(c, RustMultiConfig(), cwd, CrateFiles(cwd, verA, dep, verB), "./" + CrateDirA, TomlManifest,
                   CratePathA(cwd), CrateA(verA, dep), va);
  }

  /** Crate b's command finds its manifest through `./pkg-b/` under `cwd` and bumps the version it holds. */
  lemma CrateBLoads(cwd: string, kind: Severity, verA: string, dep: DepRef, verB: string, vb: Version)
    requires Parse(verB) == Some(vb)
    ensures Load(RustMultiCommands(kind)[1], RustMultiConfig(), cwd, CrateFiles(cwd, verA, dep, verB))
         == Ready(Loaded(RustB, CratePathB(cwd), TomlManifest, CrateB(verB), Bump(vb, kind)))
  {
    var c := RustMultiCommands(kind)[1];
    assert c.pkg == RustB && c.kind == kind;
    CrateEntries();
    CrateManifests(cwd, verA, dep, verB);
    CrateVersions(verA, dep, verB);
    LoadsWhenFound(c, RustMultiConfig(), cwd, CrateFiles(cwd, verA, dep, verB), "./" + CrateDirB, TomlManifest,
                   CratePathB(cwd), CrateB(verB), vb);
  }

  lemma LoadAllOfTwo(c0: Command, c1: Command, config: Config, cwd: string, files: map<string, Manifest>)
    ensures LoadAll([c0, c1], config, cwd, files) == [Load(c0, config, cwd, files), Load(c1, config, cwd, files)]
  {
  }

  /** Both commands of a two-crate fixture load, in command order. */
  lemma CratesLoad(cwd: string, kind: Severity, verA: string, dep: DepRef, verB: string, va: Version, vb: Version)
    requires Parse(verA) == Some(va) && Parse(verB) == Some(vb)
    ensures LoadAll(RustMultiCommands(kind), RustMultiConfig(), cwd, CrateFiles(cwd, verA, dep, verB))
         == [ Ready(Loaded(RustA, CratePathA(cwd), TomlManifest, CrateA(verA, dep), Bump(va, kind))),
              Ready(Loaded(RustB, CratePathB(cwd), TomlManifest, CrateB(verB), Bump(vb, kind))) ]
  {
    var cmds := RustMultiCommands(kind);
    LoadAllOfTwo(cmds[0], cmds[1], RustMultiConfig(), cwd, CrateFiles(cwd, verA, dep, verB));
    assert cmds == [cmds[0], cmds[1]];
    CrateALoads(cwd, kind, verA, dep, verB, va);
    CrateBLoads(cwd, kind, verA, dep, verB, vb);
  }

  /**
   * What `apply` writes for a two-crate fixture when both crates are bumped by
   * `kind`: each crate gets its bumped version, and crate a's reference to
   * crate b is rewritten by the Cargo rule.
   */
  lemma CratesApplied(cwd: string, kind: Severity, verA: string, dep: DepRef, verB: string, va: Version, vb: Version)
    requires Parse(verA) == Some(va) && Parse(verB) == Some(vb)
    ensures Applied(RustMultiCommands(kind), RustMultiConfig(), cwd, CrateFiles(cwd, verA, dep, verB))
         == (var a, b := Bump(va, kind), Bump(vb, kind);
             map[ CratePathA(cwd) := CrateA(Format(a), RewriteRef(TomlManifest, dep, b)),
                  CratePathB(cwd) := CrateB(Format(b)) ])
  {
    var a, b := Bump(va, kind), Bump(vb, kind);
    var la := Loaded(RustA, CratePathA(cwd), TomlManifest, CrateA(verA, dep), a);
    var lb := Loaded(RustB, CratePathB(cwd), TomlManifest, CrateB(verB), b);
    CratesLoad(cwd, kind, verA, dep, verB, va, vb);
    CrateManifests(cwd, verA, dep, verB);
    CrateNamesDiffer();
    AppliedTwo(RustMultiCommands(kind), RustMultiConfig(), cwd, CrateFiles(cwd, verA, dep, verB), la, lb);
    var bumped := map[RustA := a, RustB := b];
    CrateAUpdated(verA, dep, a, b, bumped);
    CrateBUpdated(verB, b, bumped);
  }

  /** A minor bump of `0.5.z` and `0.8.z` gives `0.6.0` and `0.9.0`. */
  lemma MinorBumps(za: nat, zb: nat)
    ensures Bump(Version(0, 5, za), Minor) == Version(0, 6, 0) && Bump(Version(0, 8, zb), Minor) == Version(0, 9, 0)
    ensures Format(Version(0, 6, 0)) == "0.6.0" && Format(Version(0, 9, 0)) == "0.9.0"
  {
  }

  /**
   * `pkg.rust-multi`: from any `0.5.z` and `0.8.z`, with a bare three-component
   * reference, a minor bump writes `0.6.0`, `"0.9.0"` and `0.9.0`.
   */
  lemma BumpsMultiRustToml(cwd: string, verA: string, verB: string, req: string, za: nat, zb: nat)
    requires Parse(verA) == Some(Version(0, 5, za)) && Parse(verB) == Some(Version(0, 8, zb))
    requires Precision(req) == 3
    ensures Applied(RustMultiCommands(Minor), RustMultiConfig(), cwd, CrateFiles(cwd, verA, Bare(req), verB))
         == map[CratePathA(cwd) := CrateA("0.6.0", Bare("0.9.0")), CratePathB(cwd) := CrateB("0.9.0")]
  {
    CratesApplied(cwd, Minor, verA, Bare(req), verB, Version(0, 5, za), Version(0, 8, zb));
    MinorBumps(za, zb);
    RewriteFullPrecision(req, Version(0, 9, 0));
  }

  /**
   * `pkg.rust-multi-object-dep`: the same with a three-component table
   * reference; the table keeps its `path`.
   */
  lemma BumpsMultiRustTomlObjectDep(cwd: string, verA: string, verB: string, req: string, za: nat, zb: nat)
    requires Parse(verA) == Some(Version(0, 5, za)) && Parse(verB) == Some(Version(0, 8, zb))
    requires Precision(req) == 3
    ensures Applied(RustMultiCommands(Minor), RustMultiConfig(), cwd, CrateFiles(cwd, verA, Table(req, "../rust_pkg_b_fixture"), verB))
         == map[ CratePathA(cwd) := CrateA("0.6.0", Table("0.9.0", "../rust_pkg_b_fixture")),
                 CratePathB(cwd) := CrateB("0.9.0") ]
  {
    CratesApplied(cwd, Minor, verA, Table(req, "../rust_pkg_b_fixture"), verB, Version(0, 5, za), Version(0, 8, zb));
    MinorBumps(za, zb);
    RewriteFullPrecision(req, Version(0, 9, 0));
  }

  /**
   * `pkg.rust-multi-no-patch-dep`: the same with a bare two-component
   * reference, which stays at two components, `"0.9"`.
   */
  lemma BumpsMultiRustTomlMissingPatch(cwd: string, verA: string, verB: string, req: string, za: nat, zb: nat)
    requires Parse(verA) == Some(Version(0, 5, za)) && Parse(verB) == Some(Version(0, 8, zb))
    requires Precision(req) == 2
    ensures Applied(RustMultiCommands(Minor), RustMultiConfig(), cwd, CrateFiles(cwd, verA, Bare(req), verB))
         == map[CratePathA(cwd) := CrateA("0.6.0", Bare("0.9")), CratePathB(cwd) := CrateB("0.9.0")]
  {
    CratesApplied(cwd, Minor, verA, Bare(req), verB, Version(0, 5, za), Version(0, 8, zb));
    MinorBumps(za, zb);
    MinorResults(req);
  }

  /** What `apply` writes for the object-no-patch fixture when both crates are bumped by `kind`. */
  lemma ObjectNoPatchApplied(cwd: string, kind: Severity, verA: string, verB: string, req: string)
    requires Parse(verA) == Some(Version(0, 5, 0)) && Parse(verB) == Some(Version(0, 8, 8))
    ensures Applied(RustMultiCommands(kind), RustMultiConfig(), cwd, ObjectNoPatchFiles(cwd, verA, verB, req))
         == (var a, b := Bump(Version(0, 5, 0), kind), Bump(Version(0, 8, 8), kind);
             map[ CratePathA(cwd) := CrateA(Format(a), Table(RewriteRequirement(req, b), "../rust_pkg_b_fixture")),
                  CratePathB(cwd) := CrateB(Format(b)) ])
  {
    CratesApplied(cwd, kind, verA, Table(req, "../rust_pkg_b_fixture"), verB, Version(0, 5, 0), Version(0, 8, 8));
  }

  /** A patch bump of `0.5.0` and `0.8.8` keeps a two-component table reference at "0.8" and its path. */
  lemma PatchWithObjectDepMissingPatch(cwd: string, verA: string, verB: string, req: string)
    requires Parse(verA) == Some(Version(0, 5, 0)) && Parse(verB) == Some(Version(0, 8, 8))
    requires Precision(req) == 2
    ensures Applied(RustMultiCommands(Patch), RustMultiConfig(), cwd, ObjectNoPatchFiles(cwd, verA, verB, req))
         == map[ CratePathA(cwd) := CrateA("0.5.1", Table("0.8", "../rust_pkg_b_fixture")),
                 CratePathB(cwd) := CrateB("0.8.9") ]
  {
    ObjectNoPatchApplied(cwd, Patch, verA, verB, req);
    PatchResults(req);
  }

  lemma PatchResults(req: string)
    requires Precision(req) == 2
    ensures Bump(Version(0, 5, 0), Patch) == Version(0, 5, 1) && Bump(Version(0, 8, 8), Patch) == Version(0, 8, 9)
    ensures Format(Version(0, 5, 1)) == "0.5.1" && Format(Version(0, 8, 9)) == "0.8.9"
    ensures RewriteRequirement(req, Version(0, 8, 9)) == "0.8"
  {
  }

  /** A minor bump of the same fixture rewrites the table reference to "0.9", path kept. */
  lemma MinorWithObjectDepMissingPatch(cwd: string, verA: string, verB: string, req: string)
    requires Parse(verA) == Some(Version(0, 5, 0)) && Parse(verB) == Some(Version(0, 8, 8))
    requires Precision(req) == 2
    ensures Applied(RustMultiCommands(Minor), RustMultiConfig(), cwd, ObjectNoPatchFiles(cwd, verA, verB, req))
         == map[ CratePathA(cwd) := CrateA("0.6.0", Table("0.9", "../rust_pkg_b_fixture")),
                 CratePathB(cwd) := CrateB("0.9.0") ]
  {
    ObjectNoPatchApplied(cwd, Minor, verA, verB, req);
    MinorBumps(0, 8);
    MinorResults(req);
  }

  lemma MinorResults(req: string)
    requires Precision(req) == 2
    ensures RewriteRequirement(req, Version(0, 9, 0)) == "0.9"
  {
  }

  const WorkspaceA := "yarn-workspace-base-pkg-a"
  const WorkspaceB := "yarn-workspace-base-pkg-b"
  const WorkspaceDirA := "packages/pkg-a/"
  const WorkspaceDirB := "packages/pkg-b/"

  lemma WorkspaceNamesDiffer()
    ensures WorkspaceA != WorkspaceB && WorkspaceA != "all" && WorkspaceB != "all"
  {
    assert WorkspaceA[24] != WorkspaceB[24];
  }

  /** The yarn workspace configuration: a depends on b and on the virtual `all`; b depends on `all`. */
  function WorkspaceConfig(): Config {
    Config([WorkspaceA, WorkspaceB, "all"], map[
      WorkspaceA := PackageConfig(Some("./" + WorkspaceDirA), Some("javascript"), [WorkspaceB, "all"]),
      WorkspaceB := PackageConfig(Some("./" + WorkspaceDirB), Some("javascript"), ["all"]),
      "all" := PackageConfig(None, None, [])])
  }

  function WorkspaceCommands(): seq<Command> {
    [ Command(WorkspaceA, Minor, Some("javascript"), Some("./"), Some([WorkspaceB, "all"]), []),
      Command(WorkspaceB, Minor, Some("javascript"), None, None, [WorkspaceA]),
      Command("all", Minor, Some("javascript"), None, None, [WorkspaceA, WorkspaceB]) ]
  }

  function WorkspacePkgA(version: string, req: string): Manifest {
    Manifest([Setting("name", WorkspaceA), VersionEntry(version), Dependencies([Dependency(WorkspaceB, Bare(req))])])
  }

  function WorkspacePkgB(version: string): Manifest {
    Manifest([Setting("name", WorkspaceB), VersionEntry(version)])
  }

  function WorkspacePathA(cwd: string): string {
    cwd + "/" + WorkspaceDirA + "package.json"
  }

  function WorkspacePathB(cwd: string): string {
    cwd + "/" + WorkspaceDirB + "package.json"
  }

  /**
   * `pkg.js-yarn-workspace`: package a at `verA`, with whatever requirement
   * `req` it had on package b, and package b at `verB`.
   */
  function WorkspaceFiles(cwd: string, verA: string, verB: string, req: string): map<string, Manifest> {
    map[WorkspacePathA(cwd) := WorkspacePkgA(verA, req), WorkspacePathB(cwd) := WorkspacePkgB(verB)]
  }

  lemma WorkspaceVersions(verA: string, verB: string, req: string)
    ensures VersionOf(WorkspacePkgA(verA, req)) == Parse(verA)
    ensures VersionOf(WorkspacePkgB(verB)) == Parse(verB)
  {
    var a, b := WorkspacePkgA(verA, req), WorkspacePkgB(verB);
    assert a.entries[1] == VersionEntry(verA) && !a.entries[0].VersionEntry?;
    assert b.entries[1] == VersionEntry(verB) && !b.entries[0].VersionEntry?;
  }

  /** The entries of the workspace configuration that the two loading commands consult. */
  lemma WorkspaceEntries()
    ensures WorkspaceA in WorkspaceConfig().packages && WorkspaceB in WorkspaceConfig().packages
    ensures WorkspaceConfig().packages[WorkspaceA].path == Some("./" + WorkspaceDirA)
    ensures WorkspaceConfig().packages[WorkspaceB].path == Some("./" + WorkspaceDirB)
    ensures WorkspaceConfig().packages[WorkspaceA].manager == Some("javascript")
    ensures WorkspaceConfig().packages[WorkspaceB].manager == Some("javascript")
  {
    WorkspaceNamesDiffer();
  }

  /** The two manifests sit where their configured directories say. */
  lemma WorkspaceManifests(cwd: string, verA: string, verB: string, req: string)
    ensures ManifestPath(cwd, "./" + WorkspaceDirA, JsonManifest) == WorkspacePathA(cwd)
    ensures ManifestPath(cwd, "./" + WorkspaceDirB, JsonManifest) == WorkspacePathB(cwd)
    ensures WorkspacePathA(cwd) != WorkspacePathB(cwd)
    ensures WorkspacePathA(cwd) in WorkspaceFiles(cwd, verA, verB, req)
    ensures WorkspacePathB(cwd) in WorkspaceFiles(cwd, verA, verB, req)
    ensures WorkspaceFiles(cwd, verA, verB, req)[WorkspacePathA(cwd)] == WorkspacePkgA(verA, req)
    ensures WorkspaceFiles(cwd, verA, verB, req)[WorkspacePathB(cwd)] == WorkspacePkgB(verB)
  {
    RelativeDirDropsDot(WorkspaceDirA);
    RelativeDirDropsDot(WorkspaceDirB);
    ManifestsDiffer(cwd, WorkspaceDirA, WorkspaceDirB, "package.json");
  }

  /** A minor bump of any `1.0.z` gives `1.1.0`. */
  lemma WorkspaceBump(z: nat)
    ensures Bump(Version(1, 0, z), Minor) == Version(1, 1, 0)
    ensures Format(Version(1, 1, 0)) == "1.1.0"
  {
  }

  /** Package a is located through `config.packages`, not through its command's `path` of `./`. */
  lemma WorkspaceLoadsA(cwd: string, verA: string, verB: string, req: string, za: nat)
    requires Parse(verA) == Some(Version(1, 0, za))
    ensures Load(WorkspaceCommands()[0], WorkspaceConfig(), cwd, WorkspaceFiles(cwd, verA, verB, req))
         == Ready(Loaded(WorkspaceA, WorkspacePathA(cwd), JsonManifest, WorkspacePkgA(verA, req), Version(1, 1, 0)))
  {
    var c := WorkspaceCommands()[0];
    assert c.pkg == WorkspaceA && c.kind == Minor;
    WorkspaceEntries();
    WorkspaceManifests(cwd, verA, verB, req);
    WorkspaceVersions(verA, verB, req);
    WorkspaceBump(za);
    LoadsWhenFound(c, WorkspaceConfig(), cwd, WorkspaceFiles(cwd, verA, verB, req), "./" + WorkspaceDirA, JsonManifest,
                   WorkspacePathA(cwd), WorkspacePkgA(verA, req), Version(1, 0, za));
  }

  /** Package b is located through `config.packages`, although its command has no `path`. */
  lemma WorkspaceLoadsB(cwd: string, verA: string, verB: string, req: string, zb: nat)
    requires Parse(verB) == Some(Version(1, 0, zb))
    ensures Load(WorkspaceCommands()[1], WorkspaceConfig(), cwd, WorkspaceFiles(cwd, verA, verB, req))
         == Ready(Loaded(WorkspaceB, WorkspacePathB(cwd), JsonManifest, WorkspacePkgB(verB), Version(1, 1, 0)))
  {
    var c := WorkspaceCommands()[1];
    assert c.pkg == WorkspaceB && c.kind == Minor;
    WorkspaceEntries();
    WorkspaceManifests(cwd, verA, verB, req);
    WorkspaceVersions(verA, verB, req);
    WorkspaceBump(zb);
    LoadsWhenFound(c, WorkspaceConfig(), cwd, WorkspaceFiles(cwd, verA, verB, req), "./" + WorkspaceDirB, JsonManifest,
                   WorkspacePathB(cwd), WorkspacePkgB(verB), Version(1, 0, zb));
  }

  /** The virtual `all` has no manifest to load. */
  lemma WorkspaceSkipsAll(cwd: string, verA: string, verB: string, req: string)
    ensures Load(WorkspaceCommands()[2], WorkspaceConfig(), cwd, WorkspaceFiles(cwd, verA, verB, req)) == Skipped
  {
  }

  lemma LoadAllOfThree(c0: Command, c1: Command, c2: Command, config: Config, cwd: string, files: map<string, Manifest>)
    ensures LoadAll([c0, c1, c2], config, cwd, files)
         == [Load(c0, config, cwd, files), Load(c1, config, cwd, files), Load(c2, config, cwd, files)]
  {
  }

  lemma WorkspaceLoadAll(cwd: string, verA: string, verB: string, req: string, za: nat, zb: nat)
    requires Parse(verA) == Some(Version(1, 0, za)) && Parse(verB) == Some(Version(1, 0, zb))
    ensures LoadAll(WorkspaceCommands(), WorkspaceConfig(), cwd, WorkspaceFiles(cwd, verA, verB, req))
         == [ Ready(Loaded(WorkspaceA, WorkspacePathA(cwd), JsonManifest, WorkspacePkgA(verA, req), Version(1, 1, 0))),
              Ready(Loaded(WorkspaceB, WorkspacePathB(cwd), JsonManifest, WorkspacePkgB(verB), Version(1, 1, 0))),
              Skipped ]
  {
    var cmds := WorkspaceCommands();
    LoadAllOfThree(cmds[0], cmds[1], cmds[2], WorkspaceConfig(), cwd, WorkspaceFiles(cwd, verA, verB, req));
    assert cmds == [cmds[0], cmds[1], cmds[2]];
    WorkspaceLoadsA(cwd, verA, verB, req, za);
    WorkspaceLoadsB(cwd, verA, verB, req, zb);
    WorkspaceSkipsAll(cwd, verA, verB, req);
  }

  /**
   * `apply` on the yarn workspace: both packages move from any `1.0.z` to
   * 1.1.0, package a's reference to package b becomes the full "1.1.0"
   * whatever it was, and the virtual `all` writes nothing.
   */
  lemma BumpsMultiJsJson(cwd: string, verA: string, verB: string, req: string, za: nat, zb: nat)
    requires Parse(verA) == Some(Version(1, 0, za)) && Parse(verB) == Some(Version(1, 0, zb))
    ensures Applied(WorkspaceCommands(), WorkspaceConfig(), cwd, WorkspaceFiles(cwd, verA, verB, req))
         == map[ WorkspacePathA(cwd) := WorkspacePkgA("1.1.0", "1.1.0"),
                 WorkspacePathB(cwd) := WorkspacePkgB("1.1.0") ]
  {
    var la := Loaded(WorkspaceA, WorkspacePathA(cwd), JsonManifest, WorkspacePkgA(verA, req), Version(1, 1, 0));
    var lb := Loaded(WorkspaceB, WorkspacePathB(cwd), JsonManifest, WorkspacePkgB(verB), Version(1, 1, 0));
    WorkspaceLoadAll(cwd, verA, verB, req, za, zb);
    WorkspaceManifests(cwd, verA, verB, req);
    WorkspaceNamesDiffer();
    AppliedTwoThenSkipped(WorkspaceCommands(), WorkspaceConfig(), cwd, WorkspaceFiles(cwd, verA, verB, req), la, lb);
    var bumped := map[WorkspaceA := la.next, WorkspaceB := lb.next];
    WorkspacePkgAUpdated(verA, req, bumped);
    WorkspacePkgBUpdated(verB, bumped);
    WorkspaceBump(za);
  }

  lemma WorkspacePkgBUpdated(verB: string, bumped: map<string, Version>)
    ensures UpdateManifest(JsonManifest, WorkspacePkgB(verB), Version(1, 1, 0), bumped)
         == WorkspacePkgB(Format(Version(1, 1, 0)))
  {
    var u := UpdateManifest(JsonManifest, WorkspacePkgB(verB), Version(1, 1, 0), bumped);
    assert u.entries == WorkspacePkgB(Format(Version(1, 1, 0))).entries;
  }

  lemma WorkspacePkgAUpdated(verA: string, req: string, bumped: map<string, Version>)
    requires bumped == map[WorkspaceA := Version(1, 1, 0), WorkspaceB := Version(1, 1, 0)]
    ensures UpdateManifest(JsonManifest, WorkspacePkgA(verA, req), Version(1, 1, 0), bumped)
         == WorkspacePkgA(Format(Version(1, 1, 0)), Format(Version(1, 1, 0)))
  {
    var deps := [Dependency(WorkspaceB, Bare(req))];
    var r := RewriteDependencies(JsonManifest, deps, bumped);
    assert r[0] == Dependency(WorkspaceB, Bare(Format(Version(1, 1, 0))));
    var u := UpdateManifest(JsonManifest, WorkspacePkgA(verA, req), Version(1, 1, 0), bumped);
    var want := WorkspacePkgA(Format(Version(1, 1, 0)), Format(Version(1, 1, 0)));
    assert u.entries[0] == want.entries[0] && u.entries[1] == want.entries[1] && u.entries[2] == want.entries[2];
    assert u.entries == want.entries;
  }

  /** A minor bump of `all` reaches both workspace packages, each at minor. */
  lemma AddsChangesForDependency(changes: map<string, Release>)
    requires Sound(map["all" := Minor], WorkspaceConfig(), changes)
    requires Closed(WorkspaceConfig(), changes)
    ensures changes.Keys == {WorkspaceA, WorkspaceB, "all"}
    ensures forall p :: p in changes ==> changes[p].kind == Minor
  {
    var requested := map["all" := Minor];
    var config := WorkspaceConfig();
    assert DependsOn(config, WorkspaceA, "all") && Covers(changes, WorkspaceA, "all");
    assert DependsOn(config, WorkspaceB, "all") && Covers(changes, WorkspaceB, "all");
    forall p | p in changes ensures changes[p].kind == Minor {
      IncludedOnlyIfReachable(requested, config, changes, p);
    }
  }

  /** A patch request for a is raised to minor because its dependency `all` is bumped minor. */
  lemma BumpsHigherDueToDependency(changes: map<string, Release>)
    requires Sound(map[WorkspaceA := Patch, "all" := Minor], WorkspaceConfig(), changes)
    requires Closed(WorkspaceConfig(), changes)
    ensures changes.Keys == {WorkspaceA, WorkspaceB, "all"}
    ensures forall p :: p in changes ==> changes[p].kind == Minor
  {
    var requested := map[WorkspaceA := Patch, "all" := Minor];
    var config := WorkspaceConfig();
    assert DependsOn(config, WorkspaceA, "all") && Covers(changes, WorkspaceA, "all");
    assert DependsOn(config, WorkspaceB, "all") && Covers(changes, WorkspaceB, "all");
    forall p | p in changes ensures changes[p].kind == Minor {
      IncludedOnlyIfReachable(requested, config, changes, p);
    }
  }
}
