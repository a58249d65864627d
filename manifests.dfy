/**
 * Package manifests of the two ecosystems (`package.json` of the JavaScript
 * packages, `Cargo.toml` of the Rust crates) as ordered lists of entries, and
 * the targeted update that a bump makes to one: the version entry and the
 * references to other bumped packages change, nothing else does.
 */
module Manifests {
  import opened Wrappers
  import opened SemVer

  /** The manifest formats, chosen by a package's `manager`. */
  datatype Ecosystem = JsonManifest | TomlManifest

  function EcosystemOf(manager: string): (e: Option<Ecosystem>)
    ensures e == Some(JsonManifest) <==> manager == "javascript"
    ensures e == Some(TomlManifest) <==> manager == "rust"
  {
    if manager == "javascript" then Some(JsonManifest)
    else if manager == "rust" then Some(TomlManifest)
    else None
  }

  function ManifestFile(e: Ecosystem): string {
    match e
    case JsonManifest => "package.json"
    case TomlManifest => "Cargo.toml"
  }

  /**
   * A dependency reference: a bare requirement string (`"0.9"`), or, in a
   * `Cargo.toml`, an inline table `{ version = "0.8", path = "../pkg-b" }`.
   */
  datatype DepRef = Bare(requirement: string) | Table(version: string, path: string)

  function Requirement(r: DepRef): string {
    match r
    case Bare(req) => req
    case Table(req, _) => req
  }

  /**
   * The reference `r` moved to version `v`: a `package.json` reference is
   * written as the full version, a `Cargo.toml` one keeps the precision it
   * had; only the version part changes, a `path` stays as it was.
   */
  function RewriteRef(e: Ecosystem, r: DepRef, v: Version): (r': DepRef)
    ensures r'.Bare? == r.Bare?
    ensures r.Table? ==> r'.path == r.path
    ensures e == JsonManifest ==> Requirement(r') == Format(v)
    ensures e == TomlManifest ==> Requirement(r') == RewriteRequirement(Requirement(r), v)
  {
    var req := match e
      case JsonManifest => Format(v)
      case TomlManifest => RewriteRequirement(Requirement(r), v);
    match r
    case Bare(_) => Bare(req)
    case Table(_, path) => Table(req, path)
  }

  /** A `Cargo.toml` reference holds exactly as many components after a rewrite as before. */
  lemma RewriteRefKeepsPrecision(r: DepRef, v: Version)
    ensures Precision(Requirement(RewriteRef(TomlManifest, r, v))) == Precision(Requirement(r))
    ensures ParseRequirement(Requirement(RewriteRef(TomlManifest, r, v)))
              == Some(Numbers(v)[..Precision(Requirement(r))])
  {
    RewriteKeepsPrecision(Requirement(r), v);
    RewriteNamesLeadingComponents(Requirement(r), v);
  }

  /** A reference that already names `v` is left as it is by a second rewrite. */
  lemma RewriteRefIdempotent(e: Ecosystem, r: DepRef, v: Version)
    ensures RewriteRef(e, RewriteRef(e, r, v), v) == RewriteRef(e, r, v)
  {
    if e == TomlManifest {
      RewriteIdempotent(Requirement(r), v);
    } else {
      ParseFormat(v);
      assert Precision(Format(v)) == 3 by {
        ComponentsSplit(v);
      }
    }
  }

  datatype Dependency = Dependency(name: string, ref: DepRef)

  /**
   * One entry of a manifest, in file order: an unrelated setting (`name`,
   * `private`, `description`, ...), the version of the package, or its table
   * of dependencies.
   */
  datatype Entry =
    | Setting(key: string, value: string)
    | VersionEntry(version: string)
    | Dependencies(deps: seq<Dependency>)

  datatype Manifest = Manifest(entries: seq<Entry>)

  /** The version string of the first version entry. */
  function CurrentVersion(m: Manifest): (r: Option<string>)
    ensures r.None? <==> forall i :: 0 <= i < |m.entries| ==> !m.entries[i].VersionEntry?
    ensures r.Some? ==> exists i :: 0 <= i < |m.entries| && m.entries[i] == VersionEntry(r.value)
  {
    FirstVersion(m.entries)
  }

  function FirstVersion(entries: seq<Entry>): (r: Option<string>)
    ensures r.None? <==> forall i :: 0 <= i < |entries| ==> !entries[i].VersionEntry?
    ensures r.Some? ==> exists i :: 0 <= i < |entries| && entries[i] == VersionEntry(r.value)
  {
    if entries == [] then None
    else if entries[0].VersionEntry? then Some(entries[0].version)
    else
      var r := FirstVersion(entries[1..]);
      assert forall i :: 1 <= i < |entries| ==> entries[i] == entries[1..][i - 1];
      r
  }

  /** The new reference of a dependency when the packages in `bumped` move to their new versions. */
  function NewRef(e: Ecosystem, d: Dependency, bumped: map<string, Version>): DepRef {
    if d.name in bumped then RewriteRef(e, d.ref, bumped[d.name]) else d.ref
  }

  /** The dependency table with every reference to a bumped package rewritten, in the same order. */
  function RewriteDependencies(e: Ecosystem, deps: seq<Dependency>, bumped: map<string, Version>): (r: seq<Dependency>)
    ensures |r| == |deps|
    ensures forall i :: 0 <= i < |deps| ==> r[i] == Dependency(deps[i].name, NewRef(e, deps[i], bumped))
  {
    if deps == [] then []
    else [Dependency(deps[0].name, NewRef(e, deps[0], bumped))] + RewriteDependencies(e, deps[1..], bumped)
  }

  function UpdateEntry(e: Ecosystem, entry: Entry, next: Version, bumped: map<string, Version>): Entry {
    match entry
    case Setting(_, _) => entry
    case VersionEntry(_) => VersionEntry(Format(next))
    case Dependencies(deps) => Dependencies(RewriteDependencies(e, deps, bumped))
  }

  /**
   * The manifest of a package bumped to `next`, where the packages in `bumped`
   * move to their new versions: the same entries in the same order, settings
   * untouched, the version replaced, the dependency tables rewritten.
   */
  function UpdateManifest(e: Ecosystem, m: Manifest, next: Version, bumped: map<string, Version>): (r: Manifest)
    ensures |r.entries| == |m.entries|
    ensures forall i :: 0 <= i < |m.entries| ==> r.entries[i] == UpdateEntry(e, m.entries[i], next, bumped)
  {
    Manifest(UpdateEntries(e, m.entries, next, bumped))
  }

  function UpdateEntries(e: Ecosystem, entries: seq<Entry>, next: Version, bumped: map<string, Version>): (r: seq<Entry>)
    ensures |r| == |entries|
    ensures forall i :: 0 <= i < |entries| ==> r[i] == UpdateEntry(e, entries[i], next, bumped)
  {
    if entries == [] then []
    else [UpdateEntry(e, entries[0], next, bumped)] + UpdateEntries(e, entries[1..], next, bumped)
  }

  /** The key of an entry, so that "same keys in the same order" can be stated. */
  function KeyOf(entry: Entry): string {
    match entry
    case Setting(key, _) => key
    case VersionEntry(_) => "version"
    case Dependencies(_) => "dependencies"
  }

  /**
   * What an update preserves: the keys in file order, every setting, the
   * names and order of the dependencies and every reference to a package
   * that is not bumped; and what it changes: the version now reads `next`.
   */
  lemma UpdatePreservesStructure(e: Ecosystem, m: Manifest, next: Version, bumped: map<string, Version>)
    ensures var r := UpdateManifest(e, m, next, bumped);
      && (forall i :: 0 <= i < |m.entries| ==> KeyOf(r.entries[i]) == KeyOf(m.entries[i]))
      && (forall i :: 0 <= i < |m.entries| && m.entries[i].Setting? ==> r.entries[i] == m.entries[i])
      && (forall i :: 0 <= i < |m.entries| && m.entries[i].Dependencies? ==>
            && r.entries[i].Dependencies?
            && |r.entries[i].deps| == |m.entries[i].deps|
            && forall j :: 0 <= j < |m.entries[i].deps| ==>
                 && r.entries[i].deps[j].name == m.entries[i].deps[j].name
                 && (m.entries[i].deps[j].name !in bumped ==> r.entries[i].deps[j] == m.entries[i].deps[j]))
      && (CurrentVersion(m).Some? ==> CurrentVersion(r) == Some(Format(next)))
      && (CurrentVersion(m).None? ==> CurrentVersion(r).None?)
  {
    var r := UpdateManifest(e, m, next, bumped);
    forall i | 0 <= i < |m.entries|
      ensures KeyOf(r.entries[i]) == KeyOf(m.entries[i])
      ensures m.entries[i].Setting? ==> r.entries[i] == m.entries[i]
    {
      assert r.entries[i] == UpdateEntry(e, m.entries[i], next, bumped);
    }
    forall i | 0 <= i < |m.entries| && m.entries[i].Dependencies?
      ensures r.entries[i] == Dependencies(RewriteDependencies(e, m.entries[i].deps, bumped))
    {
      assert r.entries[i] == UpdateEntry(e, m.entries[i], next, bumped);
    }
    FirstVersionUpdated(e, m.entries, next, bumped);
    assert CurrentVersion(r) == FirstVersion(UpdateEntries(e, m.entries, next, bumped));
  }

  lemma {:induction false} FirstVersionUpdated(e: Ecosystem, entries: seq<Entry>, next: Version, bumped: map<string, Version>)
    ensures FirstVersion(UpdateEntries(e, entries, next, bumped))
              == if FirstVersion(entries).Some? then Some(Format(next)) else None
  {
    if entries != [] {
      FirstVersionUpdated(e, entries[1..], next, bumped);
      assert UpdateEntries(e, entries, next, bumped)[1..] == UpdateEntries(e, entries[1..], next, bumped);
    }
  }

  /** Updating twice to the same versions is the same as updating once. */
  lemma UpdateIdempotent(e: Ecosystem, m: Manifest, next: Version, bumped: map<string, Version>)
    ensures UpdateManifest(e, UpdateManifest(e, m, next, bumped), next, bumped) == UpdateManifest(e, m, next, bumped)
  {
    var once := UpdateManifest(e, m, next, bumped);
    var twice := UpdateManifest(e, once, next, bumped);
    forall i | 0 <= i < |m.entries| ensures twice.entries[i] == once.entries[i] {
      if m.entries[i].Dependencies? {
        var deps := m.entries[i].deps;
        var d1 := RewriteDependencies(e, deps, bumped);
        var d2 := RewriteDependencies(e, d1, bumped);
        forall j | 0 <= j < |deps| ensures d2[j] == d1[j] {
          if deps[j].name in bumped {
            RewriteRefIdempotent(e, deps[j].ref, bumped[deps[j].name]);
          }
        }
      }
    }
  }
}
