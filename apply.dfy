/**
 * `apply`: every command whose package has a manifest gets its version bumped
 * and its references to the other bumped packages rewritten, in a store of
 * manifests keyed by file path. All manifests are read and all new versions
 * computed first; then each loaded manifest is written once.
 */
module Apply {
  import opened Wrappers
  import opened SemVer
  import opened Manifests
  import opened Packages

  datatype ErrorKind = InvalidVersionFormat | ManifestNotFound | UnknownEcosystem

  datatype Failure = Failure(pkg: string, kind: ErrorKind)

  /** A manifest read for a command, with the version the command gives its package. */
  datatype Loaded = Loaded(pkg: string, file: string, eco: Ecosystem, manifest: Manifest, next: Version)

  datatype Outcome = Skipped | Failed(failure: Failure) | Ready(loaded: Loaded)

  /** A package directory relative to the working directory, without a leading `./`, ending in `/` unless empty. */
  function RelativeDir(dir: string): (r: string)
    ensures r == [] || r[|r| - 1] == '/'
  {
    var d := if |dir| >= 2 && dir[..2] == "./" then dir[2..] else dir;
    if d == [] || d[|d| - 1] == '/' then d else d + "/"
  }

  /** A configured path `./dir/` names the directory `dir/` under the working directory. */
  lemma RelativeDirDropsDot(dir: string)
    requires dir != [] && dir[|dir| - 1] == '/'
    ensures RelativeDir("./" + dir) == dir
  {
    assert ("./" + dir)[..2] == "./" && ("./" + dir)[2..] == dir;
  }

  /** Where the manifest of a package in `dir` lives under `cwd`. */
  function ManifestPath(cwd: string, dir: string, e: Ecosystem): string {
    cwd + "/" + RelativeDir(dir) + ManifestFile(e)
  }

  /** The package of `c` has a manifest: it is configured with a `path` and a `manager` (it is not virtual). */
  predicate Located(c: Command, config: Config) {
    c.pkg in config.packages && config.packages[c.pkg].path.Some? && config.packages[c.pkg].manager.Some?
  }

  /** The manifest format that the package's `manager` selects, if it is a known one. */
  function EcosystemFor(c: Command, config: Config): Option<Ecosystem>
    requires Located(c, config)
  {
    EcosystemOf(config.packages[c.pkg].manager.value)
  }

  /** The file that holds the package's manifest. */
  function ManifestFor(c: Command, config: Config, cwd: string, e: Ecosystem): string
    requires Located(c, config)
  {
    ManifestPath(cwd, config.packages[c.pkg].path.value, e)
  }

  /** The version a manifest holds, when it has a version entry that reads as `X.Y.Z`. */
  function VersionOf(m: Manifest): Option<Version> {
    if CurrentVersion(m).Some? then Parse(CurrentVersion(m).value) else None
  }

  /**
   * Reading the manifest of command `c`, located by the package's entry in
   * `config.packages` (never by the command's own `path` or `manager`).
   */
  function Load(c: Command, config: Config, cwd: string, files: map<string, Manifest>): (o: Outcome)
    ensures o.Skipped? <==> !Located(c, config)
    ensures o.Failed? ==> o.failure.pkg == c.pkg
    ensures o.Failed? && o.failure.kind == UnknownEcosystem <==>
      Located(c, config) && EcosystemFor(c, config).None?
    ensures o.Failed? && o.failure.kind == ManifestNotFound <==>
      && Located(c, config)
      && EcosystemFor(c, config).Some?
      && ManifestFor(c, config, cwd, EcosystemFor(c, config).value) !in files
    ensures o.Failed? && o.failure.kind == InvalidVersionFormat <==>
      && Located(c, config)
      && EcosystemFor(c, config).Some?
      && ManifestFor(c, config, cwd, EcosystemFor(c, config).value) in files
      && VersionOf(files[ManifestFor(c, config, cwd, EcosystemFor(c, config).value)]).None?
    ensures o.Ready? <==>
      && Located(c, config)
      && EcosystemFor(c, config).Some?
      && ManifestFor(c, config, cwd, EcosystemFor(c, config).value) in files
      && VersionOf(files[ManifestFor(c, config, cwd, EcosystemFor(c, config).value)]).Some?
    ensures o.Ready? ==>
      && o.loaded.pkg == c.pkg
      && Located(c, config)
      && EcosystemFor(c, config) == Some(o.loaded.eco)
      && o.loaded.file == ManifestFor(c, config, cwd, o.loaded.eco)
      && o.loaded.file in files
      && o.loaded.manifest == files[o.loaded.file]
      && VersionOf(o.loaded.manifest).Some?
      && o.loaded.next == Bump(VersionOf(o.loaded.manifest).value, c.kind)
  {
    if !Located(c, config) then Skipped
    else
      var eco := EcosystemFor(c, config);
      if eco.None? then Failed(Failure(c.pkg, UnknownEcosystem))
      else
        var file := ManifestFor(c, config, cwd, eco.value);
        if file !in files then Failed(Failure(c.pkg, ManifestNotFound))
        else
          var m := files[file];
          if VersionOf(m).None? then Failed(Failure(c.pkg, InvalidVersionFormat))
          else Ready(Loaded(c.pkg, file, eco.value, m, Bump(VersionOf(m).value, c.kind)))
  }

  /** A configured, non-virtual package whose manifest is found and holds a valid version loads it. */
  lemma LoadsWhenFound(c: Command, config: Config, cwd: string, files: map<string, Manifest>,
                       dir: string, eco: Ecosystem, file: string, m: Manifest, v: Version)
    requires c.pkg in config.packages && config.packages[c.pkg].path == Some(dir)
    requires config.packages[c.pkg].manager.Some? && EcosystemOf(config.packages[c.pkg].manager.value) == Some(eco)
    requires ManifestPath(cwd, dir, eco) == file && file in files && files[file] == m
    requires CurrentVersion(m).Some? && Parse(CurrentVersion(m).value) == Some(v)
    ensures Load(c, config, cwd, files) == Ready(Loaded(c.pkg, file, eco, m, Bump(v, c.kind)))
  {
  }

  /** What reading gives for each command, in command order. */
  function LoadAll(cmds: seq<Command>, config: Config, cwd: string, files: map<string, Manifest>): (os: seq<Outcome>)
    ensures |os| == |cmds|
    ensures forall i :: 0 <= i < |cmds| ==> os[i] == Load(cmds[i], config, cwd, files)
  {
    seq(|cmds|, i requires 0 <= i < |cmds| => Load(cmds[i], config, cwd, files))
  }

  /** The new version of every package whose manifest loaded (a later command wins). */
  function NextVersions(os: seq<Outcome>): map<string, Version> {
    if os == [] then map[]
    else
      var prev := NextVersions(os[..|os| - 1]);
      match os[|os| - 1]
      case Ready(l) => prev[l.pkg := l.next]
      case _ => prev
  }

  /** The failures, in command order. */
  function Failures(os: seq<Outcome>): seq<Failure> {
    if os == [] then []
    else
      var prev := Failures(os[..|os| - 1]);
      match os[|os| - 1]
      case Failed(f) => prev + [f]
      case _ => prev
  }

  /** The manifests written, by file, when the packages in `bumped` move to their new versions. */
  function Writes(os: seq<Outcome>, bumped: map<string, Version>): map<string, Manifest> {
    if os == [] then map[]
    else
      var prev := Writes(os[..|os| - 1], bumped);
      match os[|os| - 1]
      case Ready(l) => prev[l.file := UpdateManifest(l.eco, l.manifest, l.next, bumped)]
      case _ => prev
  }

  /**
   * The store after `apply` of `cmds` to the manifests `files`. No file is
   * created, and a file that no command loaded (a virtual package has none)
   * is left as it was.
   */
  function Applied(cmds: seq<Command>, config: Config, cwd: string, files: map<string, Manifest>): (r: map<string, Manifest>)
    ensures r.Keys == files.Keys
    ensures forall f :: f in files && f !in ReadyFiles(LoadAll(cmds, config, cwd, files)) ==> r[f] == files[f]
  {
    var os := LoadAll(cmds, config, cwd, files);
    WritesOnlyLoaded(os, NextVersions(os));
    assert ReadyFiles(os) <= files.Keys;
    files + Writes(os, NextVersions(os))
  }

  /** The files of the manifests that loaded. */
  function ReadyFiles(os: seq<Outcome>): set<string> {
    set i | 0 <= i < |os| && os[i].Ready? :: os[i].loaded.file
  }

  /** The manifests in memory, keyed by path; `apply` updates them in place. */
  class ManifestStore {
    var files: map<string, Manifest>

    constructor (files: map<string, Manifest>)
      ensures this.files == files
    {
      this.files := files;
    }

    /** `apply`: read every manifest and compute every new version, then write each loaded manifest once. */
    method Apply(commands: seq<Command>, config: Config, cwd: string) returns (failures: seq<Failure>)
      modifies this
      ensures failures == Failures(LoadAll(commands, config, cwd, old(files)))
      ensures files == Applied(commands, config, cwd, old(files))
    {
      var loads, bumped;
      loads, bumped, failures := ReadAll(commands, config, cwd);
      WriteAll(loads, bumped);
    }

    /** The first phase: load each command's manifest, collecting new versions and failures. */
    method ReadAll(commands: seq<Command>, config: Config, cwd: string)
      returns (loads: seq<Outcome>, bumped: map<string, Version>, failures: seq<Failure>)
      ensures loads == LoadAll(commands, config, cwd, files)
      ensures bumped == NextVersions(loads)
      ensures failures == Failures(loads)
    {
      loads, bumped, failures := [], map[], [];
      var i := 0;
      while i < |commands|
        invariant 0 <= i <= |commands|
        invariant loads == LoadAll(commands[..i], config, cwd, files)
        invariant bumped == NextVersions(loads)
        invariant failures == Failures(loads)
      {
        var o := Load(commands[i], config, cwd, files);
        match o {
          case Ready(l) => bumped := bumped[l.pkg := l.next];
          case Failed(f) => failures := failures + [f];
          case Skipped =>
        }
        AppendOutcome(loads, o);
        LoadAllExtend(commands, config, cwd, files, i);
        loads := loads + [o];
        i := i + 1;
      }
      assert commands[..i] == commands;
    }

    /** The second phase: write the updated manifest of every loaded command. */
    method WriteAll(loads: seq<Outcome>, bumped: map<string, Version>)
      modifies this
      ensures files == old(files) + Writes(loads, bumped)
    {
      var i := 0;
      ghost var written: map<string, Manifest> := map[];
      while i < |loads|
        invariant 0 <= i <= |loads|
        invariant written == Writes(loads[..i], bumped)
        invariant files == old(files) + written
      {
        assert loads[..i + 1][..i] == loads[..i];
        match loads[i] {
          case Ready(l) =>
            var updated := UpdateManifest(l.eco, l.manifest, l.next, bumped);
            files := files[l.file := updated];
            written := written[l.file := updated];
          case _ =>
        }
        i := i + 1;
      }
      assert loads[..i] == loads;
    }
  }

  lemma AppendOutcome(os: seq<Outcome>, o: Outcome)
    ensures NextVersions(os + [o]) == if o.Ready? then NextVersions(os)[o.loaded.pkg := o.loaded.next] else NextVersions(os)
    ensures Failures(os + [o]) == if o.Failed? then Failures(os) + [o.failure] else Failures(os)
  {
    assert (os + [o])[..|os|] == os;
  }

  lemma LoadAllExtend(cmds: seq<Command>, config: Config, cwd: string, files: map<string, Manifest>, i: nat)
    requires i < |cmds|
    ensures LoadAll(cmds[..i + 1], config, cwd, files) == LoadAll(cmds[..i], config, cwd, files) + [Load(cmds[i], config, cwd, files)]
  {
  }

  /** Only manifests that loaded are written. */
  lemma {:induction false} WritesOnlyLoaded(os: seq<Outcome>, bumped: map<string, Version>)
    ensures Writes(os, bumped).Keys == ReadyFiles(os)
  {
    if os != [] {
      var n := |os| - 1;
      var init := os[..n];
      WritesOnlyLoaded(init, bumped);
      assert forall i :: 0 <= i < n ==> os[i] == init[i];
      if os[n].Ready? {
        assert ReadyFiles(os) == ReadyFiles(init) + {os[n].loaded.file};
      } else {
        assert ReadyFiles(os) == ReadyFiles(init);
      }
    }
  }

  /** The last loaded manifest at a file decides what is written there. */
  lemma {:induction false} WrittenByLastLoader(os: seq<Outcome>, bumped: map<string, Version>, i: nat)
    requires i < |os| && os[i].Ready?
    requires forall j :: i < j < |os| && os[j].Ready? ==> os[j].loaded.file != os[i].loaded.file
    ensures var l := os[i].loaded;
      && l.file in Writes(os, bumped)
      && Writes(os, bumped)[l.file] == UpdateManifest(l.eco, l.manifest, l.next, bumped)
  {
    var n := |os| - 1;
    if i < n {
      var init := os[..n];
      assert forall j :: 0 <= j < n ==> os[j] == init[j];
      WrittenByLastLoader(init, bumped, i);
    }
  }

  /** The last command that loads a package's manifest decides its new version. */
  lemma {:induction false} NextVersionOfLastLoader(os: seq<Outcome>, i: nat)
    requires i < |os| && os[i].Ready?
    requires forall j :: i < j < |os| && os[j].Ready? ==> os[j].loaded.pkg != os[i].loaded.pkg
    ensures os[i].loaded.pkg in NextVersions(os)
    ensures NextVersions(os)[os[i].loaded.pkg] == os[i].loaded.next
  {
    var n := |os| - 1;
    if i < n {
      var init := os[..n];
      assert forall j :: 0 <= j < n ==> os[j] == init[j];
      NextVersionOfLastLoader(init, i);
    }
  }

  /** Every new version is the one that some loaded command gave its package. */
  lemma {:induction false} NextVersionsFromLoaders(os: seq<Outcome>, p: string)
    requires p in NextVersions(os)
    ensures exists i :: 0 <= i < |os| && os[i].Ready? && os[i].loaded.pkg == p && os[i].loaded.next == NextVersions(os)[p]
  {
    var n := |os| - 1;
    if !(os[n].Ready? && os[n].loaded.pkg == p) {
      var init := os[..n];
      NextVersionsFromLoaders(init, p);
      var i :| 0 <= i < |init| && init[i].Ready? && init[i].loaded.pkg == p && init[i].loaded.next == NextVersions(init)[p];
      assert os[i] == init[i];
    }
  }

  /** Exactly the failed commands are reported. */
  lemma {:induction false} FailuresReported(os: seq<Outcome>, f: Failure)
    ensures f in Failures(os) <==> exists i :: 0 <= i < |os| && os[i] == Failed(f)
  {
    if os != [] {
      var n := |os| - 1;
      var init := os[..n];
      FailuresReported(init, f);
      assert forall i :: 0 <= i < n ==> os[i] == init[i];
      if f in Failures(os) && os[n] != Failed(f) {
        assert f in Failures(init);
      }
    }
  }

  /**
   * A command that loads no manifest (a virtual package, or one that failed)
   * changes neither the new versions nor the files written for the others.
   */
  lemma {:induction false} UnloadedChangesNothing(os: seq<Outcome>, bumped: map<string, Version>, i: nat)
    requires i < |os| && !os[i].Ready?
    ensures NextVersions(os[..i] + os[i + 1..]) == NextVersions(os)
    ensures Writes(os[..i] + os[i + 1..], bumped) == Writes(os, bumped)
  {
    var n := |os| - 1;
    var rest := os[..i] + os[i + 1..];
    if i == n {
      assert rest == os[..n];
    } else {
      var init := os[..n];
      UnloadedChangesNothing(init, bumped, i);
      assert rest[..|rest| - 1] == init[..i] + init[i + 1..];
      assert rest[|rest| - 1] == os[n];
    }
  }

  /** The commands' own `path` and `manager` fields play no part: only the package name and severity do. */
  lemma CommandLocationIgnored(cmds: seq<Command>, cmds': seq<Command>, config: Config,
                               cwd: string, files: map<string, Manifest>)
    requires |cmds| == |cmds'|
    requires forall i :: 0 <= i < |cmds| ==> cmds[i].pkg == cmds'[i].pkg && cmds[i].kind == cmds'[i].kind
    ensures Applied(cmds, config, cwd, files) == Applied(cmds', config, cwd, files)
    ensures Failures(LoadAll(cmds, config, cwd, files)) == Failures(LoadAll(cmds', config, cwd, files))
  {
    assert LoadAll(cmds, config, cwd, files) == LoadAll(cmds', config, cwd, files);
  }
}
