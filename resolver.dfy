/**
 * `changesConsideringParents`: the release set grows from the requested bumps
 * until every package that lists a package of the set among its
 * `dependencies` is in it too, at least as severe. Each added or upgraded
 * entry records the chain of packages that caused it (`cause`): the requested
 * package first, then each dependency edge followed, nearest last.
 */
module Resolver {
  import opened SemVer
  import opened Packages

  /** An entry of the release set: the bump and the packages that caused it, nearest last. */
  datatype Release = Release(kind: Severity, cause: seq<string>)

  /** The requested package at the start of an entry's chain (the package itself when it was requested). */
  function Origin(p: string, r: Release): string {
    if r.cause == [] then p else r.cause[0]
  }

  /** Each package of `path` lists the one before it among its dependencies. */
  predicate IsCausalPath(config: Config, path: seq<string>) {
    forall i :: 0 <= i < |path| - 1 ==> DependsOn(config, path[i + 1], path[i])
  }

  predicate NoDuplicates(s: seq<string>) {
    forall i, j :: 0 <= i < j < |s| ==> s[i] != s[j]
  }

  /**
   * Entry `p` is explained by its chain: the chain leads from a requested
   * package along dependency edges to `p`, names no package twice and not
   * `p` itself, every package on it is in the set at least as severe as `p`,
   * and `p` has exactly the severity that was requested at the chain's start.
   */
  predicate Explained(requested: map<string, Severity>, config: Config, changes: map<string, Release>, p: string)
    requires p in changes
  {
    var r := changes[p];
    && Origin(p, r) in requested
    && r.kind == requested[Origin(p, r)]
    && IsCausalPath(config, r.cause + [p])
    && NoDuplicates(r.cause + [p])
    && (forall c :: c in r.cause ==> c in changes && Rank(changes[c].kind) >= Rank(r.kind))
  }

  /** What holds of the release set throughout the resolution. */
  predicate Sound(requested: map<string, Severity>, config: Config, changes: map<string, Release>) {
    && RequestsKept(requested, changes)
    && (forall p :: p in changes ==> p in requested || p in config.packages)
    && AllExplained(requested, config, changes)
  }

  /** Every requested package is in the set, at least as severe as requested. */
  predicate RequestsKept(requested: map<string, Severity>, changes: map<string, Release>) {
    forall p :: p in requested ==> p in changes && Rank(changes[p].kind) >= Rank(requested[p])
  }

  predicate AllExplained(requested: map<string, Severity>, config: Config, changes: map<string, Release>) {
    forall p {:trigger Explained(requested, config, changes, p)} :: p in changes ==> Explained(requested, config, changes, p)
  }

  /** If `d` is in the set, a dependent `p` of it is in the set at least as severe. */
  predicate Covers(changes: map<string, Release>, p: string, d: string) {
    d in changes ==> p in changes && Rank(changes[p].kind) >= Rank(changes[d].kind)
  }

  /** The fixed point: every dependent of a package in the set is covered. */
  ghost predicate Closed(config: Config, changes: map<string, Release>) {
    forall p, d :: DependsOn(config, p, d) ==> Covers(changes, p, d)
  }

  /** `b` has every entry of `a`, none less severe. */
  predicate Grows(a: map<string, Release>, b: map<string, Release>) {
    forall p :: p in a ==> p in b && Rank(a[p].kind) <= Rank(b[p].kind)
  }

  /** `w` was added or upgraded from `a` to `b`. */
  predicate GrewAt(a: map<string, Release>, b: map<string, Release>, w: string) {
    w in b && (w !in a || Rank(a[w].kind) < Rank(b[w].kind))
  }

  /** No entry other than `p` differs between `a` and `b`. */
  predicate OnlyAt(a: map<string, Release>, b: map<string, Release>, p: string) {
    && (forall q :: q in a && q != p ==> q in b && b[q] == a[q])
    && (forall q :: q in b && q != p ==> q in a)
  }

  /** `p`'s entry in `b` is a dependency `d` of `p`, with `d`'s severity in `a` and `d`'s chain extended by `d`. */
  predicate TakenFrom(config: Config, a: map<string, Release>, b: map<string, Release>, p: string)
    requires p in b
  {
    exists d :: DependsOn(config, p, d) && d in a && b[p] == Release(a[d].kind, a[d].cause + [d])
  }

  /** The (package, severity level) pairs the set has reached. */
  ghost function Levels(changes: map<string, Release>): set<(string, nat)> {
    set p, r: nat | p in changes && r <= Rank(changes[p].kind) :: (p, r)
  }

  /** The pairs it could still reach. */
  ghost function Missing(requested: map<string, Severity>, config: Config, changes: map<string, Release>): set<(string, nat)> {
    (set p, r: nat | p in requested.Keys + config.packages.Keys && r <= 2 :: (p, r)) - Levels(changes)
  }

  lemma MissingShrinks(requested: map<string, Severity>, config: Config,
                       a: map<string, Release>, b: map<string, Release>, w: string)
    requires Grows(a, b) && GrewAt(a, b, w)
    requires w in requested || w in config.packages
    ensures Missing(requested, config, b) < Missing(requested, config, a)
  {
    assert Levels(a) <= Levels(b);
    var top := (w, Rank(b[w].kind));
    assert top in Levels(b) && top !in Levels(a);
  }

  /** An entry that is unchanged keeps its explanation while the set grows. */
  lemma ExplainedKept(requested: map<string, Severity>, config: Config,
                      a: map<string, Release>, b: map<string, Release>, q: string)
    requires q in a && q in b && b[q] == a[q]
    requires Grows(a, b) && Explained(requested, config, a, q)
    ensures Explained(requested, config, b, q)
  {
    var r := a[q];
    forall c | c in r.cause ensures c in b && Rank(b[c].kind) >= Rank(r.kind) {
      assert c in a;
    }
  }

  /** Dependent `p` of `d`, given `d`'s severity and chain extended by `d`, is explained. */
  lemma ExplainedExtended(requested: map<string, Severity>, config: Config,
                          a: map<string, Release>, p: string, d: string)
    requires d in a && Explained(requested, config, a, d)
    requires DependsOn(config, p, d) && p !in a[d].cause + [d]
    ensures Explained(requested, config, a[p := Release(a[d].kind, a[d].cause + [d])], p)
  {
    var chain := a[d].cause + [d];
    var r := Release(a[d].kind, chain);
    var b := a[p := r];
    assert Origin(p, r) == Origin(d, a[d]);
    var path := chain + [p];
    forall i | 0 <= i < |path| - 1 ensures DependsOn(config, path[i + 1], path[i]) {
      if i < |chain| - 1 {
        assert path[i] == chain[i] && path[i + 1] == chain[i + 1];
      }
    }
    assert IsCausalPath(config, path);
    forall i, j | 0 <= i < j < |path| ensures path[i] != path[j] {
      if j < |chain| {
        assert path[i] == chain[i] && path[j] == chain[j];
      } else {
        assert path[i] in chain;
      }
    }
    assert NoDuplicates(path);
    forall c | c in r.cause ensures c in b && Rank(b[c].kind) >= Rank(r.kind) {
      if c != d {
        assert c in a[d].cause;
      }
    }
  }

  /** Adding or upgrading dependent `p` of `d` with `d`'s severity and chain keeps the set sound. */
  lemma ConsiderKeepsSound(requested: map<string, Severity>, config: Config, changes: map<string, Release>,
                           p: string, d: string)
    requires Sound(requested, config, changes)
    requires DependsOn(config, p, d) && d in changes
    requires p !in changes[d].cause + [d]
    requires p !in changes || Rank(changes[p].kind) < Rank(changes[d].kind)
    ensures Grows(changes, changes[p := Release(changes[d].kind, changes[d].cause + [d])])
    ensures Sound(requested, config, changes[p := Release(changes[d].kind, changes[d].cause + [d])])
  {
    var m := changes[p := Release(changes[d].kind, changes[d].cause + [d])];
    assert RequestsKept(requested, m) by {
      forall q | q in requested ensures q in m && Rank(m[q].kind) >= Rank(requested[q]) {
        assert q in changes;
      }
    }
    assert AllExplained(requested, config, m) by {
      forall q | q in m ensures Explained(requested, config, m, q) {
        if q == p {
          ExplainedExtended(requested, config, changes, p, d);
        } else {
          ExplainedKept(requested, config, changes, m, q);
        }
      }
    }
  }

  /** Raising `p` to the severity of `d` keeps `p` covering every dependency it covered, and covers `d`. */
  lemma RaiseKeepsCovered(changes: map<string, Release>, p: string, d: string, seen: seq<string>)
    requires d in changes && d != p
    requires p !in changes || Rank(changes[p].kind) < Rank(changes[d].kind)
    requires forall k :: 0 <= k < |seen| ==> Covers(changes, p, seen[k])
    ensures var m := changes[p := Release(changes[d].kind, changes[d].cause + [d])];
      Covers(m, p, d) && forall k :: 0 <= k < |seen| ==> Covers(m, p, seen[k])
  {
  }

  /** A dependent that the scan leaves alone is already covered. */
  lemma UnchangedIsCovered(requested: map<string, Severity>, config: Config, changes: map<string, Release>,
                           p: string, d: string)
    requires Sound(requested, config, changes)
    requires d in changes ==>
               p in changes[d].cause + [d] || (p in changes && Rank(changes[p].kind) >= Rank(changes[d].kind))
    ensures Covers(changes, p, d)
  {
    if d in changes && p in changes[d].cause {
      assert Explained(requested, config, changes, d);
    }
  }

  /**
   * `changesConsideringParents`: repeat full scans of the packages, adding or
   * upgrading every dependent of a package in the set, until a scan changes
   * nothing. The scans always come to an end, cycles included.
   */
  method ChangesConsideringParents(requested: map<string, Severity>, config: Config)
    returns (changes: map<string, Release>)
    requires WellFormed(config)
    ensures Sound(requested, config, changes)
    ensures Closed(config, changes)
  {
    changes := map p | p in requested :: Release(requested[p], []);
    var changed := true;
    while changed
      invariant Sound(requested, config, changes)
      invariant !changed ==> Closed(config, changes)
      decreases Missing(requested, config, changes), changed
    {
      ghost var before := changes;
      ghost var grown;
      changes, changed, grown := Pass(requested, config, changes);
      if changed {
        MissingShrinks(requested, config, before, changes, grown);
      }
    }
  }

  /**
   * One full scan over the packages in configuration order. Either it changes
   * nothing, and then the set is closed, or it adds or upgrades some package.
   */
  method Pass(requested: map<string, Severity>, config: Config, start: map<string, Release>)
    returns (changes: map<string, Release>, changed: bool, ghost grown: string)
    requires WellFormed(config) && Sound(requested, config, start)
    ensures Sound(requested, config, changes) && Grows(start, changes)
    ensures !changed ==> changes == start && Closed(config, changes)
    ensures changed ==> GrewAt(start, changes, grown) && (grown in requested || grown in config.packages)
  {
    changes, changed, grown := start, false, "";
    var i := 0;
    while i < |config.order|
      invariant 0 <= i <= |config.order|
      invariant Sound(requested, config, changes) && Grows(start, changes)
      invariant !changed ==> changes == start
      invariant !changed ==> forall k, d :: 0 <= k < i && DependsOn(config, config.order[k], d) ==>
                               Covers(changes, config.order[k], d)
      invariant changed ==> GrewAt(start, changes, grown) && (grown in requested || grown in config.packages)
    {
      var grew;
      changes, grew := ConsiderDependencies(requested, config, config.order[i], changes);
      if grew {
        changed, grown := true, config.order[i];
      }
      i := i + 1;
    }
    if !changed {
      forall q, e | DependsOn(config, q, e) ensures Covers(changes, q, e) {
        var k :| 0 <= k < |config.order| && config.order[k] == q;
      }
    }
  }

  /**
   * The scan of one package `p`: for each of its dependencies `d` in order,
   * if `d` is in the set, `p` is not on `d`'s chain and `p` is absent or less
   * severe, `p` takes `d`'s severity and `d`'s chain extended by `d`.
   */
  method ConsiderDependencies(requested: map<string, Severity>, config: Config, p: string,
                              start: map<string, Release>)
    returns (changes: map<string, Release>, grew: bool)
    requires p in config.packages && Sound(requested, config, start)
    ensures Sound(requested, config, changes) && Grows(start, changes)
    ensures OnlyAt(start, changes, p)
    ensures forall d :: DependsOn(config, p, d) ==> Covers(changes, p, d)
    ensures !grew ==> changes == start
    ensures grew ==> GrewAt(start, changes, p) && TakenFrom(config, start, changes, p)
  {
    changes, grew := start, false;
    var deps := config.packages[p].dependencies;
    var j := 0;
    while j < |deps|
      invariant 0 <= j <= |deps|
      invariant Sound(requested, config, changes) && Grows(start, changes)
      invariant OnlyAt(start, changes, p)
      invariant forall k :: 0 <= k < j ==> Covers(changes, p, deps[k])
      invariant !grew ==> changes == start
      invariant grew ==> GrewAt(start, changes, p) && TakenFrom(config, start, changes, p)
    {
      var d := deps[j];
      if d in changes {
        var chain := changes[d].cause + [d];
        if p !in chain && (p !in changes || Rank(changes[p].kind) < Rank(changes[d].kind)) {
          ConsiderKeepsSound(requested, config, changes, p, d);
          RaiseKeepsCovered(changes, p, d, deps[..j]);
          assert changes[d] == start[d];
          changes := changes[p := Release(changes[d].kind, chain)];
          grew := true;
        } else {
          UnchangedIsCovered(requested, config, changes, p, d);
        }
      }
      j := j + 1;
    }
    forall e | DependsOn(config, p, e) ensures Covers(changes, p, e) {
      var k :| 0 <= k < |deps| && deps[k] == e;
    }
  }

  /**
   * A package reachable from a requested bump along dependency edges is in
   * the resolved set, at least as severe as that request.
   */
  lemma {:induction false} DependentsIncluded(requested: map<string, Severity>, config: Config,
                                             changes: map<string, Release>, path: seq<string>)
    requires Sound(requested, config, changes) && Closed(config, changes)
    requires |path| >= 1 && path[0] in requested && IsCausalPath(config, path)
    ensures path[|path| - 1] in changes
    ensures Rank(changes[path[|path| - 1]].kind) >= Rank(requested[path[0]])
  {
    var n := |path| - 1;
    if n > 0 {
      var init := path[..n];
      assert IsCausalPath(config, init) by {
        forall i | 0 <= i < |init| - 1 ensures DependsOn(config, init[i + 1], init[i]) {
          assert init[i] == path[i] && init[i + 1] == path[i + 1];
        }
      }
      DependentsIncluded(requested, config, changes, init);
      assert DependsOn(config, path[n], path[n - 1]);
      assert Covers(changes, path[n], path[n - 1]);
    }
  }

  /**
   * A package is in the resolved set only if a requested bump reaches it: its
   * chain is such a path, and its severity is the one requested there.
   */
  lemma IncludedOnlyIfReachable(requested: map<string, Severity>, config: Config,
                                changes: map<string, Release>, p: string)
    requires Sound(requested, config, changes) && p in changes
    ensures var path := changes[p].cause + [p];
      && path[0] in requested
      && IsCausalPath(config, path)
      && changes[p].kind == requested[path[0]]
  {
    assert Explained(requested, config, changes, p);
  }

  /**
   * Any two resolutions of the same requests agree on which packages are
   * bumped and how severely; only the explaining chains may differ.
   */
  lemma ResolutionUnique(requested: map<string, Severity>, config: Config,
                         m1: map<string, Release>, m2: map<string, Release>)
    requires Sound(requested, config, m1) && Closed(config, m1)
    requires Sound(requested, config, m2) && Closed(config, m2)
    ensures m1.Keys == m2.Keys
    ensures forall p :: p in m1 ==> m1[p].kind == m2[p].kind
  {
    forall p | p in m1 ensures p in m2 && Rank(m2[p].kind) >= Rank(m1[p].kind) {
      IncludedOnlyIfReachable(requested, config, m1, p);
      DependentsIncluded(requested, config, m2, m1[p].cause + [p]);
    }
    forall p | p in m2 ensures p in m1 && Rank(m1[p].kind) >= Rank(m2[p].kind) {
      IncludedOnlyIfReachable(requested, config, m2, p);
      DependentsIncluded(requested, config, m1, m2[p].cause + [p]);
    }
    forall p | p in m1 ensures m1[p].kind == m2[p].kind {
      RankInjective(m1[p].kind, m2[p].kind);
    }
  }
}
