/**
 * The inputs that both halves of the bump share: the `packages` section of
 * the configuration (an object keyed by package name, so `order` keeps its
 * key order) and the bump commands that `apply` receives.
 */
module Packages {
  import opened Wrappers
  import opened SemVer

  /**
   * One entry of `config.packages`. An entry without a `path` or without a
   * `manager`, such as `all: { version: true }`, is virtual: it takes part in
   * the dependency graph and has no manifest.
   */
  datatype PackageConfig = PackageConfig(path: Option<string>, manager: Option<string>, dependencies: seq<string>)

  datatype Config = Config(order: seq<string>, packages: map<string, PackageConfig>)

  /** What a JavaScript object guarantees: each key once, and `order` lists exactly the keys. */
  predicate WellFormed(config: Config) {
    && (forall i, j :: 0 <= i < j < |config.order| ==> config.order[i] != config.order[j])
    && (forall p :: p in config.order ==> p in config.packages)
    && (forall p :: p in config.packages ==> p in config.order)
  }

  /** Package `p` lists `d` among its `dependencies`. */
  predicate DependsOn(config: Config, p: string, d: string) {
    p in config.packages && d in config.packages[p].dependencies
  }

  /** A bump command as `apply` receives it; `type` is the severity. */
  datatype Command = Command(
    pkg: string,
    kind: Severity,
    manager: Option<string>,
    path: Option<string>,
    dependencies: Option<seq<string>>,
    parents: seq<string>)
}
