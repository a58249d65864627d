/**
 * Release versions `X.Y.Z` and the three kinds of bump that items 6 to 8 of
 * Semantic Versioning 2.0.0 define, together with the version strings of a
 * manifest and the partial version requirements (`"0.9"`) that dependency
 * references may use.
 */
module SemVer {
  import opened Wrappers
  import Text

  /** The `type` of a bump command. */
  datatype Severity = Patch | Minor | Major

  /** major > minor > patch */
  function Rank(s: Severity): nat {
    match s
    case Patch => 0
    case Minor => 1
    case Major => 2
  }

  lemma RankInjective(a: Severity, b: Severity)
    ensures Rank(a) == Rank(b) <==> a == b
  {
  }

  datatype Version = Version(major: nat, minor: nat, patch: nat)

  /** The version that a bump of severity `s` gives to a package now at `v`. */
  function Bump(v: Version, s: Severity): (w: Version)
    ensures Precedes(v, w) && ChangesAtLeast(v, w, s)
  {
    match s
    case Major => Version(v.major + 1, 0, 0)
    case Minor => Version(v.major, v.minor + 1, 0)
    case Patch => Version(v.major, v.minor, v.patch + 1)
  }

  /** Precedence of release versions (item 11 of Semantic Versioning 2.0.0). */
  predicate Precedes(v: Version, w: Version) {
    || v.major < w.major
    || (v.major == w.major && v.minor < w.minor)
    || (v.major == w.major && v.minor == w.minor && v.patch < w.patch)
  }

  /** `w` differs from `v` in the component that `s` names or in a more significant one. */
  predicate ChangesAtLeast(v: Version, w: Version, s: Severity) {
    match s
    case Major => w.major != v.major
    case Minor => w.major != v.major || w.minor != v.minor
    case Patch => w != v
  }

  /**
   * A bump gives the least version after `v` that changes the component the
   * severity names: a minor bump resets the patch number, a major bump resets
   * both, and a leading `0.` is not special.
   */
  lemma BumpIsNextRelease(v: Version, s: Severity)
    ensures Precedes(v, Bump(v, s)) && ChangesAtLeast(v, Bump(v, s), s)
    ensures forall w :: Precedes(v, w) && ChangesAtLeast(v, w, s) ==>
              w == Bump(v, s) || Precedes(Bump(v, s), w)
  {
  }

  /** Only the named component and the ones after it change. */
  lemma BumpKeepsMoreSignificant(v: Version, s: Severity)
    ensures s != Major ==> Bump(v, s).major == v.major
    ensures s == Patch ==> Bump(v, s).minor == v.minor
    ensures s != Patch ==> Bump(v, s).patch == 0
    ensures s == Major ==> Bump(v, s).minor == 0
  {
  }

  /** The numerals of the three components. */
  function Components(v: Version): (c: seq<string>)
    ensures |c| == 3
  {
    [Text.Decimal(v.major), Text.Decimal(v.minor), Text.Decimal(v.patch)]
  }

  /** `X.Y.Z` */
  function Format(v: Version): string {
    Text.Join(Components(v), '.')
  }

  predicate AllNumerals(parts: seq<string>) {
    forall i :: 0 <= i < |parts| ==> Text.IsNumeral(parts[i])
  }

  /** A version string of a manifest; None stands for `InvalidVersionFormat`. */
  function Parse(s: string): (r: Option<Version>)
    ensures r.Some? ==> Components(r.value) == Text.Split(s, '.')
  {
    var parts := Text.Split(s, '.');
    if |parts| == 3 && AllNumerals(parts) then
      Text.DecimalOfValue(parts[0]);
      Text.DecimalOfValue(parts[1]);
      Text.DecimalOfValue(parts[2]);
      Some(Version(Text.ValueOf(parts[0]), Text.ValueOf(parts[1]), Text.ValueOf(parts[2])))
    else
      None
  }

  lemma ComponentsSplit(v: Version)
    ensures Text.Split(Format(v), '.') == Components(v)
  {
    var c := Components(v);
    forall i | 0 <= i < 3 ensures '.' !in c[i] {
      assert Text.IsNumeral(c[i]);
    }
    Text.SplitJoin(c, '.');
  }

  lemma ParseFormat(v: Version)
    ensures Parse(Format(v)) == Some(v)
  {
    ComponentsSplit(v);
    Text.ValueOfDecimal(v.major);
    Text.ValueOfDecimal(v.minor);
    Text.ValueOfDecimal(v.patch);
  }

  lemma FormatParse(s: string)
    ensures Parse(s).Some? ==> Format(Parse(s).value) == s
  {
    Text.JoinSplit(s, '.');
  }

  /**
   * How many numeric components a dependency reference writes: the number of
   * dot-separated pieces it has, never more than a version has.
   */
  function Precision(req: string): (p: nat)
    ensures 1 <= p <= 3
  {
    var n := |Text.Split(req, '.')|;
    if n < 3 then n else 3
  }

  /** The first `p` components of `v`, dot-separated. */
  function Truncate(v: Version, p: nat): string
    requires 1 <= p <= 3
  {
    Text.Join(Components(v)[..p], '.')
  }

  /** A dependency requirement `req` moved to version `v` at the precision it had. */
  function RewriteRequirement(req: string, v: Version): (r: string)
    ensures r <= Format(v)
  {
    Text.JoinPrefix(Components(v), Precision(req), '.');
    Truncate(v, Precision(req))
  }

  /** The values of a list of numerals. */
  function Values(parts: seq<string>): (n: seq<nat>)
    requires AllNumerals(parts)
    ensures |n| == |parts|
  {
    if parts == [] then [] else [Text.ValueOf(parts[0])] + Values(parts[1..])
  }

  /** The components of a partial version requirement of one to three numerals. */
  function ParseRequirement(req: string): Option<seq<nat>> {
    var parts := Text.Split(req, '.');
    if |parts| <= 3 && AllNumerals(parts) then Some(Values(parts)) else None
  }

  function Numbers(v: Version): seq<nat> {
    [v.major, v.minor, v.patch]
  }

  lemma TruncateSplit(v: Version, p: nat)
    requires 1 <= p <= 3
    ensures Text.Split(Truncate(v, p), '.') == Components(v)[..p]
  {
    var c := Components(v)[..p];
    forall i | 0 <= i < p ensures '.' !in c[i] {
      assert Text.IsNumeral(c[i]);
    }
    Text.SplitJoin(c, '.');
  }

  lemma ValuesOfComponents(v: Version, p: nat)
    requires 1 <= p <= 3
    ensures AllNumerals(Components(v)[..p])
    ensures Values(Components(v)[..p]) == Numbers(v)[..p]
  {
    var c := Components(v);
    Text.ValueOfDecimal(v.major);
    Text.ValueOfDecimal(v.minor);
    Text.ValueOfDecimal(v.patch);
    var d0, d1, d2 := c[0], c[1], c[2];
    assert Values([d2]) == [v.patch];
    assert Values([d1, d2]) == [v.minor, v.patch];
    assert Values([d0, d1, d2]) == Numbers(v);
    assert Values([d1]) == [v.minor];
    if p == 1 {
      assert c[..p] == [d0];
    } else if p == 2 {
      assert c[..p] == [d0, d1];
      assert Values([d0, d1]) == [v.major, v.minor];
    } else {
      assert c[..p] == [d0, d1, d2];
    }
  }

  /** A rewritten requirement keeps the precision of the original. */
  lemma RewriteKeepsPrecision(req: string, v: Version)
    ensures Precision(RewriteRequirement(req, v)) == Precision(req)
  {
    TruncateSplit(v, Precision(req));
  }

  /** A rewritten requirement names exactly the leading components of the new version. */
  lemma RewriteNamesLeadingComponents(req: string, v: Version)
    ensures ParseRequirement(RewriteRequirement(req, v)) == Some(Numbers(v)[..Precision(req)])
  {
    TruncateSplit(v, Precision(req));
    ValuesOfComponents(v, Precision(req));
  }

  /** A requirement written with all three components becomes the full new version. */
  lemma RewriteFullPrecision(req: string, v: Version)
    requires Precision(req) == 3
    ensures RewriteRequirement(req, v) == Format(v)
  {
    assert Components(v)[..3] == Components(v);
  }

  /** Rewriting a reference a second time to the same version changes nothing. */
  lemma RewriteIdempotent(req: string, v: Version)
    ensures RewriteRequirement(RewriteRequirement(req, v), v) == RewriteRequirement(req, v)
  {
    RewriteKeepsPrecision(req, v);
  }
}
