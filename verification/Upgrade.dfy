/** Choosing the replacement of every installed element (`bsd-env --upgrade`). */
module Upgrade {
  import opened Basics
  import opened Versions
  import opened Packages
  import opened Selection

  datatype UpgradeType = Lt | Leq | Eq | Always

  /** What an upgrade is asked for. `usable` is the prebuilt test, or always true without `--prebuilt-only`. */
  datatype Request = Request(avail: seq<Package>, mode: UpgradeType, usable: Package -> bool)

  predicate VersionSuits(mode: UpgradeType, d: Ordering) {
    (mode == Lt && d == Less)
    || (mode == Leq && d != Greater)
    || (mode == Eq && d == Equal)
    || mode == Always
  }

  /** j may replace i: no lower priority, same package, and a version the mode admits. */
  predicate Suits(mode: UpgradeType, i: Package, j: Package) {
    ComparePriorities(i, j) != Greater
    && ShortName(j) == ShortName(i)
    && VersionSuits(mode, Compare(Version(i), Version(j)))
  }

  function Eligible(q: Request): (Package, Package) -> bool {
    (i, j) => Suits(q.mode, i, j) && q.usable(j)
  }

  ghost predicate IsReplacement(q: Request, i: Package, k: nat) {
    EarliestBest(q.avail, Eligible(q), i, Preference, |q.avail|, k)
  }

  /** The best of the first n available packages. */
  function BestOf(q: Request, i: Package, n: nat): Option<nat>
    requires n <= |q.avail|
    ensures BestOf(q, i, n).Some? ==> BestOf(q, i, n).value < n
  {
    PreferenceIsOrder();
    Choose(q.avail, Eligible(q), i, Preference, n)
  }

  function Replacement(q: Request, i: Package): Option<nat>
    ensures Replacement(q, i).Some? ==> IsReplacement(q, i, Replacement(q, i).value)
  {
    PreferenceIsOrder();
    BestOf(q, i, |q.avail|)
  }

  function PackageAt(q: Request, k: Option<nat>): Option<Package>
    requires k.Some? ==> k.value < |q.avail|
  {
    if k.Some? then Some(q.avail[k.value]) else None
  }

  /** The candidate may replace i, and it is preferred to the best one so far. */
  predicate Improves(q: Request, i: Package, best: Option<Package>, candidate: Package) {
    Eligible(q)(i, candidate) && (best.None? || Preference(best.value, candidate) == Less)
  }

  lemma BestOfNext(q: Request, i: Package, n: nat, best: Option<nat>)
    requires n < |q.avail| && best == BestOf(q, i, n)
    ensures BestOf(q, i, n + 1) == if Improves(q, i, PackageAt(q, best), q.avail[n]) then Some(n) else best
  {
    PreferenceIsOrder();
  }

  /** An element keeps its place unless the chosen candidate has another output path. */
  function UpgradeOne(q: Request, i: Package): Package {
    var best := Replacement(q, i);
    if Keep(i) || best.None? || q.avail[best.value].outPath == i.outPath then i else q.avail[best.value]
  }

  function UpgradeAll(q: Request, installed: seq<Package>): seq<Package> {
    seq(|installed|, n requires 0 <= n < |installed| => UpgradeOne(q, installed[n]))
  }

  /** One round of the search: is the candidate admissible, and is it better than the best so far? */
  method TryCandidate(q: Request, i: Package, best: Option<Package>, candidate: Package) returns (r: bool)
    ensures r <==> Improves(q, i, best, candidate)
  {
    if ComparePriorities(i, candidate) == Greater { return false; }
    var oldName, oldVersion := ParseDrvName(i.name);
    var newName, newVersion := ParseDrvName(candidate.name);
    if newName != oldName { return false; }
    var d := CompareVersions(oldVersion, newVersion);
    if !VersionSuits(q.mode, d) { return false; }
    var d2 := Less;
    if best.Some? {
      d2 := ComparePriorities(best.value, candidate);
      if d2 == Equal {
        var _, bestVersion := ParseDrvName(best.value.name);
        d2 := CompareVersions(bestVersion, newVersion);
      }
    }
    return d2 == Less && q.usable(candidate);
  }

  method FindReplacement(q: Request, i: Package) returns (best: Option<nat>)
    ensures best == Replacement(q, i)
  {
    best := None;
    for j := 0 to |q.avail|
      invariant best == BestOf(q, i, j)
    {
      BestOfNext(q, i, j, best);
      var better := TryCandidate(q, i, PackageAt(q, best), q.avail[j]);
      if better { best := Some(j); }
    }
  }

  method UpgradeDerivations(q: Request, installed: seq<Package>) returns (newElems: seq<Package>)
    ensures newElems == UpgradeAll(q, installed)
  {
    newElems := [];
    for n := 0 to |installed|
      invariant |newElems| == n
      invariant forall m :: 0 <= m < n ==> newElems[m] == UpgradeOne(q, installed[m])
    {
      var i := installed[n];
      if Keep(i) {
        newElems := newElems + [i];
      } else {
        var best := FindReplacement(q, i);
        if best.Some? && i.outPath != q.avail[best.value].outPath {
          newElems := newElems + [q.avail[best.value]];
        } else {
          newElems := newElems + [i];
        }
      }
    }
  }

  // ----- What an upgrade keeps -----

  ghost predicate Keeps(q: Request, i: Package, r: Package) {
    && ShortName(r) == ShortName(i)
    && (Keep(i) ==> r == i)
    && Priority(r) <= Priority(i)
    && (q.mode == Lt || q.mode == Leq ==> Compare(Version(i), Version(r)) != Greater)
    && (q.mode == Eq ==> Compare(Version(i), Version(r)) == Equal)
    && (r == i || exists k: nat :: IsReplacement(q, i, k) && r == q.avail[k])
  }

  lemma UpgradeOneKeeps(q: Request, i: Package)
    ensures Keeps(q, i, UpgradeOne(q, i))
  {
    CompareFlips(Version(i), Version(i));
    var best := Replacement(q, i);
    if best.Some? { assert IsReplacement(q, i, best.value); }
  }

  /** Length, order and package names stay; kept elements are untouched; no element loses priority;
      no version goes down under `--lt` and `--leq`; every new element is the earliest best candidate. */
  lemma UpgradeKeeps(q: Request, installed: seq<Package>)
    ensures var out := UpgradeAll(q, installed);
            |out| == |installed| && forall n :: 0 <= n < |installed| ==> Keeps(q, installed[n], out[n])
  {
    forall n | 0 <= n < |installed| ensures Keeps(q, installed[n], UpgradeOne(q, installed[n])) {
      UpgradeOneKeeps(q, installed[n]);
    }
  }

  // ----- A second upgrade changes nothing -----

  /** Whatever could replace the replacement could already have replaced the original. */
  lemma SuitsTransitive(mode: UpgradeType, i: Package, b: Package, c: Package)
    requires Suits(mode, i, b) && Suits(mode, b, c)
    ensures Suits(mode, i, c)
  {
    var u, v, w := Version(i), Version(b), Version(c);
    if mode != Always {
      CompareTransitive(u, v, w);
      if mode == Eq {
        CompareFlips(u, v);
        CompareFlips(v, w);
        CompareTransitive(w, v, u);
        CompareFlips(u, w);
      }
    }
  }

  lemma SuitsItself(mode: UpgradeType, b: Package, c: Package)
    requires Suits(mode, b, c) && Preference(b, c) != Less
    ensures Suits(mode, b, b)
  {
    CompareFlips(Version(b), Version(b));
  }

  lemma ReplacementIsFinal(q: Request, i: Package, k: nat)
    requires IsReplacement(q, i, k)
    ensures UpgradeOne(q, q.avail[k]) == q.avail[k]
  {
    var b := q.avail[k];
    forall c | Eligible(q)(b, c) ensures Eligible(q)(i, c) { SuitsTransitive(q.mode, i, b, c); }
    forall c | Eligible(q)(b, c) && Preference(b, c) != Less ensures Eligible(q)(b, b) { SuitsItself(q.mode, b, c); }
    PreferenceIsOrder();
    BestStays(q.avail, Eligible(q), i, Preference, k);
  }

  lemma UpgradeOneIdempotent(q: Request, i: Package)
    ensures UpgradeOne(q, UpgradeOne(q, i)) == UpgradeOne(q, i)
  {
    var best := Replacement(q, i);
    if best.Some? { ReplacementIsFinal(q, i, best.value); }
  }

  /** In every mode, with the same available elements, upgrading twice is upgrading once. */
  lemma UpgradeIdempotent(q: Request, installed: seq<Package>)
    ensures UpgradeAll(q, UpgradeAll(q, installed)) == UpgradeAll(q, installed)
  {
    forall n | 0 <= n < |installed|
      ensures UpgradeOne(q, UpgradeOne(q, installed[n])) == UpgradeOne(q, installed[n])
    {
      UpgradeOneIdempotent(q, installed[n]);
    }
  }
}
