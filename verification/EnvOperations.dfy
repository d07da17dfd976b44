/** What the operations of `bsd-env` do to the list of installed elements. */
module EnvOperations {
  import opened Packages
  import opened Filter
  import Upgrade

  // ----- Install -----

  function NamesOf(elems: seq<Package>): set<string> {
    set p | p in elems :: ShortName(p)
  }

  /** Whether an installed element stays when elements with the given names are installed. */
  predicate Survives(names: set<string>, preserve: bool, p: Package) {
    preserve || ShortName(p) !in names || Keep(p)
  }

  function Survivors(names: set<string>, preserve: bool, installed: seq<Package>): (r: seq<Package>)
    ensures forall p :: p in r ==> p in installed && Survives(names, preserve, p)
  {
    if installed == [] then []
    else
      var front, p := installed[..|installed| - 1], installed[|installed| - 1];
      Survivors(names, preserve, front) + if Survives(names, preserve, p) then [p] else []
  }

  function InstallInto(newElems: seq<Package>, preserve: bool, removeAll: bool, installed: seq<Package>): seq<Package> {
    newElems + if removeAll then [] else Survivors(NamesOf(newElems), preserve, installed)
  }

  method InstallDerivations(newElems: seq<Package>, preserve: bool, removeAll: bool, installed: seq<Package>)
    returns (allElems: seq<Package>)
    ensures allElems == InstallInto(newElems, preserve, removeAll, installed)
  {
    var newNames: set<string> := {};
    for n := 0 to |newElems|
      invariant newNames == NamesOf(newElems[..n])
    {
      assert newElems[..n + 1] == newElems[..n] + [newElems[n]];
      NamesGrow(newElems[..n], newElems[n]);
      newNames := newNames + {ShortName(newElems[n])};
    }
    assert newElems[..|newElems|] == newElems;
    allElems := newElems;
    if !removeAll {
      for n := 0 to |installed|
        invariant allElems == newElems + Survivors(newNames, preserve, installed[..n])
      {
        assert installed[..n + 1][..n] == installed[..n];
        if Survives(newNames, preserve, installed[n]) { allElems := allElems + [installed[n]]; }
      }
      assert installed[..|installed|] == installed;
    }
  }

  lemma NamesGrow(elems: seq<Package>, p: Package)
    ensures NamesOf(elems + [p]) == NamesOf(elems) + {ShortName(p)}
  {
    assert forall x :: x in elems + [p] <==> x in elems || x == p;
    assert (elems + [p])[|elems|] == p;
  }

  lemma {:induction false} SurvivorsConcat(names: set<string>, preserve: bool, a: seq<Package>, b: seq<Package>)
    ensures Survivors(names, preserve, a + b) == Survivors(names, preserve, a) + Survivors(names, preserve, b)
  {
    if b == [] {
      assert a + b == a;
    } else {
      assert (a + b)[..|a + b| - 1] == a + b[..|b| - 1];
      SurvivorsConcat(names, preserve, a, b[..|b| - 1]);
    }
  }

  lemma {:induction false} SurvivorsAll(names: set<string>, preserve: bool, elems: seq<Package>)
    requires forall p :: p in elems ==> Survives(names, preserve, p)
    ensures Survivors(names, preserve, elems) == elems
  {
    if elems != [] {
      var front, last := elems[..|elems| - 1], elems[|elems| - 1];
      assert elems == front + [last];
      SurvivorsAll(names, preserve, front);
    }
  }

  lemma {:induction false} SurvivorsNone(names: set<string>, preserve: bool, elems: seq<Package>)
    requires forall p :: p in elems ==> !Survives(names, preserve, p)
    ensures Survivors(names, preserve, elems) == []
  {
    if elems != [] { SurvivorsNone(names, preserve, elems[..|elems| - 1]); }
  }

  lemma {:induction false} SurvivorExists(names: set<string>, preserve: bool, elems: seq<Package>, p: Package)
    requires p in elems && Survives(names, preserve, p)
    ensures Survivors(names, preserve, elems) != []
  {
    if p != elems[|elems| - 1] {
      assert p in elems[..|elems| - 1];
      SurvivorExists(names, preserve, elems[..|elems| - 1], p);
    }
  }

  /** Reinstalling repeats the new elements that survive, in front of everything else. */
  lemma InstallTwice(newElems: seq<Package>, preserve: bool, installed: seq<Package>)
    ensures var once := InstallInto(newElems, preserve, false, installed);
            InstallInto(newElems, preserve, false, once) == once
            <==> Survivors(NamesOf(newElems), preserve, newElems) == []
  {
    var names := NamesOf(newElems);
    var rest, again := Survivors(names, preserve, installed), Survivors(names, preserve, newElems);
    SurvivorsConcat(names, preserve, newElems, rest);
    SurvivorsAll(names, preserve, rest);
    var once, twice := newElems + rest, newElems + (again + rest);
    assert |twice| == |once| + |again|;
    assert again == [] ==> again + rest == rest;
  }

  /** Installing the same elements a second time changes nothing exactly when none of them would survive
      the installation of its own name: with `--preserve-installed`, or for an element marked `keep`,
      every repetition adds one more copy. */
  lemma InstallIdempotentIff(newElems: seq<Package>, preserve: bool, removeAll: bool, installed: seq<Package>)
    ensures var once := InstallInto(newElems, preserve, removeAll, installed);
            InstallInto(newElems, preserve, removeAll, once) == once
            <==> (removeAll || (forall p :: p in newElems ==> !preserve && !Keep(p)))
  {
    if !removeAll {
      var names := NamesOf(newElems);
      InstallTwice(newElems, preserve, installed);
      assert forall p :: p in newElems ==> ShortName(p) in names;
      if p :| p in newElems && (preserve || Keep(p)) {
        SurvivorExists(names, preserve, newElems, p);
      } else {
        SurvivorsNone(names, preserve, newElems);
      }
    }
  }

  // ----- Set a flag -----

  function SetMeta(p: Package, flag: string, value: string): Package {
    p.(meta := p.meta[flag := MetaString(value)])
  }

  predicate AnyMatches(q: Query, sels: seq<Selector>, p: Package) {
    exists k :: 0 <= k < |sels| && Matches(q, sels[k], p)
  }

  function FlagOne(q: Query, sels: seq<Selector>, flag: string, value: string, p: Package): Package {
    if AnyMatches(q, sels, p) then SetMeta(p, flag, value) else p
  }

  function FlagAll(q: Query, sels: seq<Selector>, flag: string, value: string, installed: seq<Package>): seq<Package> {
    seq(|installed|, n requires 0 <= n < |installed| => FlagOne(q, sels, flag, value, installed[n]))
  }

  method SetFlag(q: Query, sels: seq<Selector>, flag: string, value: string, installed: seq<Package>)
    returns (r: seq<Package>, hits: seq<nat>)
    ensures r == FlagAll(q, sels, flag, value, installed)
    ensures |hits| == |sels|
    ensures forall k :: 0 <= k < |sels| ==> (hits[k] > 0 <==> FlagsSome(q, sels, k, installed))
  {
    r := [];
    hits := seq(|sels|, _ => 0);
    for n := 0 to |installed|
      invariant |r| == n && |hits| == |sels|
      invariant forall m :: 0 <= m < n ==> r[m] == FlagOne(q, sels, flag, value, installed[m])
      invariant forall k :: 0 <= k < |sels| ==> (hits[k] > 0 <==> FlagsSome(q, sels, k, installed[..n]))
    {
      var k := FirstMatch(q, sels, installed[n]);
      forall j | 0 <= j < |sels|
        ensures FlagsSome(q, sels, j, installed[..n + 1]) <==>
                FlagsSome(q, sels, j, installed[..n]) || j == k
      {
        FlagsGrow(q, sels, j, installed[..n], installed[n]);
        assert installed[..n + 1] == installed[..n] + [installed[n]];
      }
      if k < |sels| {
        hits := hits[k := hits[k] + 1];
        r := r + [SetMeta(installed[n], flag, value)];
      } else {
        r := r + [installed[n]];
      }
    }
    assert installed[..|installed|] == installed;
  }

  /** Selector k is the first one to match p. */
  ghost predicate FirstToMatch(q: Query, sels: seq<Selector>, k: nat, p: Package) {
    k < |sels| && Matches(q, sels[k], p) && forall j :: 0 <= j < k ==> !Matches(q, sels[j], p)
  }

  ghost predicate FlagsSome(q: Query, sels: seq<Selector>, k: nat, installed: seq<Package>) {
    exists p :: p in installed && FirstToMatch(q, sels, k, p)
  }

  lemma FlagsGrow(q: Query, sels: seq<Selector>, k: nat, installed: seq<Package>, p: Package)
    ensures FlagsSome(q, sels, k, installed + [p]) <==>
            FlagsSome(q, sels, k, installed) || FirstToMatch(q, sels, k, p)
  {
    assert forall x :: x in installed + [p] <==> x in installed || x == p;
    assert (installed + [p])[|installed|] == p;
  }

  method FirstMatch(q: Query, sels: seq<Selector>, p: Package) returns (k: nat)
    ensures k <= |sels| && (k < |sels| <==> AnyMatches(q, sels, p))
    ensures forall j: nat :: FirstToMatch(q, sels, j, p) <==> j == k && k < |sels|
  {
    k := 0;
    while k < |sels| && !Matches(q, sels[k], p)
      invariant 0 <= k <= |sels|
      invariant forall j :: 0 <= j < k ==> !Matches(q, sels[j], p)
    {
      k := k + 1;
    }
  }

  // ----- Uninstall -----

  /** What one argument of `--uninstall` removes: a store path, or the packages a selector matches. */
  datatype Removal = ByPath(outPath: string) | ByName(s: Selector)

  predicate Removes(q: Query, r: Removal, p: Package) {
    match r
    case ByPath(outPath) => p.outPath == outPath
    case ByName(s) => Matches(q, s, p)
  }

  predicate Removed(q: Query, rs: seq<Removal>, p: Package) {
    exists k :: 0 <= k < |rs| && Removes(q, rs[k], p)
  }

  /** Exactly the elements that nothing removes are left, each as often as before. Their order is not
      fixed: the elements are moved by an unstable partition. */
  ghost predicate Uninstalled(q: Query, rs: seq<Removal>, before: seq<Package>, after: seq<Package>) {
    forall p :: multiset(after)[p] == if Removed(q, rs, p) then 0 else multiset(before)[p]
  }

  method RemoveMatching(q: Query, r: Removal, elems: seq<Package>) returns (kept: seq<Package>)
    ensures forall p :: multiset(kept)[p] == if Removes(q, r, p) then 0 else multiset(elems)[p]
  {
    kept := [];
    for n := 0 to |elems|
      invariant forall p :: multiset(kept)[p] == if Removes(q, r, p) then 0 else multiset(elems[..n])[p]
    {
      assert elems[..n + 1] == elems[..n] + [elems[n]];
      if !Removes(q, r, elems[n]) { kept := kept + [elems[n]]; }
    }
    assert elems[..|elems|] == elems;
  }

  method UninstallDerivations(q: Query, rs: seq<Removal>, installed: seq<Package>) returns (r: seq<Package>)
    ensures Uninstalled(q, rs, installed, r)
  {
    r := installed;
    for n := 0 to |rs|
      invariant Uninstalled(q, rs[..n], installed, r)
    {
      r := RemoveMatching(q, rs[n], r);
      forall p ensures Removed(q, rs[..n + 1], p) <==> Removed(q, rs[..n], p) || Removes(q, rs[n], p) {
        assert rs[..n + 1] == rs[..n] + [rs[n]];
      }
    }
    assert rs[..|rs|] == rs;
  }

  // ----- All of them -----

  datatype Operation =
    | Install(newElems: seq<Package>, preserve: bool, removeAll: bool)
    | UpgradeTo(request: Upgrade.Request)
    | Flag(query: Query, sels: seq<Selector>, flag: string, value: string)
    | Uninstall(query: Query, removals: seq<Removal>)

  /** Which lists an operation may turn a list of installed elements into. */
  ghost predicate Effect(op: Operation, before: seq<Package>, after: seq<Package>) {
    match op
    case Install(newElems, preserve, removeAll) => after == InstallInto(newElems, preserve, removeAll, before)
    case UpgradeTo(q) => after == Upgrade.UpgradeAll(q, before)
    case Flag(q, sels, flag, value) => after == FlagAll(q, sels, flag, value, before)
    case Uninstall(q, rs) => Uninstalled(q, rs, before, after)
  }
}
