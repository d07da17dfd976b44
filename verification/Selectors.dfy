/** Selecting packages by name (`bsd-env` operations that take selectors as arguments). */
module Selectors {
  import opened Basics
  import opened Versions
  import opened Packages
  import opened Selection

  // ----- One package per name: the right system, then priority, then version -----

  datatype Match = Match(pkg: Package, index: nat)

  /** Built for this system first, then priority, then version. Less means that b is to be preferred. */
  function SystemPreference(thisSystem: string, a: Package, b: Package): Ordering {
    if a.system == thisSystem && b.system != thisSystem then Greater
    else if a.system != thisSystem && b.system == thisSystem then Less
    else Preference(a, b)
  }

  function NewestOrder(thisSystem: string): (Match, Match) -> Ordering {
    (a: Match, b: Match) => SystemPreference(thisSystem, a.pkg, b.pkg)
  }

  function Named(): (string, Match) -> bool {
    (name, m: Match) => ShortName(m.pkg) == name
  }

  lemma NewestOrderIsOrder(thisSystem: string)
    ensures TotalPreorder(NewestOrder(thisSystem))
  {
    var cmp := NewestOrder(thisSystem);
    PreferenceIsOrder();
    assert Flips(cmp) by {
      forall a, b ensures cmp(b, a) == cmp(a, b).Flip() { PreferenceFlips(a.pkg, b.pkg); }
    }
    forall a, b, c | cmp(a, b) != Greater && cmp(b, c) != Greater
      ensures cmp(a, c) != Greater && (cmp(a, c) == Equal ==> cmp(a, b) == Equal && cmp(b, c) == Equal)
    {
      SystemPreferenceTransitive(thisSystem, a.pkg, b.pkg, c.pkg);
    }
  }

  lemma SystemPreferenceTransitive(s: string, a: Package, b: Package, c: Package)
    requires SystemPreference(s, a, b) != Greater && SystemPreference(s, b, c) != Greater
    ensures SystemPreference(s, a, c) != Greater
    ensures SystemPreference(s, a, c) == Equal ==>
              SystemPreference(s, a, b) == Equal && SystemPreference(s, b, c) == Equal
  {
    if (a.system == s) == (b.system == s) && (b.system == s) == (c.system == s) {
      PreferenceTransitive(a, b, c);
    }
  }

  /** The comparison of a match with the newest one so far, as the program makes it. */
  method CompareMatches(thisSystem: string, one: Package, newest: Package) returns (d: Ordering)
    ensures d == SystemPreference(thisSystem, one, newest)
  {
    d := if one.system == newest.system then Equal
         else if one.system == thisSystem then Greater
         else if newest.system == thisSystem then Less
         else Equal;
    if d == Equal { d := ComparePriorities(one, newest); }
    if d == Equal {
      var _, v1 := ParseDrvName(one.name);
      var _, v2 := ParseDrvName(newest.name);
      d := CompareVersions(v1, v2);
    }
  }

  ghost predicate NewestNamed(cmp: (Match, Match) -> Ordering, matches: seq<Match>, n: nat, name: string, m: Match)
    requires n <= |matches|
  {
    exists k: nat :: k < n && EarliestBest(matches, Named(), name, cmp, n, k) && m == matches[k]
  }

  /** r lists, in name order, exactly the earliest best match of every package name that occurs. */
  ghost predicate NewestOf(thisSystem: string, matches: seq<Match>, r: seq<Match>) {
    var cmp := NewestOrder(thisSystem);
    && (forall i, j :: 0 <= i < j < |r| ==> StringLess(ShortName(r[i].pkg), ShortName(r[j].pkg)))
    && (forall i :: 0 <= i < |r| ==> NewestNamed(cmp, matches, |matches|, ShortName(r[i].pkg), r[i]))
    && (forall m :: m in matches ==> exists i :: 0 <= i < |r| && ShortName(r[i].pkg) == ShortName(m.pkg))
  }

  /** The map that the scan maintains over the first n matches. */
  ghost predicate TracksNewest(cmp: (Match, Match) -> Ordering, matches: seq<Match>, n: nat, newest: map<string, Match>)
    requires n <= |matches|
  {
    (forall k :: 0 <= k < n ==> ShortName(matches[k].pkg) in newest)
    && (forall name :: name in newest ==> NewestNamed(cmp, matches, n, name, newest[name]))
  }

  lemma NewestKept(cmp: (Match, Match) -> Ordering, matches: seq<Match>, n: nat, name: string, m: Match)
    requires TotalPreorder(cmp) && n < |matches| && NewestNamed(cmp, matches, n, name, m)
    requires ShortName(matches[n].pkg) == name ==> cmp(m, matches[n]) != Less
    ensures NewestNamed(cmp, matches, n + 1, name, m)
  {
    var k: nat :| k < n && EarliestBest(matches, Named(), name, cmp, n, k) && m == matches[k];
    OldBest(matches, Named(), name, cmp, n + 1, Some(k));
  }

  lemma NewestReplaced(cmp: (Match, Match) -> Ordering, matches: seq<Match>, n: nat, newest: map<string, Match>,
                       name: string)
    requires TotalPreorder(cmp) && n < |matches| && TracksNewest(cmp, matches, n, newest)
    requires name == ShortName(matches[n].pkg) && (name in newest ==> cmp(newest[name], matches[n]) == Less)
    ensures NewestNamed(cmp, matches, n + 1, name, matches[n])
  {
    if name in newest {
      var k: nat :| k < n && EarliestBest(matches, Named(), name, cmp, n, k) && newest[name] == matches[k];
      NewBest(matches, Named(), name, cmp, n + 1, Some(k));
    } else {
      assert IsChoice(matches, Named(), name, cmp, n, None);
      NewBest(matches, Named(), name, cmp, n + 1, None);
    }
  }

  /** The entries of other names, and of this one if it is not displaced, stay the newest. */
  lemma OthersKept(cmp: (Match, Match) -> Ordering, matches: seq<Match>, n: nat, newest: map<string, Match>,
                   name: string, replace: bool)
    requires TotalPreorder(cmp) && n < |matches| && TracksNewest(cmp, matches, n, newest)
    requires name == ShortName(matches[n].pkg)
    requires name in newest && !replace ==> cmp(newest[name], matches[n]) != Less
    ensures forall other :: other in newest && (other != name || !replace) ==>
              NewestNamed(cmp, matches, n + 1, other, newest[other])
  {
    forall other | other in newest && (other != name || !replace)
      ensures NewestNamed(cmp, matches, n + 1, other, newest[other])
    {
      NewestKept(cmp, matches, n, other, newest[other]);
    }
  }

  /** The match at n has been looked at, and the map has been updated if it displaces the newest one of its name. */
  lemma ScanStep(cmp: (Match, Match) -> Ordering, matches: seq<Match>, n: nat, newest: map<string, Match>,
                 name: string, replace: bool)
    requires TotalPreorder(cmp) && n < |matches| && TracksNewest(cmp, matches, n, newest)
    requires name == ShortName(matches[n].pkg)
    requires replace <==> name in newest ==> cmp(newest[name], matches[n]) == Less
    ensures TracksNewest(cmp, matches, n + 1, if replace then newest[name := matches[n]] else newest)
  {
    OthersKept(cmp, matches, n, newest, name, replace);
    if replace { NewestReplaced(cmp, matches, n, newest, name); }
  }

  method Displaces(thisSystem: string, one: Package, newest: Option<Package>) returns (r: bool)
    ensures r <==> newest.None? || SystemPreference(thisSystem, newest.value, one) == Less
  {
    var comparison := Greater;
    if newest.Some? {
      comparison := CompareMatches(thisSystem, one, newest.value);
      PreferenceFlips(one, newest.value);
    }
    return comparison == Greater;
  }

  method ScanNewest(thisSystem: string, matches: seq<Match>) returns (newest: map<string, Match>)
    ensures TracksNewest(NewestOrder(thisSystem), matches, |matches|, newest)
  {
    newest := map[];
    NewestOrderIsOrder(thisSystem);
    for n := 0 to |matches|
      invariant TracksNewest(NewestOrder(thisSystem), matches, n, newest)
    {
      var name, _ := ParseDrvName(matches[n].pkg.name);
      var replace := Displaces(thisSystem, matches[n].pkg,
                               if name in newest then Some(newest[name].pkg) else None);
      ScanStep(NewestOrder(thisSystem), matches, n, newest, name, replace);
      if replace { newest := newest[name := matches[n]]; }
    }
  }

  lemma LeastString(names: set<string>) returns (least: string)
    requires names != {}
    ensures least in names && forall x :: x in names && x != least ==> StringLess(least, x)
  {
    var y :| y in names;
    if names == {y} {
      least := y;
    } else {
      var z := LeastString(names - {y});
      StringLessStrict(y, z);
      if StringLess(y, z) {
        least := y;
        forall x | x in names && x != y && x != z ensures StringLess(y, x) { StringLessTransitive(y, z, x); }
      } else {
        least := z;
      }
    }
  }

  /** The keys of an ordered map, in the order it is traversed. */
  method SortedKeys(keys: set<string>) returns (names: seq<string>)
    ensures Increasing(names) && (forall x :: x in names <==> x in keys)
  {
    names := [];
    var left := keys;
    while left != {}
      invariant left <= keys
      invariant Increasing(names)
      invariant forall i, x :: 0 <= i < |names| && x in left ==> StringLess(names[i], x)
      invariant forall x :: x in keys <==> x in names || x in left
    {
      ghost var least := LeastString(left);
      var name :| name in left && forall x :: x in left && x != name ==> StringLess(name, x);
      names := names + [name];
      left := left - {name};
    }
  }

  lemma TrackedName(cmp: (Match, Match) -> Ordering, matches: seq<Match>, newest: map<string, Match>, name: string)
    requires TracksNewest(cmp, matches, |matches|, newest) && name in newest
    ensures ShortName(newest[name].pkg) == name && NewestNamed(cmp, matches, |matches|, name, newest[name])
  {
    assert NewestNamed(cmp, matches, |matches|, name, newest[name]);
  }

  lemma TracksThenNewest(thisSystem: string, matches: seq<Match>, newest: map<string, Match>, names: seq<string>,
                         r: seq<Match>)
    requires TracksNewest(NewestOrder(thisSystem), matches, |matches|, newest)
    requires Increasing(names) && forall x :: x in names <==> x in newest
    requires |r| == |names| && forall i :: 0 <= i < |names| ==> names[i] in newest && r[i] == newest[names[i]]
    ensures NewestOf(thisSystem, matches, r)
  {
    var cmp := NewestOrder(thisSystem);
    forall i | 0 <= i < |r|
      ensures ShortName(r[i].pkg) == names[i] && NewestNamed(cmp, matches, |matches|, names[i], r[i])
    {
      TrackedName(cmp, matches, newest, names[i]);
    }
    forall m | m in matches ensures exists i :: 0 <= i < |r| && ShortName(r[i].pkg) == ShortName(m.pkg) {
      var i :| 0 <= i < |names| && names[i] == ShortName(m.pkg);
      assert ShortName(r[i].pkg) == names[i];
    }
  }

  method PickNewestOnly(thisSystem: string, matches: seq<Match>) returns (r: seq<Match>)
    ensures NewestOf(thisSystem, matches, r)
  {
    var newest := ScanNewest(thisSystem, matches);
    var names := SortedKeys(newest.Keys);
    r := seq(|names|, i requires 0 <= i < |names| => newest[names[i]]);
    TracksThenNewest(thisSystem, matches, newest, names, r);
  }
}
