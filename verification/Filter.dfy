/** Filtering a package list by a list of selectors (`filterBySelector`). */
module Filter {
  import opened Basics
  import opened Versions
  import opened Packages
  import opened Selection
  import opened Selectors

  datatype Selector = Selector(fullName: string, name: string, version: string)

  datatype Result<T> = Success(value: T) | Failure(error: string)

  /** What a filter works on; `regex(pattern, name)` is the regular expression match of a whole name. */
  datatype Query = Query(regex: (string, string) -> bool, thisSystem: string, all: seq<Package>, newestOnly: bool)

  function ParseSelector(arg: string): Selector {
    Selector(arg, PackageName(arg), VersionPart(arg))
  }

  /** No arguments stand for the selector that matches everything. */
  function SelectorsOf(args: seq<string>): (r: seq<Selector>)
    ensures r != []
  {
    if args == [] then [ParseSelector("*")]
    else seq(|args|, i requires 0 <= i < |args| => ParseSelector(args[i]))
  }

  predicate Matches(q: Query, s: Selector, p: Package) {
    (s.name == "*" || q.regex(s.name, ShortName(p))) && (s.version == "" || s.version == Version(p))
  }

  /** The matches of a selector among the first n packages, in list order. */
  function MatchesOf(q: Query, s: Selector, n: nat): seq<Match>
    requires n <= |q.all|
  {
    if n == 0 then []
    else
      var r := MatchesOf(q, s, n - 1);
      if Matches(q, s, q.all[n - 1]) then r + [Match(q.all[n - 1], n - 1)] else r
  }

  lemma NextMatch(q: Query, s: Selector, n: nat, m: Match, last: Match)
    requires 0 < n <= |q.all| && last == Match(q.all[n - 1], n - 1)
    ensures m in MatchesOf(q, s, n) <==> m in MatchesOf(q, s, n - 1) || (m == last && Matches(q, s, last.pkg))
  {
  }

  lemma {:induction false} MatchesOfMeaning(q: Query, s: Selector, n: nat, m: Match)
    requires n <= |q.all|
    ensures m in MatchesOf(q, s, n) <==> m.index < n && m.pkg == q.all[m.index] && Matches(q, s, m.pkg)
  {
    if n > 0 {
      NextMatch(q, s, n, m, Match(q.all[n - 1], n - 1));
      MatchesOfMeaning(q, s, n - 1, m);
    }
  }

  predicate Unmatched(q: Query, s: Selector) {
    s.fullName != "*" && MatchesOf(q, s, |q.all|) == []
  }

  /** g is what one selector contributes. */
  ghost predicate GroupOf(q: Query, s: Selector, g: seq<Match>) {
    if q.newestOnly then NewestOf(q.thisSystem, MatchesOf(q, s, |q.all|), g) else g == MatchesOf(q, s, |q.all|)
  }

  /** The contributions of the selectors. */
  ghost predicate GroupsOf(q: Query, sels: seq<Selector>, groups: seq<seq<Match>>) {
    |groups| == |sels| && forall k :: 0 <= k < |sels| ==> GroupOf(q, sels[k], groups[k])
  }

  /** One after the other. */
  function Pool(groups: seq<seq<Match>>): seq<Match> {
    if groups == [] then [] else Pool(groups[..|groups| - 1]) + groups[|groups| - 1]
  }

  function Indices(ms: seq<Match>): set<nat> {
    set m | m in ms :: m.index
  }

  function FirstOccurrences(pool: seq<Match>): seq<Match> {
    if pool == [] then []
    else
      var r := FirstOccurrences(pool[..|pool| - 1]);
      var m := pool[|pool| - 1];
      if m.index in Indices(r) then r else r + [m]
  }

  method FindMatches(q: Query, s: Selector) returns (matches: seq<Match>)
    ensures matches == MatchesOf(q, s, |q.all|)
  {
    matches := [];
    for n := 0 to |q.all|
      invariant matches == MatchesOf(q, s, n)
    {
      if Matches(q, s, q.all[n]) { matches := matches + [Match(q.all[n], n)]; }
    }
  }

  /** Appends the elements of a group whose index is not done yet. */
  method AddNew(elems0: seq<Match>, group: seq<Match>, ghost pool: seq<Match>) returns (elems: seq<Match>)
    requires elems0 == FirstOccurrences(pool)
    ensures elems == FirstOccurrences(pool + group)
  {
    elems := elems0;
    var done := Indices(elems);
    assert pool + group[..0] == pool;
    for i := 0 to |group|
      invariant elems == FirstOccurrences(pool + group[..i]) && done == Indices(elems)
    {
      assert (pool + group[..i + 1])[..|pool| + i] == pool + group[..i];
      if group[i].index !in done {
        done := done + {group[i].index};
        IndicesGrow(elems, group[i]);
        elems := elems + [group[i]];
      }
    }
    assert group[..|group|] == group;
  }

  method Contribution(q: Query, s: Selector) returns (group: seq<Match>, fails: bool)
    ensures GroupOf(q, s, group) && (fails <==> Unmatched(q, s))
  {
    group := FindMatches(q, s);
    fails := group == [] && s.fullName != "*";
    if q.newestOnly { group := PickNewestOnly(q.thisSystem, group); }
  }

  ghost predicate FirstUnmatched(q: Query, sels: seq<Selector>, k: nat) {
    k < |sels| && Unmatched(q, sels[k]) && forall j :: 0 <= j < k ==> !Unmatched(q, sels[j])
  }

  ghost predicate Filtered(q: Query, sels: seq<Selector>, elems: seq<Match>) {
    exists groups :: GroupsOf(q, sels, groups) && elems == FirstOccurrences(Pool(groups))
  }

  ghost predicate FailsWith(q: Query, sels: seq<Selector>, error: string) {
    exists k: nat :: FirstUnmatched(q, sels, k) && error == sels[k].fullName
  }

  ghost predicate AllMatched(q: Query, sels: seq<Selector>) {
    forall k :: 0 <= k < |sels| ==> !Unmatched(q, sels[k])
  }

  /** The first k selectors have been dealt with. */
  ghost predicate FilteredSoFar(q: Query, sels: seq<Selector>, k: nat, groups: seq<seq<Match>>, elems: seq<Match>) {
    && k <= |sels| && GroupsOf(q, sels[..k], groups) && elems == FirstOccurrences(Pool(groups))
    && forall j :: 0 <= j < k ==> !Unmatched(q, sels[j])
  }

  lemma FilteredMore(q: Query, sels: seq<Selector>, k: nat, groups: seq<seq<Match>>, group: seq<Match>)
    requires k < |sels| && FilteredSoFar(q, sels, k, groups, FirstOccurrences(Pool(groups)))
    requires GroupOf(q, sels[k], group) && !Unmatched(q, sels[k])
    ensures FilteredSoFar(q, sels, k + 1, groups + [group], FirstOccurrences(Pool(groups) + group))
  {
    PoolGrows(groups, group);
    GroupsGrow(q, sels, k, groups, group);
  }

  method FilterSelectors(q: Query, sels: seq<Selector>) returns (r: Result<seq<Match>>)
    ensures r.Success? ==> Filtered(q, sels, r.value) && AllMatched(q, sels)
    ensures r.Failure? ==> FailsWith(q, sels, r.error)
  {
    var elems: seq<Match> := [];
    ghost var groups: seq<seq<Match>> := [];
    for k := 0 to |sels|
      invariant FilteredSoFar(q, sels, k, groups, elems)
    {
      var group, fails := Contribution(q, sels[k]);
      elems := AddNew(elems, group, Pool(groups));
      if fails {
        assert FirstUnmatched(q, sels, k);
        return Failure(sels[k].fullName);
      }
      FilteredMore(q, sels, k, groups, group);
      groups := groups + [group];
    }
    assert sels[..|sels|] == sels;
    r := Success(elems);
  }

  /** Fails exactly when a selector other than `*` matches nothing, naming the first such selector. */
  method FilterBySelector(q: Query, args: seq<string>) returns (r: Result<seq<Match>>)
    ensures r.Success? ==> Filtered(q, SelectorsOf(args), r.value) && AllMatched(q, SelectorsOf(args))
    ensures r.Failure? ==> FailsWith(q, SelectorsOf(args), r.error)
  {
    r := FilterSelectors(q, SelectorsOf(args));
  }

  lemma GroupsGrow(q: Query, sels: seq<Selector>, k: nat, groups: seq<seq<Match>>, group: seq<Match>)
    requires k < |sels| && GroupsOf(q, sels[..k], groups) && GroupOf(q, sels[k], group)
    ensures GroupsOf(q, sels[..k + 1], groups + [group])
  {
    forall j | 0 <= j < k + 1 ensures GroupOf(q, sels[..k + 1][j], (groups + [group])[j]) {
      if j < k { assert GroupOf(q, sels[..k][j], groups[j]); }
    }
  }

  lemma PoolGrows(groups: seq<seq<Match>>, group: seq<Match>)
    ensures Pool(groups + [group]) == Pool(groups) + group
  {
    assert (groups + [group])[..|groups|] == groups;
  }

  lemma IndicesGrow(ms: seq<Match>, m: Match)
    ensures Indices(ms + [m]) == Indices(ms) + {m.index}
  {
    assert forall x :: x in ms + [m] <==> x in ms || x == m;
    assert (ms + [m])[|ms|] == m;
  }

  // ----- What the result contains -----

  /** No element is listed twice, and none is lost. */
  lemma {:induction false} FirstOccurrencesMeaning(pool: seq<Match>)
    ensures var r := FirstOccurrences(pool);
            && (forall i, j :: 0 <= i < j < |r| ==> r[i].index != r[j].index)
            && (forall m :: m in r ==> m in pool)
            && Indices(r) == Indices(pool)
  {
    if pool != [] {
      var rest, m := pool[..|pool| - 1], pool[|pool| - 1];
      FirstOccurrencesMeaning(rest);
      assert pool == rest + [m];
      IndicesGrow(rest, m);
      var r := FirstOccurrences(rest);
      IndicesGrow(r, m);
      forall i | 0 <= i < |r| && m.index !in Indices(r) ensures r[i].index != m.index { assert r[i] in r; }
    }
  }

  /** A name's pick is in the list, and nothing else is. */
  lemma NewestOfExact(thisSystem: string, matches: seq<Match>, r: seq<Match>, m: Match)
    requires NewestOf(thisSystem, matches, r)
    ensures m in r <==> NewestNamed(NewestOrder(thisSystem), matches, |matches|, ShortName(m.pkg), m)
  {
    var name, cmp := ShortName(m.pkg), NewestOrder(thisSystem);
    if NewestNamed(NewestOrder(thisSystem), matches, |matches|, name, m) {
      var k: nat :| k < |matches| && EarliestBest(matches, Named(), name, cmp, |matches|, k) && m == matches[k];
      assert m in matches;
      var i :| 0 <= i < |r| && ShortName(r[i].pkg) == name;
      var j: nat :| j < |matches| && EarliestBest(matches, Named(), name, cmp, |matches|, j) && r[i] == matches[j];
      NewestOrderIsOrder(thisSystem);
      ChoiceUnique(matches, Named(), name, cmp, Some(k), Some(j));
    }
  }

  /** Selector s asks for the k-th package: it matches and, if only the newest are wanted,
      it is the earliest best match of its name. */
  ghost predicate Asks(q: Query, s: Selector, k: nat)
    requires k < |q.all|
  {
    Matches(q, s, q.all[k])
    && (q.newestOnly ==> NewestNamed(NewestOrder(q.thisSystem), MatchesOf(q, s, |q.all|), |MatchesOf(q, s, |q.all|)|,
                                     ShortName(q.all[k]), Match(q.all[k], k)))
  }

  ghost predicate AskedFor(q: Query, sels: seq<Selector>, m: Match) {
    m.index < |q.all| && m.pkg == q.all[m.index] && exists s :: s in sels && Asks(q, s, m.index)
  }

  lemma GroupExact(q: Query, s: Selector, g: seq<Match>, m: Match)
    requires GroupOf(q, s, g)
    ensures m in g <==> m.index < |q.all| && m.pkg == q.all[m.index] && Asks(q, s, m.index)
  {
    var matches := MatchesOf(q, s, |q.all|);
    MatchesOfMeaning(q, s, |q.all|, m);
    if q.newestOnly {
      NewestOfExact(q.thisSystem, matches, g, m);
      if NewestNamed(NewestOrder(q.thisSystem), matches, |matches|, ShortName(m.pkg), m) { assert m in matches; }
    }
  }

  ghost predicate InSome(groups: seq<seq<Match>>, m: Match) {
    exists k :: 0 <= k < |groups| && m in groups[k]
  }

  lemma {:induction false} PoolMembers(groups: seq<seq<Match>>, m: Match)
    ensures m in Pool(groups) <==> InSome(groups, m)
  {
    if groups != [] {
      var front := groups[..|groups| - 1];
      PoolMembers(front, m);
      assert forall k :: 0 <= k < |front| ==> front[k] == groups[k];
    }
  }

  lemma PoolExact(q: Query, sels: seq<Selector>, groups: seq<seq<Match>>, m: Match)
    requires GroupsOf(q, sels, groups)
    ensures m in Pool(groups) <==> AskedFor(q, sels, m)
  {
    PoolMembers(groups, m);
    forall k | 0 <= k < |sels|
      ensures m in groups[k] <==> m.index < |q.all| && m.pkg == q.all[m.index] && Asks(q, sels[k], m.index)
    {
      GroupExact(q, sels[k], groups[k], m);
    }
    assert forall k :: 0 <= k < |sels| ==> sels[k] in sels;
  }

  /** The result of a filter holds no element twice and holds exactly the elements asked for. */
  lemma FilterExact(q: Query, sels: seq<Selector>, groups: seq<seq<Match>>)
    requires GroupsOf(q, sels, groups)
    ensures var r := FirstOccurrences(Pool(groups));
            && (forall i, j :: 0 <= i < j < |r| ==> r[i].index != r[j].index)
            && (forall m :: m in r <==> AskedFor(q, sels, m))
  {
    var pool := Pool(groups);
    var r := FirstOccurrences(pool);
    FirstOccurrencesMeaning(pool);
    forall m ensures m in r <==> AskedFor(q, sels, m) {
      PoolExact(q, sels, groups, m);
      if m in pool {
        assert m.index in Indices(pool);
        var x :| x in r && x.index == m.index;
        PoolExact(q, sels, groups, x);
      }
    }
  }
}
