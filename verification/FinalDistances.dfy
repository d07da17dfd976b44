/** When the distances that the search ends with are shortest, for every order of pops. */
module FinalDistances {
  import opened Distances
  import opened PopOrders

  /** The distances at which the nodes were popped. */
  ghost function PopDists(g: Graph, dep: Path, pops: seq<Path>): (ds: seq<nat>)
    ensures |ds| == |pops|
  {
    if pops == [] then []
    else
      var s, n := After(g, dep, pops[..|pops| - 1]), pops[|pops| - 1];
      PopDists(g, dep, pops[..|pops| - 1]) + [if n in s.dist then s.dist[n] else 0]
  }

  /** A distance comes from a reference that was popped one nearer. */
  ghost predicate ComesFrom(g: Graph, pops: seq<Path>, ds: seq<nat>, p: Path, d: nat) {
    |ds| == |pops| && exists i :: 0 <= i < |pops| && p in Referrers(g, pops[i]) && d == ds[i] + 1
  }

  ghost predicate AllCome(g: Graph, dep: Path, s: Search, pops: seq<Path>, ds: seq<nat>) {
    forall p :: p in s.dist && p != dep ==> ComesFrom(g, pops, ds, p, s.dist[p])
  }

  /** Every pop has been passed on to all referrers. */
  ghost predicate PassedOn(g: Graph, s: Search, pops: seq<Path>, ds: seq<nat>) {
    |ds| == |pops|
    && forall i, p :: 0 <= i < |pops| && p in Referrers(g, pops[i]) ==> p in s.dist && s.dist[p] <= ds[i] + 1
  }

  ghost predicate PopsAreWalks(g: Graph, dep: Path, pops: seq<Path>, ds: seq<nat>) {
    && |ds| == |pops|
    && forall i :: 0 <= i < |pops| ==> Walk(g, dep, pops[i], ds[i]) && (pops[i] == dep ==> ds[i] == 0)
  }

  ghost predicate Explains(g: Graph, dep: Path, s: Search, pops: seq<Path>, ds: seq<nat>) {
    AllCome(g, dep, s, pops, ds) && PassedOn(g, s, pops, ds) && PopsAreWalks(g, dep, pops, ds)
  }

  lemma ComesFromGrows(g: Graph, pops: seq<Path>, ds: seq<nat>, p: Path, d: nat, n: Path, x: nat)
    requires |ds| == |pops| && (ComesFrom(g, pops, ds, p, d) || (p in Referrers(g, n) && d == x + 1))
    ensures ComesFrom(g, pops + [n], ds + [x], p, d)
  {
    if ComesFrom(g, pops, ds, p, d) {
      var i :| 0 <= i < |pops| && p in Referrers(g, pops[i]) && d == ds[i] + 1;
      assert (pops + [n])[i] == pops[i] && (ds + [x])[i] == ds[i];
    } else {
      assert (pops + [n])[|pops|] == n && (ds + [x])[|ds|] == x;
    }
  }

  lemma ComeStep(g: Graph, dep: Path, s: Search, n: Path, s': Search, ps: set<Path>, pops: seq<Path>, ds: seq<nat>)
    requires PopFacts(g, dep, s, n, s', ps) && AllCome(g, dep, s, pops, ds) && |ds| == |pops|
    ensures AllCome(g, dep, s', pops + [n], ds + [s.dist[n]])
  {
    forall p | p in s'.dist && p != dep ensures ComesFrom(g, pops + [n], ds + [s.dist[n]], p, s'.dist[p]) {
      ComesFromGrows(g, pops, ds, p, s'.dist[p], n, s.dist[n]);
    }
  }

  lemma PassStep(g: Graph, dep: Path, s: Search, n: Path, s': Search, ps: set<Path>, pops: seq<Path>, ds: seq<nat>)
    requires PopFacts(g, dep, s, n, s', ps) && PassedOn(g, s, pops, ds)
    ensures PassedOn(g, s', pops + [n], ds + [s.dist[n]])
  {
    var pops', ds' := pops + [n], ds + [s.dist[n]];
    forall i, p | 0 <= i < |pops'| && p in Referrers(g, pops'[i]) ensures p in s'.dist && s'.dist[p] <= ds'[i] + 1 {
      if i < |pops| { assert p in Referrers(g, pops[i]); }
    }
  }

  lemma ExplainStep(g: Graph, dep: Path, s: Search, n: Path, s': Search, ps: set<Path>, pops: seq<Path>, ds: seq<nat>)
    requires PopFacts(g, dep, s, n, s', ps) && WalksValid(g, dep, s) && Explains(g, dep, s, pops, ds)
    ensures Explains(g, dep, s', pops + [n], ds + [s.dist[n]])
  {
    ComeStep(g, dep, s, n, s', ps, pops, ds);
    PassStep(g, dep, s, n, s', ps, pops, ds);
  }

  /** A relation between searches, orders of pops and their distances that every pop keeps. */
  ghost predicate KeptByPops(g: Graph, r: (Search, seq<Path>, seq<nat>) -> bool) {
    forall s, pops, ds, n :: r(s, pops, ds) && n in s.queue ==>
      n in s.dist && r(Pop(g, s, n), pops + [n], ds + [s.dist[n]])
  }

  lemma {:induction false} HoldsForPops(g: Graph, dep: Path, pops: seq<Path>, r: (Search, seq<Path>, seq<nat>) -> bool)
    requires PopOrder(g, dep, pops) && KeptByPops(g, r) && r(Start(dep), [], [])
    ensures r(After(g, dep, pops), pops, PopDists(g, dep, pops))
  {
    if pops != [] {
      HoldsForPops(g, dep, pops[..|pops| - 1], r);
      assert pops == pops[..|pops| - 1] + [pops[|pops| - 1]];
    }
  }

  ghost function Explaining(g: Graph, dep: Path): (Search, seq<Path>, seq<nat>) -> bool {
    (s, pops, ds) => SearchValid(g, dep, s) && Explains(g, dep, s, pops, ds)
  }

  lemma StartIsValid(g: Graph, dep: Path)
    requires Closed(g, dep)
    ensures SearchValid(g, dep, Start(dep))
  {
    PopsKeepValid(g, dep, []);
  }

  lemma ExplainingIsKept(g: Graph, dep: Path)
    ensures KeptByPops(g, Explaining(g, dep))
  {
    var r := Explaining(g, dep);
    forall s, pops, ds, n | r(s, pops, ds) && n in s.queue
      ensures n in s.dist && r(Pop(g, s, n), pops + [n], ds + [s.dist[n]])
    {
      var s', ps := PopKeepsValid(g, dep, s, n);
      ExplainStep(g, dep, s, n, s', ps, pops, ds);
    }
  }

  /** What the distances have to do with the pops, in every order. */
  lemma PopsExplain(g: Graph, dep: Path, pops: seq<Path>)
    requires Closed(g, dep) && PopOrder(g, dep, pops)
    ensures Explains(g, dep, After(g, dep, pops), pops, PopDists(g, dep, pops))
  {
    StartIsValid(g, dep);
    ExplainingIsKept(g, dep);
    HoldsForPops(g, dep, pops, Explaining(g, dep));
  }

  // ----- When a distance is shortest -----

  /** t was popped at its shortest distance. */
  ghost predicate PoppedExactly(g: Graph, dep: Path, pops: seq<Path>, t: Path) {
    exists i :: 0 <= i < |pops| && pops[i] == t && Shortest(g, dep, t, PopDists(g, dep, pops)[i])
  }

  lemma NearerIsShortest(g: Graph, dep: Path, p: Path, t: Path, d: nat)
    requires p in Referrers(g, t) && Walk(g, dep, t, d) && Shortest(g, dep, p, d + 1)
    ensures Shortest(g, dep, t, d)
  {
    forall j: nat | j < d ensures !Walk(g, dep, t, j) {
      if Walk(g, dep, t, j) { assert Walk(g, dep, p, j + 1); }
    }
  }

  lemma ExplainedByTight(g: Graph, dep: Path, s: Search, pops: seq<Path>, ds: seq<nat>, p: Path) returns (i: nat)
    requires Explains(g, dep, s, pops, ds) && p in s.dist && p != dep && Shortest(g, dep, p, s.dist[p])
    ensures i < |pops| && Tight(g, dep, p, pops[i]) && Shortest(g, dep, pops[i], ds[i])
  {
    assert ComesFrom(g, pops, ds, p, s.dist[p]);
    i :| 0 <= i < |pops| && p in Referrers(g, pops[i]) && s.dist[p] == ds[i] + 1;
    NearerIsShortest(g, dep, p, pops[i], ds[i]);
  }

  lemma ShortestMeansTightPop(g: Graph, dep: Path, pops: seq<Path>, p: Path)
    requires Closed(g, dep) && PopOrder(g, dep, pops) && p in After(g, dep, pops).dist && p != dep
    requires Shortest(g, dep, p, After(g, dep, pops).dist[p])
    ensures exists t :: Tight(g, dep, p, t) && PoppedExactly(g, dep, pops, t)
  {
    PopsExplain(g, dep, pops);
    var i := ExplainedByTight(g, dep, After(g, dep, pops), pops, PopDists(g, dep, pops), p);
    assert PoppedExactly(g, dep, pops, pops[i]);
  }

  lemma TightExplains(g: Graph, dep: Path, s: Search, pops: seq<Path>, ds: seq<nat>, p: Path, i: nat)
    requires Explains(g, dep, s, pops, ds) && WalksValid(g, dep, s)
    requires i < |pops| && Tight(g, dep, p, pops[i]) && Shortest(g, dep, pops[i], ds[i])
    ensures p in s.dist && Shortest(g, dep, p, s.dist[p])
  {
    var k: nat :| Shortest(g, dep, pops[i], k) && Shortest(g, dep, p, k + 1);
    ShortestUnique(g, dep, pops[i], k, ds[i]);
    assert p in Referrers(g, pops[i]);
    assert Walk(g, dep, p, s.dist[p]);
  }

  lemma TightPopMeansShortest(g: Graph, dep: Path, pops: seq<Path>, p: Path, t: Path)
    requires Closed(g, dep) && PopOrder(g, dep, pops) && Tight(g, dep, p, t) && PoppedExactly(g, dep, pops, t)
    ensures p in After(g, dep, pops).dist && Shortest(g, dep, p, After(g, dep, pops).dist[p])
  {
    PopsExplain(g, dep, pops);
    PopsKeepValid(g, dep, pops);
    var i :| 0 <= i < |pops| && pops[i] == t && Shortest(g, dep, t, PopDists(g, dep, pops)[i]);
    TightExplains(g, dep, After(g, dep, pops), pops, PopDists(g, dep, pops), p, i);
  }

  /** In every order of pops and at any time: the distance of a node is shortest if and only if the node is dep, or
      some reference on its shortest walks was popped at its own shortest distance. */
  lemma ShortestIff(g: Graph, dep: Path, pops: seq<Path>, p: Path)
    requires Closed(g, dep) && PopOrder(g, dep, pops) && p in After(g, dep, pops).dist
    ensures Shortest(g, dep, p, After(g, dep, pops).dist[p]) <==>
            p == dep || exists t :: Tight(g, dep, p, t) && PoppedExactly(g, dep, pops, t)
  {
    PopsKeepValid(g, dep, pops);
    if p != dep {
      if Shortest(g, dep, p, After(g, dep, pops).dist[p]) { ShortestMeansTightPop(g, dep, pops, p); }
      if t :| Tight(g, dep, p, t) && PoppedExactly(g, dep, pops, t) { TightPopMeansShortest(g, dep, pops, p, t); }
    }
  }

  // ----- Closures for which every order ends with shortest distances -----

  /** Some other node refers to u. */
  ghost predicate Shared(g: Graph, u: Path) {
    exists p :: p in g.refs && p != u && u in g.refs[p]
  }

  /** Only nodes that no other node refers to have a detour. */
  ghost predicate NoSharedDetours(g: Graph, dep: Path) {
    forall u :: u in g.refs && Shared(g, u) ==> !Detour(g, dep, u)
  }

  lemma TightIsShared(g: Graph, dep: Path, p: Path, t: Path)
    requires Tight(g, dep, p, t)
    ensures p != t && Shared(g, t)
  {
  }

  ghost predicate SharedExact(g: Graph, dep: Path, pops: seq<Path>, ds: seq<nat>) {
    && |ds| == |pops|
    && forall i :: 0 <= i < |pops| && pops[i] != dep && Shared(g, pops[i]) ==> Shortest(g, dep, pops[i], ds[i])
  }

  lemma DepIsExact(g: Graph, dep: Path)
    ensures Shortest(g, dep, dep, 0)
  {
  }

  lemma NextSharedIsExact(g: Graph, dep: Path, s: Search, pops: seq<Path>, ds: seq<nat>, n: Path)
    requires SearchValid(g, dep, s) && Explains(g, dep, s, pops, ds) && SharedExact(g, dep, pops, ds)
    requires Elements(pops) == Popped(s) && n in s.dist && n != dep && !Detour(g, dep, n)
    ensures Shortest(g, dep, n, s.dist[n])
  {
    var t := TightPopped(g, dep, s, n);
    TightIsShared(g, dep, n, t);
    DepIsExact(g, dep);
    assert t in Elements(pops);
    var i :| 0 <= i < |pops| && pops[i] == t;
    TightExplains(g, dep, s, pops, ds, n, i);
  }

  lemma SharedStep(g: Graph, dep: Path, pops: seq<Path>, ds: seq<nat>, n: Path, d: nat)
    requires SharedExact(g, dep, pops, ds) && (n != dep && Shared(g, n) ==> Shortest(g, dep, n, d))
    ensures SharedExact(g, dep, pops + [n], ds + [d])
  {
  }

  ghost predicate Sharing(g: Graph, dep: Path, s: Search, pops: seq<Path>, ds: seq<nat>) {
    && SearchValid(g, dep, s) && Explains(g, dep, s, pops, ds)
    && SharedExact(g, dep, pops, ds) && Elements(pops) == Popped(s)
  }

  ghost function SharingExactly(g: Graph, dep: Path): (Search, seq<Path>, seq<nat>) -> bool {
    (s, pops, ds) => Sharing(g, dep, s, pops, ds)
  }

  lemma ElementsMore(pops: seq<Path>, n: Path)
    ensures Elements(pops + [n]) == Elements(pops) + {n}
  {
    assert forall x :: x in pops + [n] <==> x in pops || x == n;
  }

  lemma PoppedMore(g: Graph, dep: Path, s: Search, n: Path, s': Search, ps: set<Path>, pops: seq<Path>)
    requires PopFacts(g, dep, s, n, s', ps) && Elements(pops) == Popped(s)
    ensures Elements(pops + [n]) == Popped(s')
  {
    ElementsMore(pops, n);
  }

  lemma SharingStep(g: Graph, dep: Path, s: Search, n: Path, s': Search, ps: set<Path>, pops: seq<Path>, ds: seq<nat>)
    requires Sharing(g, dep, s, pops, ds) && NoSharedDetours(g, dep) && n in s.queue
    requires PopFacts(g, dep, s, n, s', ps) && SearchValid(g, dep, s')
    ensures Sharing(g, dep, s', pops + [n], ds + [s.dist[n]])
  {
    ExplainStep(g, dep, s, n, s', ps, pops, ds);
    if n != dep && Shared(g, n) { NextSharedIsExact(g, dep, s, pops, ds, n); }
    SharedStep(g, dep, pops, ds, n, s.dist[n]);
    PoppedMore(g, dep, s, n, s', ps, pops);
  }

  lemma SharingIsKept(g: Graph, dep: Path)
    requires NoSharedDetours(g, dep)
    ensures KeptByPops(g, SharingExactly(g, dep))
  {
    var r := SharingExactly(g, dep);
    forall s, pops, ds, n | r(s, pops, ds) && n in s.queue
      ensures n in s.dist && r(Pop(g, s, n), pops + [n], ds + [s.dist[n]])
    {
      var s', ps := PopKeepsValid(g, dep, s, n);
      SharingStep(g, dep, s, n, s', ps, pops, ds);
    }
  }

  lemma SharingStarts(g: Graph, dep: Path, pops: seq<Path>)
    requires Closed(g, dep) && pops == []
    ensures Sharing(g, dep, Start(dep), pops, [])
  {
    StartIsValid(g, dep);
    assert Elements(pops) == {} == Popped(Start(dep));
  }

  lemma SharedPopsExact(g: Graph, dep: Path, pops: seq<Path>)
    requires Closed(g, dep) && PopOrder(g, dep, pops) && NoSharedDetours(g, dep)
    ensures SharedExact(g, dep, pops, PopDists(g, dep, pops))
  {
    SharingStarts(g, dep, []);
    SharingIsKept(g, dep);
    HoldsForPops(g, dep, pops, SharingExactly(g, dep));
  }

  lemma TightExists(g: Graph, dep: Path, p: Path, k: nat) returns (t: Path)
    requires Shortest(g, dep, p, k) && p != dep
    ensures Tight(g, dep, p, t)
  {
    t :| t in g.refs[p] && Walk(g, dep, t, k - 1);
    assert p in Referrers(g, t);
    NearerIsShortest(g, dep, p, t, k - 1);
  }

  lemma {:induction false} ShortestExists(g: Graph, dep: Path, p: Path, k: nat) returns (j: nat)
    requires Walk(g, dep, p, k)
    ensures Shortest(g, dep, p, j)
  {
    if i: nat :| i < k && Walk(g, dep, p, i) {
      j := ShortestExists(g, dep, p, i);
    } else {
      j := k;
    }
  }

  lemma SharedTightIsPopped(g: Graph, dep: Path, pops: seq<Path>, p: Path, t: Path)
    requires Closed(g, dep) && PopOrder(g, dep, pops) && After(g, dep, pops).queue == {}
    requires SharedExact(g, dep, pops, PopDists(g, dep, pops)) && Tight(g, dep, p, t)
    ensures PoppedExactly(g, dep, pops, t)
  {
    var s := After(g, dep, pops);
    AnyOrder(g, dep, pops);
    PoppedSet(g, dep, pops);
    TightIsShared(g, dep, p, t);
    var k: nat :| Shortest(g, dep, t, k) && Shortest(g, dep, p, k + 1);
    assert Reaches(g, dep, t) && t in Elements(pops);
    var i :| 0 <= i < |pops| && pops[i] == t;
    PopsExplain(g, dep, pops);
    DepIsExact(g, dep);
  }

  /** If only nodes that no other node refers to have a detour, every order of pops ends with shortest distances. */
  lemma NoSharedDetoursShortest(g: Graph, dep: Path, pops: seq<Path>, p: Path)
    requires Closed(g, dep) && PopOrder(g, dep, pops) && NoSharedDetours(g, dep) && After(g, dep, pops).queue == {}
    requires p in After(g, dep, pops).dist
    ensures Shortest(g, dep, p, After(g, dep, pops).dist[p])
  {
    PopsKeepValid(g, dep, pops);
    if p != dep {
      SharedPopsExact(g, dep, pops);
      var k := ShortestExists(g, dep, p, After(g, dep, pops).dist[p]);
      var t := TightExists(g, dep, p, k);
      SharedTightIsPopped(g, dep, pops, p, t);
      TightPopMeansShortest(g, dep, pops, p, t);
    }
  }
}
