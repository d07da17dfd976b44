/** How good the one path is that `bsd why-depends` prints. */
module PrintedPaths {
  import opened Distances
  import opened PopOrders
  import opened FinalDistances
  import opened Printing
  import opened WhyDepends

  /** es are the edges of a walk of n references from the package to dep. */
  ghost predicate WalkPrinted(g: Graph, package: Path, dep: Path, es: seq<Edge>, n: nat) {
    exists path: seq<Path> ::
      |path| == n + 1 && path[0] == package && path[n] == dep && es == PathEdges(path)
      && forall i :: 0 <= i < n ==> path[i] in g.refs && path[i + 1] in g.refs[path[i]] && path[i + 1] != path[i]
  }

  lemma GreedyIsPrintedWalk(w: View, dep: Path, path: seq<Path>)
    requires GreedyPath(w, dep, path) && !w.self
    ensures WalkPrinted(w.g, path[0], dep, PathEdges(path), |path| - 1)
  {
    var n := |path| - 1;
    forall i | 0 <= i < n ensures path[i] in w.g.refs && path[i + 1] in w.g.refs[path[i]] && path[i + 1] != path[i] {
      assert NearestRef(w, path[i], path[i + 1]);
    }
  }

  // ----- Exactly when the path is a shortest one -----

  /** Some reference on the shortest walks of u comes before all references that are not. */
  ghost predicate TightWins(w: View, dep: Path, u: Path) {
    forall q :: q in Shown(w, u) && !Tight(w.g, dep, u, q) ==>
      exists t :: t in Shown(w, u) && Tight(w.g, dep, u, t) && ComesFirst(w.dist, t, q)
  }

  ghost predicate TightSteps(w: View, dep: Path, path: seq<Path>) {
    forall i :: 0 <= i < |path| - 1 ==> Tight(w.g, dep, path[i], path[i + 1])
  }

  /** A reference on the shortest walks wins at every node on the path. */
  ghost predicate TightWinsAlong(w: View, dep: Path, path: seq<Path>) {
    forall i :: 0 <= i < |path| - 1 ==> TightWins(w, dep, path[i])
  }

  lemma DropFirst(w: View, dep: Path, node: Path, path: seq<Path>)
    requires Printable(w, dep, node, path) && |path| > 1
    ensures Printable(w, dep, path[1], path[1..]) && NearestRef(w, node, path[1])
  {
    var rest := path[1..];
    forall i | 0 <= i < |rest| - 1 ensures NearestRef(w, rest[i], rest[i + 1]) && rest[i] != dep {
      assert NearestRef(w, path[i + 1], path[i + 2]);
    }
    assert NearestRef(w, path[0], path[1]);
  }

  lemma {:induction false} TightIsShortest(w: View, dep: Path, node: Path, path: seq<Path>)
    requires Printable(w, dep, node, path) && TightSteps(w, dep, path)
    ensures Shortest(w.g, dep, node, |path| - 1)
    decreases |path|
  {
    if |path| == 1 {
      DepIsExact(w.g, dep);
    } else {
      DropFirst(w, dep, node, path);
      var rest := path[1..];
      forall i | 0 <= i < |rest| - 1 ensures Tight(w.g, dep, rest[i], rest[i + 1]) {
        assert Tight(w.g, dep, path[i + 1], path[i + 2]);
      }
      TightIsShortest(w, dep, path[1], rest);
      assert Tight(w.g, dep, path[0], path[1]);
      var k: nat :| Shortest(w.g, dep, path[1], k) && Shortest(w.g, dep, node, k + 1);
      ShortestUnique(w.g, dep, path[1], k, |rest| - 1);
    }
  }

  /** A shortest path keeps to the references on shortest walks. */
  lemma {:induction false} ShortestIsTight(w: View, dep: Path, node: Path, path: seq<Path>, i: nat)
    requires Printable(w, dep, node, path) && Shortest(w.g, dep, node, |path| - 1) && i < |path| - 1
    ensures Tight(w.g, dep, path[i], path[i + 1])
    decreases |path|
  {
    DropFirst(w, dep, node, path);
    GreedyIsWalk(w, dep, path[1..]);
    assert node in Referrers(w.g, path[1]);
    NearerIsShortest(w.g, dep, node, path[1], |path| - 2);
    if i > 0 {
      ShortestIsTight(w, dep, path[1], path[1..], i - 1);
      assert path[1..][i - 1] == path[i] && path[1..][i] == path[i + 1];
    }
  }

  lemma WinsIffTight(w: View, dep: Path, u: Path, r: Path)
    requires NearestRef(w, u, r)
    ensures TightWins(w, dep, u) <==> Tight(w.g, dep, u, r)
  {
  }

  /** A path that is printed is a shortest one if and only if at every node on it a reference on the shortest walks of
      that node comes before all others that are not. */
  lemma ShortestIffTightWins(w: View, dep: Path, node: Path, path: seq<Path>)
    requires Printable(w, dep, node, path)
    ensures Shortest(w.g, dep, node, |path| - 1) <==> TightWinsAlong(w, dep, path)
  {
    forall i | 0 <= i < |path| - 1 ensures TightWins(w, dep, path[i]) <==> Tight(w.g, dep, path[i], path[i + 1]) {
      assert NearestRef(w, path[i], path[i + 1]);
      WinsIffTight(w, dep, path[i], path[i + 1]);
    }
    if TightWinsAlong(w, dep, path) {
      TightIsShortest(w, dep, node, path);
    } else if Shortest(w.g, dep, node, |path| - 1) {
      forall i | 0 <= i < |path| - 1 ensures TightWins(w, dep, path[i]) { ShortestIsTight(w, dep, node, path, i); }
    }
  }

  // ----- The path is determined -----

  lemma {:induction false} SomePath(w: View, dep: Path, node: Path) returns (path: seq<Path>)
    requires Descends(w, dep) && ViewValid(w) && node in w.dist
    ensures Printable(w, dep, node, path)
    decreases w.dist[node]
  {
    if node == dep {
      path := [dep];
    } else {
      var x :| x in Shown(w, node) && w.dist[x] < w.dist[node];
      var r := Nearest(w.dist, Shown(w, node));
      path := SomePath(w, dep, r);
      GreedyExtends(w, dep, node, path);
      path := [node] + path;
    }
  }

  lemma {:induction false} OnlyPath(w: View, dep: Path, node: Path, a: seq<Path>, b: seq<Path>)
    requires Printable(w, dep, node, a) && Printable(w, dep, node, b)
    ensures a == b
    decreases |a|
  {
    if |a| > 1 && |b| > 1 {
      DropFirst(w, dep, node, a);
      DropFirst(w, dep, node, b);
      assert a[1] == b[1];
      OnlyPath(w, dep, a[1], a[1..], b[1..]);
      assert a == [a[0]] + a[1..] && b == [b[0]] + b[1..];
    }
  }

  /** Whatever the order of pops, exactly one path is printed. It is a walk from the package to the dependency, with at
      most as many references as the distance computed for the package. It is a shortest one if and only if at every
      node on it a reference on the shortest walks of that node comes before all others that are not. So it is if some
      reference on the shortest walks of the package was popped at its own shortest distance, if the nearest node was
      always popped first, and for every order of pops if only nodes that no other node refers to have a detour. */
  lemma PrintedPathQuality(g: Graph, package: Path, dep: Path, pops: seq<Path>, s: Search, es: seq<Edge>)
    returns (path: seq<Path>)
    requires Closed(g, dep) && PopOrder(g, dep, pops) && s == After(g, dep, pops) && s.queue == {}
    requires package != dep && package in s.dist && PrintedPath(View(g, s.dist, false), dep, package, es)
    ensures es == PathEdges(path)
    ensures forall other :: Printable(View(g, s.dist, false), dep, package, other) <==> other == path
    ensures WalkPrinted(g, package, dep, es, |path| - 1) && |path| - 1 <= s.dist[package]
    ensures Shortest(g, dep, package, |path| - 1) <==> TightWinsAlong(View(g, s.dist, false), dep, path)
    ensures (exists t :: Tight(g, dep, package, t) && PoppedExactly(g, dep, pops, t)) ==>
              Shortest(g, dep, package, |path| - 1)
    ensures NearestFirst(g, dep, pops) || NoSharedDetours(g, dep) ==> Shortest(g, dep, package, |path| - 1)
  {
    var w := View(g, s.dist, false);
    path :| Printable(w, dep, package, path) && es == PathEdges(path);
    forall other | Printable(w, dep, package, other) ensures other == path { OnlyPath(w, dep, package, other, path); }
    PathIsWalk(g, package, dep, pops, s, path);
    ShortestIffTightWins(w, dep, package, path);
    PathIsShortest(g, package, dep, pops, s, path);
  }

  lemma PathIsWalk(g: Graph, package: Path, dep: Path, pops: seq<Path>, s: Search, path: seq<Path>)
    requires Closed(g, dep) && PopOrder(g, dep, pops) && s == After(g, dep, pops) && s.queue == {} && package in s.dist
    requires Printable(View(g, s.dist, false), dep, package, path)
    ensures WalkPrinted(g, package, dep, PathEdges(path), |path| - 1) && |path| - 1 <= s.dist[package]
    ensures Shortest(g, dep, package, s.dist[package]) ==> Shortest(g, dep, package, |path| - 1)
  {
    var w := View(g, s.dist, false);
    SearchReady(g, dep, pops, s, false);
    GreedyDecreases(w, dep, path);
    GreedyIsPrintedWalk(w, dep, path);
    if Shortest(g, dep, package, s.dist[package]) { GreedyIsShortest(w, dep, path); }
  }

  lemma PathIsShortest(g: Graph, package: Path, dep: Path, pops: seq<Path>, s: Search, path: seq<Path>)
    requires Closed(g, dep) && PopOrder(g, dep, pops) && s == After(g, dep, pops) && s.queue == {} && package in s.dist
    requires package != dep && Printable(View(g, s.dist, false), dep, package, path)
    ensures (exists t :: Tight(g, dep, package, t) && PoppedExactly(g, dep, pops, t)) ==>
              Shortest(g, dep, package, |path| - 1)
    ensures NearestFirst(g, dep, pops) || NoSharedDetours(g, dep) ==> Shortest(g, dep, package, |path| - 1)
  {
    PathIsWalk(g, package, dep, pops, s, path);
    ShortestIff(g, dep, pops, package);
    if NoSharedDetours(g, dep) {
      NoSharedDetoursShortest(g, dep, pops, package);
    } else if NearestFirst(g, dep, pops) {
      NearestFirstIsShortest(g, dep, pops);
    }
  }

  /** Exactly one path is printed from any node that reaches the dependency. */
  lemma OnePath(g: Graph, package: Path, dep: Path, pops: seq<Path>, s: Search) returns (path: seq<Path>)
    requires Closed(g, dep) && PopOrder(g, dep, pops) && s == After(g, dep, pops) && s.queue == {} && package in s.dist
    ensures forall other :: Printable(View(g, s.dist, false), dep, package, other) <==> other == path
  {
    var w := View(g, s.dist, false);
    SearchReady(g, dep, pops, s, false);
    path := SomePath(w, dep, package);
    forall other | Printable(w, dep, package, other) ensures other == path { OnlyPath(w, dep, package, other, path); }
  }
}
