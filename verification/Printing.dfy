/** The part of a closure that `bsd why-depends` prints, on values: what the recursive printer has printed
    and which nodes it has visited, and what that means for the closure. */
module Printing {
  import opened Distances

  type Edge = (Path, Path)

  /** The closure with distances. A reference of a node to itself is shown only if `self` is set, that is,
      when the package is its own dependency. */
  datatype View = View(g: Graph, dist: map<Path, nat>, self: bool)

  predicate ViewValid(w: View) {
    w.dist.Keys <= w.g.refs.Keys
  }

  /** The references of u that are printed below it. */
  function Shown(w: View, u: Path): set<Path> {
    if u in w.g.refs then set r | r in w.g.refs[u] && r in w.dist && (r != u || w.self) else {}
  }

  function EdgesFrom(w: View, us: set<Path>): set<Edge> {
    set u, v | u in us && v in Shown(w, u) :: (u, v)
  }

  ghost predicate ShownWalk(w: View, a: Path, b: Path, k: nat)
    decreases k
  {
    if k == 0 then a == b else exists c :: c in Shown(w, a) && ShownWalk(w, c, b, k - 1)
  }

  ghost predicate ShownReach(w: View, a: Path, b: Path) {
    exists k: nat :: ShownWalk(w, a, b, k)
  }

  function EdgeSet(es: seq<Edge>): set<Edge> {
    set e | e in es
  }

  predicate NoRepeats(es: seq<Edge>) {
    forall i, j :: 0 <= i < j < |es| ==> es[i] != es[j]
  }

  /** The order in which references are printed: by distance, and for equal distances by store path. */
  predicate ComesFirst(dist: map<Path, nat>, r: Path, q: Path) {
    r in dist && q in dist && (dist[r] < dist[q] || (dist[r] == dist[q] && r.rank < q.rank))
  }

  /** References in the order of their distance. */
  predicate ByDistance(w: View, u: Path, refs: seq<Path>) {
    Distinct(refs) && Elements(refs) == Shown(w, u)
    && forall i, j :: 0 <= i < j < |refs| ==> ComesFirst(w.dist, refs[i], refs[j])
  }

  // ----- Printing everything: a depth-first traversal -----

  predicate DoneWith(w: View, visited: set<Path>, u: Path) {
    u in visited || Shown(w, u) == {}
  }

  /** What printing a node does when the printer does not bail out: v0 and v1 are the visited nodes before and
      after, es the edges printed. The edges are those below the newly visited nodes, each once, and the newly
      visited nodes are reachable and leave nothing open. */
  ghost predicate Explored(w: View, node: Path, v0: set<Path>, v1: set<Path>, es: seq<Edge>) {
    && v0 <= v1
    && NoRepeats(es) && EdgeSet(es) == EdgesFrom(w, v1 - v0)
    && DoneWith(w, v1, node)
    && (forall u, v :: u in v1 - v0 && v in Shown(w, u) ==> DoneWith(w, v1, v))
    && (forall u :: u in v1 - v0 ==> ShownReach(w, node, u))
  }

  /** The same half way through the references of a node, the first i of them being printed. */
  ghost predicate Exploring(w: View, node: Path, refs: seq<Path>, i: nat, v0: set<Path>, v1: set<Path>, es: seq<Edge>) {
    && i <= |refs| && v0 <= v1 && node !in v0
    && NoRepeats(es) && EdgeSet(es) == (set j | 0 <= j < i :: (node, refs[j])) + EdgesFrom(w, v1 - v0 - {node})
    && (i > 0 ==> node in v1)
    && (forall j :: 0 <= j < i ==> DoneWith(w, v1, refs[j]))
    && (forall u, v :: u in v1 - v0 - {node} && v in Shown(w, u) ==> DoneWith(w, v1 + {node}, v))
    && (forall u :: u in v1 - v0 ==> ShownReach(w, node, u))
  }

  lemma ExploringStarts(w: View, node: Path, refs: seq<Path>, v0: set<Path>, v1: set<Path>)
    requires node !in v0 && (v1 == v0 || v1 == v0 + {node})
    ensures Exploring(w, node, refs, 0, v0, v1, [])
  {
    assert v1 - v0 - {node} == {};
    assert ShownWalk(w, node, node, 0);
  }

  lemma EdgeSetConcat(a: seq<Edge>, b: seq<Edge>)
    requires NoRepeats(a) && NoRepeats(b) && EdgeSet(a) !! EdgeSet(b)
    ensures EdgeSet(a + b) == EdgeSet(a) + EdgeSet(b) && NoRepeats(a + b)
  {
    assert forall e :: e in a + b <==> e in a || e in b;
    forall i, j | 0 <= i < j < |a + b| ensures (a + b)[i] != (a + b)[j] {
      if i < |a| <= j { assert a[i] in EdgeSet(a) && b[j - |a|] in EdgeSet(b); }
    }
  }

  lemma ShownStep(w: View, node: Path, r: Path, u: Path)
    requires r in Shown(w, node) && ShownReach(w, r, u)
    ensures ShownReach(w, node, u)
  {
    var k: nat :| ShownWalk(w, r, u, k);
    assert ShownWalk(w, node, u, k + 1);
  }

  lemma StepEdges(w: View, node: Path, refs: seq<Path>, i: nat, v0: set<Path>, v1: set<Path>, es: seq<Edge>,
                  v2: set<Path>, es': seq<Edge>)
    requires Exploring(w, node, refs, i, v0, v1, es) && i < |refs| && Distinct(refs) && node in v1
    requires v1 <= v2 && NoRepeats(es') && EdgeSet(es') == EdgesFrom(w, v2 - v1)
    requires (node, refs[i]) !in EdgeSet(es)
    ensures NoRepeats(es + [(node, refs[i])] + es')
    ensures EdgeSet(es + [(node, refs[i])] + es')
            == (set j | 0 <= j < i + 1 :: (node, refs[j])) + EdgesFrom(w, v2 - v0 - {node})
  {
    var e := (node, refs[i]);
    assert EdgeSet([e]) == {e};
    EdgeSetConcat(es, [e]);
    EdgeSetConcat(es + [e], es');
    assert (set j | 0 <= j < i + 1 :: (node, refs[j])) == (set j | 0 <= j < i :: (node, refs[j])) + {e};
    assert v2 - v0 - {node} == (v1 - v0 - {node}) + (v2 - v1);
    assert EdgesFrom(w, v2 - v0 - {node}) == EdgesFrom(w, v1 - v0 - {node}) + EdgesFrom(w, v2 - v1);
  }

  /** Marking the node is harmless half way. */
  lemma ExploringMarked(w: View, node: Path, refs: seq<Path>, i: nat, v0: set<Path>, v1: set<Path>, es: seq<Edge>)
    requires Exploring(w, node, refs, i, v0, v1, es)
    ensures Exploring(w, node, refs, i, v0, v1 + {node}, es)
  {
    assert v1 + {node} - v0 - {node} == v1 - v0 - {node};
    assert ShownWalk(w, node, node, 0);
  }

  lemma ExploringStep(w: View, node: Path, refs: seq<Path>, i: nat, v0: set<Path>, v1: set<Path>, es: seq<Edge>,
                      v2: set<Path>, es': seq<Edge>)
    requires Exploring(w, node, refs, i, v0, v1, es) && i < |refs| && ByDistance(w, node, refs) && node in v1
    requires Explored(w, refs[i], v1, v2, es')
    ensures Exploring(w, node, refs, i + 1, v0, v2, es + [(node, refs[i])] + es')
  {
    assert refs[i] in Elements(refs);
    assert (node, refs[i]) !in EdgeSet(es);
    StepEdges(w, node, refs, i, v0, v1, es, v2, es');
    forall u | u in v2 - v0 ensures ShownReach(w, node, u) {
      if u in v2 - v1 { ShownStep(w, node, refs[i], u); }
    }
    forall u, v | u in v2 - v0 - {node} && v in Shown(w, u) ensures DoneWith(w, v2 + {node}, v) {
      if u in v1 - v0 - {node} { assert DoneWith(w, v1 + {node}, v); } else { assert DoneWith(w, v2, v); }
    }
  }

  lemma ExploringEnds(w: View, node: Path, refs: seq<Path>, v0: set<Path>, v1: set<Path>, es: seq<Edge>)
    requires Exploring(w, node, refs, |refs|, v0, v1, es) && ByDistance(w, node, refs)
    ensures Explored(w, node, v0, v1, es)
  {
    assert (set j | 0 <= j < |refs| :: (node, refs[j])) == EdgesFrom(w, {node}) by {
      forall r | r in Shown(w, node) ensures exists j :: 0 <= j < |refs| && refs[j] == r { assert r in Elements(refs); }
      forall j | 0 <= j < |refs| ensures refs[j] in Shown(w, node) { assert refs[j] in Elements(refs); }
    }
    if refs == [] {
      assert Elements(refs) == {};
      assert EdgesFrom(w, v1 - v0) == EdgesFrom(w, v1 - v0 - {node}) + EdgesFrom(w, {node});
    } else {
      assert v1 - v0 == (v1 - v0 - {node}) + {node};
      assert EdgesFrom(w, v1 - v0) == EdgesFrom(w, v1 - v0 - {node}) + EdgesFrom(w, {node});
    }
    forall u, v | u in v1 - v0 && v in Shown(w, u) ensures DoneWith(w, v1, v) {
      if u == node {
        assert v in Elements(refs);
      } else {
        assert DoneWith(w, v1 + {node}, v);
        assert refs == [] ==> Shown(w, node) == Elements([]) == {};
      }
    }
  }

  // ----- The edges printed are those on the walks from the package to the dependency -----

  lemma {:induction false} ReachedIsDone(w: View, v1: set<Path>, a: Path, u: Path, k: nat)
    requires DoneWith(w, v1, a) && ShownWalk(w, a, u, k)
    requires forall x, y :: x in v1 && y in Shown(w, x) ==> DoneWith(w, v1, y)
    ensures DoneWith(w, v1, u)
    decreases k
  {
    if k > 0 {
      var c :| c in Shown(w, a) && ShownWalk(w, c, u, k - 1);
      ReachedIsDone(w, v1, c, u, k - 1);
    }
  }

  /** Nothing visited before: exactly the edges below reachable nodes are printed. */
  lemma ExploredAll(w: View, package: Path, v1: set<Path>, es: seq<Edge>, u: Path, v: Path)
    requires Explored(w, package, {}, v1, es)
    ensures (u, v) in es <==> ShownReach(w, package, u) && v in Shown(w, u)
  {
    assert v1 - {} == v1;
    assert (u, v) in es <==> (u, v) in EdgeSet(es);
    if ShownReach(w, package, u) && v in Shown(w, u) {
      var k: nat :| ShownWalk(w, package, u, k);
      ReachedIsDone(w, v1, package, u, k);
    }
  }

  /** Distances as the search leaves them: exactly for the nodes that reach dep. */
  ghost predicate DistancesOf(w: View, dep: Path) {
    Closed(w.g, dep) && forall p :: p in w.dist <==> Reaches(w.g, dep, p)
  }

  lemma ReachesStep(g: Graph, dep: Path, p: Path, q: Path)
    requires p in g.refs && q in g.refs[p] && Reaches(g, dep, q)
    ensures Reaches(g, dep, p)
  {
    var k: nat :| Walk(g, dep, q, k);
    assert Walk(g, dep, p, k + 1);
  }

  /** A walk to a node that reaches dep consists of nodes that do; repeating a node is of no use. */
  lemma {:induction false} WalkIsShown(w: View, dep: Path, a: Path, u: Path, k: nat)
    requires DistancesOf(w, dep) && Walk(w.g, u, a, k) && Reaches(w.g, dep, u)
    ensures ShownReach(w, a, u) && Reaches(w.g, dep, a)
    decreases k
  {
    if k == 0 {
      assert ShownWalk(w, a, u, 0);
    } else {
      var c :| c in w.g.refs[a] && Walk(w.g, u, c, k - 1);
      WalkIsShown(w, dep, c, u, k - 1);
      ReachesStep(w.g, dep, a, c);
      if c != a {
        assert c in Shown(w, a);
        ShownStep(w, a, c, u);
      }
    }
  }

  lemma {:induction false} ShownIsWalk(w: View, a: Path, u: Path, k: nat)
    requires ShownWalk(w, a, u, k)
    ensures Walk(w.g, u, a, k)
    decreases k
  {
    if k > 0 {
      var c :| c in Shown(w, a) && ShownWalk(w, c, u, k - 1);
      ShownIsWalk(w, c, u, k - 1);
    }
  }

  /** The edge from u to v lies on some walk from the package to dep. */
  ghost predicate OnSomeWalk(g: Graph, package: Path, dep: Path, u: Path, v: Path) {
    Reaches(g, u, package) && u in g.refs && v in g.refs[u] && Reaches(g, dep, v)
  }

  /** With `--all`, exactly the edges that lie on a walk from the package to the dependency are printed,
      apart from references of a node to itself. */
  lemma PrintsEdgesOnWalks(w: View, package: Path, dep: Path, v1: set<Path>, es: seq<Edge>, u: Path, v: Path)
    requires DistancesOf(w, dep) && Explored(w, package, {}, v1, es)
    ensures (u, v) in es <==> OnSomeWalk(w.g, package, dep, u, v) && (u != v || w.self)
  {
    ExploredAll(w, package, v1, es, u, v);
    if (u, v) in es {
      var k: nat :| ShownWalk(w, package, u, k);
      ShownIsWalk(w, package, u, k);
    }
    if OnSomeWalk(w.g, package, dep, u, v) && (u != v || w.self) {
      var k: nat :| Walk(w.g, u, package, k);
      ReachesStep(w.g, dep, u, v);
      WalkIsShown(w, dep, package, u, k);
    }
  }

  // ----- Printing one path -----

  /** Every node but dep has a reference that is strictly nearer. */
  ghost predicate Descends(w: View, dep: Path) {
    forall p :: p in w.dist && p != dep ==> exists r :: r in Shown(w, p) && w.dist[r] < w.dist[p]
  }

  /** A path that always continues with the nearest reference, from its first node to dep. */
  ghost predicate GreedyPath(w: View, dep: Path, path: seq<Path>) {
    && path != [] && path[|path| - 1] == dep
    && (forall i :: 0 <= i < |path| ==> path[i] in w.dist)
    && (forall i :: 0 <= i < |path| - 1 ==> NearestRef(w, path[i], path[i + 1]))
  }

  /** The nearest reference of u, and of several the one with the least store path. */
  ghost predicate NearestRef(w: View, u: Path, r: Path) {
    r in Shown(w, u) && forall q :: q in Shown(w, u) && q != r ==> ComesFirst(w.dist, r, q)
  }

  /** The path that the printer prints from a node: it always continues with the nearest reference and ends at dep. */
  ghost predicate Printable(w: View, dep: Path, node: Path, path: seq<Path>) {
    GreedyPath(w, dep, path) && path[0] == node && forall i :: 0 <= i < |path| - 1 ==> path[i] != dep
  }

  function PathEdges(path: seq<Path>): seq<Edge> {
    if |path| <= 1 then [] else [(path[0], path[1])] + PathEdges(path[1..])
  }

  lemma GreedyExtends(w: View, dep: Path, u: Path, path: seq<Path>)
    requires GreedyPath(w, dep, path) && u in w.dist && NearestRef(w, u, path[0])
    ensures GreedyPath(w, dep, [u] + path) && PathEdges([u] + path) == [(u, path[0])] + PathEdges(path)
  {
    assert ([u] + path)[1..] == path;
  }

  /** Along the printed path distances strictly decrease, so it ends after at most dist steps. */
  lemma {:induction false} GreedyDecreases(w: View, dep: Path, path: seq<Path>)
    requires GreedyPath(w, dep, path) && Descends(w, dep)
    requires forall i :: 0 <= i < |path| - 1 ==> path[i] != dep
    ensures |path| - 1 <= w.dist[path[0]]
    ensures forall i :: 0 <= i < |path| - 1 ==> w.dist[path[i + 1]] < w.dist[path[i]]
  {
    forall i | 0 <= i < |path| - 1 ensures w.dist[path[i + 1]] < w.dist[path[i]] {
      assert NearestRef(w, path[i], path[i + 1]);
    }
    if |path| > 1 {
      var rest := path[1..];
      forall i | 0 <= i < |rest| - 1 ensures NearestRef(w, rest[i], rest[i + 1]) {
        assert NearestRef(w, path[i + 1], path[i + 2]);
      }
      GreedyDecreases(w, dep, rest);
    }
  }

  lemma {:induction false} GreedyIsWalk(w: View, dep: Path, path: seq<Path>)
    requires GreedyPath(w, dep, path)
    ensures Walk(w.g, dep, path[0], |path| - 1)
  {
    if |path| > 1 {
      var rest := path[1..];
      forall i | 0 <= i < |rest| - 1 ensures NearestRef(w, rest[i], rest[i + 1]) {
        assert NearestRef(w, path[i + 1], path[i + 2]);
      }
      GreedyIsWalk(w, dep, rest);
      assert NearestRef(w, path[0], path[1]);
      assert path[1] in w.g.refs[path[0]] && Walk(w.g, dep, path[1], |path| - 2);
    }
  }

  /** If the distance of the package is shortest, the printed path is a shortest one. */
  lemma GreedyIsShortest(w: View, dep: Path, path: seq<Path>)
    requires GreedyPath(w, dep, path) && Descends(w, dep)
    requires forall i :: 0 <= i < |path| - 1 ==> path[i] != dep
    requires Shortest(w.g, dep, path[0], w.dist[path[0]])
    ensures Shortest(w.g, dep, path[0], |path| - 1)
  {
    GreedyDecreases(w, dep, path);
    GreedyIsWalk(w, dep, path);
  }
}
