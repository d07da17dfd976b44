/** The command `bsd why-depends` itself: the search and the recursive printer, updating the nodes in place. */
module WhyDepends {
  import opened Distances
  import opened Printing

  /** Transposing the closure. */
  method Transpose(g: Graph) returns (rrefs: map<Path, set<Path>>)
    requires forall p, q :: p in g.refs && q in g.refs[p] ==> q in g.refs
    ensures rrefs.Keys == g.refs.Keys
    ensures forall n :: n in rrefs ==> rrefs[n] == Referrers(g, n)
  {
    rrefs := map p | p in g.refs :: {};
    var todo := g.refs.Keys;
    while todo != {}
      invariant todo <= g.refs.Keys && rrefs.Keys == g.refs.Keys
      invariant forall n, p :: n in rrefs ==> (p in rrefs[n] <==> p in g.refs && p !in todo && n in g.refs[p])
    {
      var node :| node in todo;
      var refs := g.refs[node];
      while refs != {}
        invariant refs <= g.refs[node] && rrefs.Keys == g.refs.Keys
        invariant forall n, p :: n in rrefs ==>
                    (p in rrefs[n] <==> p in g.refs && n in g.refs[p] && (p !in todo || (p == node && n !in refs)))
      {
        var ref :| ref in refs;
        rrefs := rrefs[ref := rrefs[ref] + {node}];
        refs := refs - {ref};
      }
      todo := todo - {node};
    }
  }

  function ImproveOne(s: Search, n: Path, p: Path): Search
    requires n in s.dist
  {
    Search(s.dist[p := s.dist[n] + 1], s.prev[p := n], s.queued + {p}, if p in s.queued then s.queue else s.queue + {p})
  }

  lemma ImproveNone(s: Search, n: Path)
    requires n in s.dist
    ensures Improve(s, n, {}) == s
  {
    assert Improve(s, n, {}).dist == s.dist && Improve(s, n, {}).prev == s.prev;
  }

  /** Referrers can be improved one at a time. */
  lemma ImproveMore(s: Search, n: Path, ps: set<Path>, p: Path)
    requires n in s.dist && n !in ps && p !in ps
    ensures var t := Improve(s, n, ps);
            && n in t.dist && t.dist[n] == s.dist[n]
            && (p in t.dist <==> p in s.dist) && (p in s.dist ==> t.dist[p] == s.dist[p])
            && Improve(s, n, ps + {p}) == ImproveOne(t, n, p)
  {
    var t, r := Improve(s, n, ps), Improve(s, n, ps + {p});
    var o := ImproveOne(t, n, p);
    assert r.dist == o.dist;
    assert r.prev == o.prev;
    assert r.queued == o.queued;
    assert r.queue == o.queue;
  }

  lemma {:induction false} Nearest(dist: map<Path, nat>, ps: set<Path>) returns (p: Path)
    requires ps != {} && ps <= dist.Keys
    ensures p in ps && forall q :: q in ps && q != p ==> ComesFirst(dist, p, q)
    decreases ps
  {
    var x :| x in ps;
    if ps == {x} {
      p := x;
    } else {
      var y := Nearest(dist, ps - {x});
      assert x == Path(x.rank) && y == Path(y.rank);
      p := if ComesFirst(dist, x, y) then x else y;
      forall q | q in ps && q != p ensures ComesFirst(dist, p, q) {
        if q != x && q != y { assert ComesFirst(dist, y, q); }
      }
    }
  }

  ghost predicate Sorting(dist: map<Path, nat>, all: set<Path>, todo: set<Path>, refs: seq<Path>) {
    && todo <= all && Elements(refs) == all - todo && Distinct(refs) && |refs| == |Elements(refs)|
    && (forall i, j :: 0 <= i < j < |refs| ==> ComesFirst(dist, refs[i], refs[j]))
    && (forall x, r :: x in refs && r in todo ==> ComesFirst(dist, x, r))
  }

  lemma SortingStep(dist: map<Path, nat>, all: set<Path>, todo: set<Path>, refs: seq<Path>, r: Path)
    requires Sorting(dist, all, todo, refs) && r in todo && all <= dist.Keys
    requires forall q :: q in todo && q != r ==> ComesFirst(dist, r, q)
    ensures Sorting(dist, all, todo - {r}, refs + [r])
  {
    assert r !in Elements(refs);
    ElementsGrow(refs, r);
    assert all - (todo - {r}) == (all - todo) + {r};
  }

  /** Nearest first; of those equally near, the least store path first. */
  method SortByDistance(dist: map<Path, nat>, all: set<Path>) returns (refs: seq<Path>)
    requires all <= dist.Keys
    ensures Sorting(dist, all, {}, refs)
  {
    refs := [];
    var todo := all;
    while todo != {}
      invariant Sorting(dist, all, todo, refs)
      decreases todo
    {
      ghost var least := Nearest(dist, todo);
      var r :| r in todo && forall q :: q in todo && q != r ==> ComesFirst(dist, r, q);
      SortingStep(dist, all, todo, refs, r);
      refs := refs + [r];
      todo := todo - {r};
    }
  }

  /** All of vs are farther away than p. */
  ghost predicate Farther(dist: map<Path, nat>, vs: set<Path>, p: Path)
    requires p in dist
  {
    forall v :: v in vs ==> v in dist && dist[p] < dist[v]
  }

  lemma FartherStep(dist: map<Path, nat>, v0: set<Path>, vs: set<Path>, node: Path, ref: Path)
    requires node in dist && ref in dist && Farther(dist, v0, node) && dist[ref] < dist[node] && vs <= v0 + {node}
    ensures Farther(dist, vs, ref)
  {
  }

  lemma Associates<T>(a: seq<T>, b: seq<T>, c: seq<T>, d: seq<T>)
    ensures a + b + c + d == a + (b + c + d) && [] + c + d == c + d
  {
  }

  /** es are the edges of a path from node to dep that always continues with the nearest reference. */
  ghost predicate PrintedPath(w: View, dep: Path, node: Path, es: seq<Edge>) {
    exists path :: Printable(w, dep, node, path) && es == PathEdges(path)
  }

  lemma PathOfOne(w: View, dep: Path)
    requires dep in w.dist
    ensures PrintedPath(w, dep, dep, [])
  {
    var path := [dep];
    assert Printable(w, dep, dep, path) && PathEdges(path) == [];
  }

  lemma FirstIsNearest(w: View, dep: Path, node: Path, refs: seq<Path>)
    requires ByDistance(w, node, refs) && refs != [] && Descends(w, dep) && node in w.dist && node != dep
    ensures NearestRef(w, node, refs[0]) && w.dist[refs[0]] < w.dist[node]
  {
    assert refs[0] in Elements(refs);
    forall q | q in Shown(w, node) && q != refs[0] ensures ComesFirst(w.dist, refs[0], q) {
      assert q in Elements(refs);
    }
  }

  lemma NearestFirstPath(w: View, dep: Path, node: Path, r: Path, es: seq<Edge>)
    requires node in w.dist && node != dep && NearestRef(w, node, r) && PrintedPath(w, dep, r, es)
    ensures PrintedPath(w, dep, node, [(node, r)] + es)
  {
    var path :| Printable(w, dep, r, path) && es == PathEdges(path);
    GreedyExtends(w, dep, node, path);
    assert Printable(w, dep, node, [node] + path);
  }

  lemma NoRefsMeansDependency(w: View, dep: Path, node: Path, refs: seq<Path>)
    requires ByDistance(w, node, refs) && Descends(w, dep) && node in w.dist && node != dep
    ensures refs != []
  {
    var r :| r in Shown(w, node) && w.dist[r] < w.dist[node];
    assert r in Elements(refs);
  }

  class Command {
    const g: Graph
    const package: Path
    const dep: Path
    const all: bool
    const precise: bool
    const rrefs: map<Path, set<Path>>

    var dist: map<Path, nat>
    var prev: map<Path, Path>
    var queued: set<Path>
    var queue: set<Path>
    var visited: set<Path>
    var out: seq<Edge>

    /** The closure was computed from the package and contains the dependency. */
    ghost predicate Valid() {
      Closed(g, dep) && package in g.refs
      && rrefs.Keys == g.refs.Keys && forall n :: n in rrefs ==> rrefs[n] == Referrers(g, n)
    }

    ghost function State(): Search
      reads `dist, `prev, `queued, `queue
    {
      Search(dist, prev, queued, queue)
    }

    ghost function Picture(): View
      reads `dist
    {
      View(g, dist, package == dep)
    }

    constructor (g: Graph, package: Path, dep: Path, all: bool, precise: bool, rrefs: map<Path, set<Path>>)
      requires Closed(g, dep) && package in g.refs
      requires rrefs.Keys == g.refs.Keys && forall n :: n in rrefs ==> rrefs[n] == Referrers(g, n)
      ensures Valid() && State() == Start(dep) && visited == {} && out == []
      ensures this.g == g && this.package == package && this.dep == dep && this.all == all && this.precise == precise
    {
      this.g, this.package, this.dep, this.all, this.precise, this.rrefs := g, package, dep, all, precise, rrefs;
      dist, prev, queued, queue := map[dep := 0], map[], {}, {dep};
      visited, out := {}, [];
    }

    /** Looks at one referrer of the node that was popped. */
    method Relax(n: Path, p: Path)
      requires n in dist
      modifies `dist, `prev, `queued, `queue
      ensures State() == if p !in old(dist) || old(dist[n]) + 1 < old(dist[p])
                         then ImproveOne(old(State()), n, p) else old(State())
    {
      var d := dist[n] + 1;
      if p !in dist || d < dist[p] {
        dist := dist[p := d];
        prev := prev[p := n];
        if p !in queued {
          queued := queued + {p};
          queue := queue + {p};
        }
      }
    }

    /** Pops one node and lowers the distances of its referrers. */
    method PopNode(n: Path)
      requires Valid() && n in queue && n in dist && n in g.refs
      modifies `dist, `prev, `queued, `queue
      ensures State() == Pop(g, old(State()), n)
    {
      ghost var s0 := State();
      queue := queue - {n};
      ghost var s := State();
      var todo := rrefs[n];
      ghost var better: set<Path> := {};
      ImproveNone(s, n);
      while todo != {}
        invariant todo <= rrefs[n]
        invariant better == Improved(g, s, n) - todo
        invariant State() == Improve(s, n, better)
        decreases todo
      {
        var p :| p in todo;
        ImproveMore(s, n, better, p);
        Relax(n, p);
        if p in Improved(g, s, n) { better := better + {p}; }
        todo := todo - {p};
      }
      assert better == Improved(g, s, n) == Improved(g, s0, n);
    }

    /** Pops until the queue is empty, in an order that is not fixed. */
    method ComputeDistances() returns (ghost pops: seq<Path>)
      requires Valid() && State() == Start(dep)
      modifies `dist, `prev, `queued, `queue
      ensures PopOrder(g, dep, pops) && State() == After(g, dep, pops) && queue == {}
    {
      pops := [];
      while queue != {}
        invariant PopOrder(g, dep, pops) && State() == After(g, dep, pops)
        decreases |g.refs| - |pops|
      {
        var n :| n in queue;
        PopsKeepValid(g, dep, pops);
        PopNode(n);
        assert (pops + [n])[..|pops|] == pops;
        pops := pops + [n];
        PopsAreDistinct(g, dep, pops);
      }
    }

    /** The references to print below a node, nearest first. */
    method SortedRefs(node: Path) returns (refs: seq<Path>)
      requires Valid() && node in g.refs
      ensures ByDistance(Picture(), node, refs)
    {
      refs := SortByDistance(dist, set r | r in g.refs[node] && r in dist && (r != node || package == dep));
    }

    /** Only one path is wanted, and printing stops at the dependency. */
    predicate StopsAtDependency() {
      !all && package != dep
    }

    /** Prints the edges es below a node. Returns whether the printer has bailed out. */
    method PrintNode(node: Path) returns (bailed: bool, ghost es: seq<Edge>)
      requires Valid() && ViewValid(Picture()) && node in dist
      requires StopsAtDependency() ==> Descends(Picture(), dep) && Farther(dist, visited, node)
      modifies `visited, `out
      ensures out == old(out) + es
      ensures !StopsAtDependency() ==> !bailed && Explored(Picture(), node, old(visited), visited, es)
      ensures StopsAtDependency() ==> bailed && PrintedPath(Picture(), dep, node, es)
      decreases g.refs.Keys - visited, 2
    {
      es := [];
      if node == dep && !all && package != dep {
        PathOfOne(Picture(), dep);
        return true, es;
      }
      if node in visited {
        assert visited - visited == {};
        return false, es;
      }
      ghost var v0 := visited;
      if precise { visited := visited + {node}; }
      var refs := SortedRefs(node);
      bailed, es := PrintRefs(node, refs, v0);
    }

    /** Prints one reference of a node, marks the node and prints what is below the reference. */
    method PrintRef(node: Path, ref: Path, ghost v0: set<Path>) returns (bailed: bool, ghost below: seq<Edge>)
      requires Valid() && ViewValid(Picture()) && node in dist && ref in dist && node !in v0 && v0 <= visited
      requires precise ==> node in visited
      requires StopsAtDependency() ==> Descends(Picture(), dep) && dist[ref] < dist[node]
      requires StopsAtDependency() ==> visited <= v0 + {node} && Farther(dist, v0, node)
      modifies `visited, `out
      ensures out == old(out) + [(node, ref)] + below
      ensures !StopsAtDependency() ==> !bailed && Explored(Picture(), ref, old(visited) + {node}, visited, below)
      ensures StopsAtDependency() ==> bailed && PrintedPath(Picture(), dep, ref, below)
      decreases g.refs.Keys - v0, 0
    {
      out := out + [(node, ref)];
      if !precise { visited := visited + {node}; }
      assert visited == old(visited) + {node};
      if StopsAtDependency() { FartherStep(dist, v0, visited, node, ref); }
      bailed, below := PrintNode(ref);
    }

    /** Prints the references of a node one after the other. */
    method PrintRefs(node: Path, refs: seq<Path>, ghost v0: set<Path>) returns (bailed: bool, ghost es: seq<Edge>)
      requires Valid() && ViewValid(Picture()) && node in dist && ByDistance(Picture(), node, refs)
      requires node !in v0 && visited == if precise then v0 + {node} else v0
      requires StopsAtDependency() ==> Descends(Picture(), dep) && node != dep && Farther(dist, v0, node)
      modifies `visited, `out
      ensures out == old(out) + es
      ensures !StopsAtDependency() ==> !bailed && Explored(Picture(), node, v0, visited, es)
      ensures StopsAtDependency() ==> bailed && PrintedPath(Picture(), dep, node, es)
      decreases g.refs.Keys - v0, 1
    {
      ghost var w, o0 := Picture(), out;
      es := [];
      ExploringStarts(w, node, refs, v0, visited);
      if StopsAtDependency() { NoRefsMeansDependency(w, dep, node, refs); }
      for i := 0 to |refs|
        invariant out == o0 + es && v0 <= visited && (precise ==> node in visited)
        invariant !StopsAtDependency() ==> Exploring(w, node, refs, i, v0, visited, es)
        invariant StopsAtDependency() ==> i == 0 && es == [] && visited <= v0 + {node}
      {
        assert refs[i] in Elements(refs);
        if StopsAtDependency() { FirstIsNearest(w, dep, node, refs); }
        ghost var below;
        ghost var v1 := visited;
        bailed, below := PrintRef(node, refs[i], v0);
        Associates(o0, es, [(node, refs[i])], below);
        if bailed {
          NearestFirstPath(w, dep, node, refs[i], below);
          es := es + [(node, refs[i])] + below;
          return;
        }
        ExploringMarked(w, node, refs, i, v0, v1, es);
        ExploringStep(w, node, refs, i, v0, v1 + {node}, es, visited, below);
        es := es + [(node, refs[i])] + below;
      }
      ExploringEnds(w, node, refs, v0, visited, es);
      bailed := false;
    }

    /** The whole command, for a closure in which the package does reach the dependency. */
    method Run() returns (ghost pops: seq<Path>)
      requires Valid() && State() == Start(dep) && visited == {} && out == [] && Reaches(g, dep, package)
      modifies `dist, `prev, `queued, `queue, `visited, `out
      ensures PopOrder(g, dep, pops) && State() == After(g, dep, pops) && queue == {}
      ensures !StopsAtDependency() ==> PrintsAllWalks(g, package, dep, out)
      ensures StopsAtDependency() ==> PrintedPath(Picture(), dep, package, out)
    {
      pops := ComputeDistances();
      SearchReady(g, dep, pops, State(), package == dep);
      Print();
    }

    /** Prints from the package, given the distances. */
    method Print()
      requires Valid() && PrintReady(Picture(), dep) && Reaches(g, dep, package) && visited == {} && out == []
      modifies `visited, `out
      ensures !StopsAtDependency() ==> PrintsAllWalks(g, package, dep, out)
      ensures StopsAtDependency() ==> PrintedPath(Picture(), dep, package, out)
    {
      var bailed;
      ghost var es;
      bailed, es := PrintNode(package);
      assert out == es;
      if !StopsAtDependency() { ExploredPrintsAll(Picture(), package, dep, visited, out); }
    }
  }

  /** The edges printed, each once, are exactly those on the walks from the package to dep; references of a node
      to itself are left out unless the package is the dependency. */
  ghost predicate PrintsAllWalks(g: Graph, package: Path, dep: Path, out: seq<Edge>) {
    NoRepeats(out)
    && forall u, v :: (u, v) in out <==> OnSomeWalk(g, package, dep, u, v) && (u != v || package == dep)
  }

  lemma ExploredPrintsAll(w: View, package: Path, dep: Path, v1: set<Path>, es: seq<Edge>)
    requires DistancesOf(w, dep) && Explored(w, package, {}, v1, es) && w.self == (package == dep)
    ensures PrintsAllWalks(w.g, package, dep, es)
  {
    forall u, v ensures (u, v) in es <==> OnSomeWalk(w.g, package, dep, u, v) && (u != v || package == dep) {
      PrintsEdgesOnWalks(w, package, dep, v1, es, u, v);
    }
  }

  lemma SearchDescends(g: Graph, dep: Path, s: Search, self: bool)
    requires SearchValid(g, dep, s)
    ensures Descends(View(g, s.dist, self), dep)
  {
    var w := View(g, s.dist, self);
    forall p | p in w.dist && p != dep ensures exists r :: r in Shown(w, p) && w.dist[r] < w.dist[p] {
      assert s.prev[p] in Shown(w, p);
    }
  }

  ghost predicate PrintReady(w: View, dep: Path) {
    DistancesOf(w, dep) && Descends(w, dep) && ViewValid(w)
  }

  /** What the printer relies on, whatever the order of pops was. */
  lemma SearchReady(g: Graph, dep: Path, pops: seq<Path>, s: Search, self: bool)
    requires Closed(g, dep) && PopOrder(g, dep, pops) && s == After(g, dep, pops) && s.queue == {}
    ensures PrintReady(View(g, s.dist, self), dep)
  {
    AnyOrder(g, dep, pops);
    PopsKeepValid(g, dep, pops);
    SearchDescends(g, dep, s, self);
  }
}
