/** The references on shortest walks, walks around them, and what they have to do with the order of pops. */
module PopOrders {
  import opened Distances

  /** q is a reference of u that lies on a shortest walk from u to dep. */
  ghost predicate Tight(g: Graph, dep: Path, u: Path, q: Path) {
    u in g.refs && q in g.refs[u] && exists k: nat :: Shortest(g, dep, q, k) && Shortest(g, dep, u, k + 1)
  }

  ghost function TightRefs(g: Graph, dep: Path, u: Path): set<Path> {
    set q | q in g.refs && Tight(g, dep, u, q)
  }

  /** A walk of k references from p to dep; every node after p is in `via`. */
  ghost predicate WalkVia(g: Graph, dep: Path, via: set<Path>, p: Path, k: nat)
    decreases k
  {
    if k == 0 then p == dep
    else p in g.refs && exists q :: q in g.refs[p] && q in via && WalkVia(g, dep, via, q, k - 1)
  }

  /** There is a walk from u to dep that meets none of the references on u's shortest walks. */
  ghost predicate Detour(g: Graph, dep: Path, u: Path) {
    u != dep && exists k: nat :: WalkVia(g, dep, g.refs.Keys - TightRefs(g, dep, u), u, k)
  }

  ghost predicate NoDetours(g: Graph, dep: Path) {
    forall u :: u in g.refs ==> !Detour(g, dep, u)
  }

  /** n has the distance of a shortest walk. */
  ghost predicate Exact(g: Graph, dep: Path, s: Search, n: Path) {
    n in s.dist && Shortest(g, dep, n, s.dist[n])
  }

  /** Every node is popped when its distance is already that of a shortest walk. */
  ghost predicate PopsExact(g: Graph, dep: Path, pops: seq<Path>) {
    pops == [] || (PopsExact(g, dep, pops[..|pops| - 1])
                   && Exact(g, dep, After(g, dep, pops[..|pops| - 1]), pops[|pops| - 1]))
  }

  lemma {:induction false} ViaLarger(g: Graph, dep: Path, a: set<Path>, b: set<Path>, p: Path, k: nat)
    requires a <= b && WalkVia(g, dep, a, p, k)
    ensures WalkVia(g, dep, b, p, k)
    decreases k
  {
    if k > 0 {
      var q :| q in g.refs[p] && q in a && WalkVia(g, dep, a, q, k - 1);
      ViaLarger(g, dep, a, b, q, k - 1);
    }
  }

  lemma ViaStep(g: Graph, dep: Path, via: set<Path>, p: Path, q: Path, k: nat)
    requires p in g.refs && q in g.refs[p] && q in via && WalkVia(g, dep, via, q, k)
    ensures WalkVia(g, dep, via, p, k + 1)
  {
  }

  // ----- Without detours every order is exact -----

  ghost predicate PoppedExact(g: Graph, dep: Path, s: Search) {
    forall n :: n in s.dist && n !in s.queue ==> Shortest(g, dep, n, s.dist[n])
  }

  lemma PrevStep(g: Graph, dep: Path, s: Search, p: Path, q: Path)
    requires PrevValid(g, dep, s) && p in s.dist && p != dep && p in s.prev && q == s.prev[p]
    ensures p in g.refs && q in g.refs[p] && q in s.dist && q in Popped(s) && s.dist[q] < s.dist[p]
  {
  }

  /** Whatever has a distance reaches dep through popped nodes. */
  lemma {:induction false} PrevWalk(g: Graph, dep: Path, s: Search, via: set<Path>, p: Path) returns (k: nat)
    requires PrevValid(g, dep, s) && p in s.dist && via == Popped(s)
    ensures WalkVia(g, dep, via, p, k)
    decreases s.dist[p]
  {
    if p == dep {
      k := 0;
    } else {
      var q := s.prev[p];
      PrevStep(g, dep, s, p, q);
      var j := PrevWalk(g, dep, s, via, q);
      ViaStep(g, dep, via, p, q, j);
      k := j + 1;
    }
  }

  lemma TightPopped(g: Graph, dep: Path, s: Search, n: Path) returns (t: Path)
    requires SearchValid(g, dep, s) && n in s.dist && n != dep && !Detour(g, dep, n)
    ensures t in Popped(s) && Tight(g, dep, n, t)
  {
    var k := PrevWalk(g, dep, s, Popped(s), n);
    if Popped(s) !! TightRefs(g, dep, n) {
      ViaLarger(g, dep, Popped(s), g.refs.Keys - TightRefs(g, dep, n), n, k);
      assert false;
    }
    t :| t in Popped(s) && t in TightRefs(g, dep, n);
  }

  lemma ShortestUnique(g: Graph, dep: Path, p: Path, j: nat, k: nat)
    requires Shortest(g, dep, p, j) && Shortest(g, dep, p, k)
    ensures j == k
  {
  }

  lemma NextIsExact(g: Graph, dep: Path, s: Search, n: Path)
    requires SearchValid(g, dep, s) && Settled(g, s) && PoppedExact(g, dep, s)
    requires n in s.queue && !Detour(g, dep, n)
    ensures Shortest(g, dep, n, s.dist[n])
  {
    if n != dep {
      var t := TightPopped(g, dep, s, n);
      var k: nat :| Shortest(g, dep, t, k) && Shortest(g, dep, n, k + 1);
      ShortestUnique(g, dep, t, k, s.dist[t]);
      assert n in Referrers(g, t);
      assert Walk(g, dep, n, s.dist[n]);
    }
  }

  lemma ExactStep(g: Graph, dep: Path, s: Search, n: Path, s': Search, ps: set<Path>)
    requires PopFacts(g, dep, s, n, s', ps) && WalksValid(g, dep, s')
    requires Settled(g, s) && PoppedExact(g, dep, s) && Shortest(g, dep, n, s.dist[n])
    ensures Settled(g, s') && PoppedExact(g, dep, s')
  {
    forall m | m in s'.dist.Keys - s'.queue
      ensures m in s.dist && s'.dist[m] == s.dist[m] && Shortest(g, dep, m, s'.dist[m])
    {
      assert m == n || m in s.dist.Keys - s.queue;
      assert Walk(g, dep, m, s'.dist[m]);
    }
  }

  lemma {:induction false} NoDetoursExact(g: Graph, dep: Path, pops: seq<Path>)
    requires Closed(g, dep) && PopOrder(g, dep, pops) && NoDetours(g, dep)
    ensures PopsExact(g, dep, pops)
    ensures Settled(g, After(g, dep, pops)) && PoppedExact(g, dep, After(g, dep, pops))
  {
    if pops != [] {
      var front, n := pops[..|pops| - 1], pops[|pops| - 1];
      NoDetoursExact(g, dep, front);
      var s, s', ps := LastPop(g, dep, pops);
      NextIsExact(g, dep, s, n);
      ExactStep(g, dep, s, n, s', ps);
    }
  }

  // ----- Popping only some of the nodes -----

  lemma {:induction false} AvoidSelf(g: Graph, dep: Path, via: set<Path>, u: Path, p: Path, k: nat)
    returns (q: Path, j: nat)
    requires WalkVia(g, dep, via, p, k) && u != dep
    ensures (q == p || q == u) && WalkVia(g, dep, via - {u}, q, j)
    decreases k
  {
    if k == 0 {
      q, j := p, 0;
    } else {
      var x :| x in g.refs[p] && x in via && WalkVia(g, dep, via, x, k - 1);
      q, j := AvoidSelf(g, dep, via, u, x, k - 1);
      if q == x && x != u {
        q, j := p, j + 1;
      }
    }
  }

  lemma {:induction false} WalkViaReached(g: Graph, dep: Path, s: Search, via: set<Path>, p: Path, k: nat)
    requires SearchValid(g, dep, s) && s.queue !! via && WalkVia(g, dep, via, p, k)
    ensures p in s.dist
    decreases k
  {
    if k > 0 {
      var q :| q in g.refs[p] && q in via && WalkVia(g, dep, via, q, k - 1);
      WalkViaReached(g, dep, s, via, q, k - 1);
      assert p in Referrers(g, q);
    }
  }

  lemma ExactMeansTightPrev(g: Graph, dep: Path, s: Search, u: Path)
    requires SearchValid(g, dep, s) && u in s.dist && u != dep && Shortest(g, dep, u, s.dist[u])
    ensures Tight(g, dep, u, s.prev[u])
  {
    var m := s.prev[u];
    var k := s.dist[m];
    assert Walk(g, dep, m, k);
    forall j: nat | Walk(g, dep, m, j) ensures s.dist[u] <= j + 1 { assert Walk(g, dep, u, j + 1); }
    assert Shortest(g, dep, m, k) && Shortest(g, dep, u, k + 1);
  }

  lemma ExactNeedsTight(g: Graph, dep: Path, s: Search, u: Path)
    requires SearchValid(g, dep, s) && u != dep && Exact(g, dep, s, u)
    ensures !(Popped(s) !! TightRefs(g, dep, u))
  {
    ExactMeansTightPrev(g, dep, s, u);
    var t := s.prev[u];
    assert t in Popped(s) && t in TightRefs(g, dep, u);
  }
}
