/** The distance of every store path of a closure to one of them (`bsd why-depends`).
    The queue is not ordered by distance, so the order in which nodes are popped is left open here. */
module Distances {
  import opened Basics

  /** A store path, by its position in the order of all store paths. */
  datatype Path = Path(rank: nat)

  /** The closure: every path with its references, which may include itself. */
  datatype Graph = Graph(refs: map<Path, set<Path>>)

  predicate Closed(g: Graph, dep: Path) {
    dep in g.refs && forall p, q :: p in g.refs && q in g.refs[p] ==> q in g.refs
  }

  function Referrers(g: Graph, n: Path): set<Path> {
    set p | p in g.refs && n in g.refs[p]
  }

  /** There is a walk of exactly k references from p to dep. */
  ghost predicate Walk(g: Graph, dep: Path, p: Path, k: nat)
    decreases k
  {
    if k == 0 then p == dep
    else p in g.refs && exists q :: q in g.refs[p] && Walk(g, dep, q, k - 1)
  }

  ghost predicate Reaches(g: Graph, dep: Path, p: Path) {
    exists k: nat :: Walk(g, dep, p, k)
  }

  ghost predicate Shortest(g: Graph, dep: Path, p: Path, k: nat) {
    Walk(g, dep, p, k) && forall j: nat :: j < k ==> !Walk(g, dep, p, j)
  }

  // ----- The search -----

  /** A path without a distance is infinitely far away. */
  datatype Search = Search(dist: map<Path, nat>, prev: map<Path, Path>, queued: set<Path>, queue: set<Path>)

  function Start(dep: Path): Search {
    Search(map[dep := 0], map[], {}, {dep})
  }

  /** The referrers of n whose distance goes down when n is popped. */
  function Improved(g: Graph, s: Search, n: Path): set<Path>
    requires n in s.dist
  {
    set p | p in Referrers(g, n) && (p !in s.dist || s.dist[n] + 1 < s.dist[p])
  }

  /** Handling a set of improved referrers; a node is only ever pushed the first time it is improved. */
  function Improve(s: Search, n: Path, ps: set<Path>): Search
    requires n in s.dist
  {
    Search(
      map p | p in s.dist.Keys + ps :: if p in ps then s.dist[n] + 1 else s.dist[p],
      map p | p in s.prev.Keys + ps :: if p in ps then n else s.prev[p],
      s.queued + ps,
      s.queue + (ps - s.queued))
  }

  function Pop(g: Graph, s: Search, n: Path): Search
    requires n in s.dist
  {
    Improve(s.(queue := s.queue - {n}), n, Improved(g, s, n))
  }

  ghost function After(g: Graph, dep: Path, pops: seq<Path>): Search {
    if pops == [] then Start(dep)
    else
      var s, n := After(g, dep, pops[..|pops| - 1]), pops[|pops| - 1];
      if n in s.dist then Pop(g, s, n) else s
  }

  /** A possible order of pops: each node is in the queue when it is popped. */
  ghost predicate PopOrder(g: Graph, dep: Path, pops: seq<Path>) {
    pops == [] || (PopOrder(g, dep, pops[..|pops| - 1]) && pops[|pops| - 1] in After(g, dep, pops[..|pops| - 1]).queue)
  }

  function Elements(ps: seq<Path>): set<Path> {
    set p | p in ps
  }

  // ----- What holds for every order of pops -----

  ghost predicate PrevValid(g: Graph, dep: Path, s: Search) {
    forall p :: p in s.dist && p != dep ==>
      p in s.prev && p in g.refs && s.prev[p] in g.refs[p] && s.prev[p] in s.dist && s.prev[p] !in s.queue
      && s.dist[s.prev[p]] < s.dist[p]
  }

  predicate SetsValid(g: Graph, dep: Path, s: Search) {
    && dep in s.dist && s.dist[dep] == 0 && dep !in s.queued
    && s.dist.Keys == s.queued + {dep}
    && s.dist.Keys <= g.refs.Keys
    && s.queue <= s.dist.Keys
  }

  ghost predicate WalksValid(g: Graph, dep: Path, s: Search) {
    forall p :: p in s.dist ==> Walk(g, dep, p, s.dist[p])
  }

  ghost predicate PoppedPassOn(g: Graph, s: Search) {
    forall n :: n in s.dist && n !in s.queue ==> Referrers(g, n) <= s.dist.Keys
  }

  ghost predicate SearchValid(g: Graph, dep: Path, s: Search) {
    SetsValid(g, dep, s) && PrevValid(g, dep, s) && WalksValid(g, dep, s) && PoppedPassOn(g, s)
  }

  /** What popping n changes: s' is the state after it, ps are the referrers that it improves. */
  ghost predicate PopFacts(g: Graph, dep: Path, s: Search, n: Path, s': Search, ps: set<Path>) {
    && SetsValid(g, dep, s) && n in s.queue && SetsValid(g, dep, s')
    && n !in ps && dep !in ps && ps <= Referrers(g, n)
    && Referrers(g, n) <= s'.dist.Keys
    && s'.dist.Keys == s.dist.Keys + ps
    && s'.dist.Keys - s'.queue == (s.dist.Keys - s.queue) + {n}
    && (forall p :: p in ps ==> s'.dist[p] == s.dist[n] + 1 && p in s'.prev && s'.prev[p] == n)
    && (forall p :: p in s.dist && p !in ps ==> s'.dist[p] == s.dist[p])
    && (forall p :: p in s.dist ==> s'.dist[p] <= s.dist[p])
    && (forall p :: p in Referrers(g, n) ==> s'.dist[p] <= s.dist[n] + 1)
    && (forall p :: p in ps && p in s.dist ==> s.dist[n] + 1 < s.dist[p])
    && (forall p :: p in s.prev && p !in ps ==> p in s'.prev && s'.prev[p] == s.prev[p])
  }

  lemma PopEffect(g: Graph, dep: Path, s: Search, n: Path) returns (s': Search, ps: set<Path>)
    requires SetsValid(g, dep, s) && n in s.queue
    ensures s' == Pop(g, s, n) && PopFacts(g, dep, s, n, s', ps)
  {
    s', ps := Pop(g, s, n), Improved(g, s, n);
  }

  lemma PopKeepsPrev(g: Graph, dep: Path, s: Search, n: Path, s': Search, ps: set<Path>)
    requires PopFacts(g, dep, s, n, s', ps) && PrevValid(g, dep, s)
    ensures PrevValid(g, dep, s')
  {
    forall p | p in s'.dist && p != dep
      ensures p in s'.prev && p in g.refs && s'.prev[p] in g.refs[p]
      ensures s'.prev[p] in s'.dist.Keys - s'.queue && s'.dist[s'.prev[p]] < s'.dist[p]
    {
      if p in ps { assert n in s'.dist.Keys - s'.queue; } else { assert s.prev[p] in s.dist.Keys - s.queue; }
    }
  }

  lemma PopKeepsWalks(g: Graph, dep: Path, s: Search, n: Path, s': Search, ps: set<Path>)
    requires PopFacts(g, dep, s, n, s', ps) && WalksValid(g, dep, s)
    ensures WalksValid(g, dep, s')
  {
    forall p | p in s'.dist ensures Walk(g, dep, p, s'.dist[p]) {
      if p in ps { assert n in g.refs[p] && Walk(g, dep, n, s.dist[n]); }
    }
  }

  lemma PopPassesOn(g: Graph, dep: Path, s: Search, n: Path, s': Search, ps: set<Path>)
    requires PopFacts(g, dep, s, n, s', ps) && PoppedPassOn(g, s)
    ensures PoppedPassOn(g, s')
  {
    forall m | m in s'.dist && m !in s'.queue ensures Referrers(g, m) <= s'.dist.Keys {
      assert m in s'.dist.Keys - s'.queue;
    }
  }

  lemma PopKeepsValid(g: Graph, dep: Path, s: Search, n: Path) returns (s': Search, ps: set<Path>)
    requires SearchValid(g, dep, s) && n in s.queue
    ensures s' == Pop(g, s, n) && PopFacts(g, dep, s, n, s', ps) && SearchValid(g, dep, s')
  {
    s', ps := PopEffect(g, dep, s, n);
    PopKeepsPrev(g, dep, s, n, s', ps);
    PopKeepsWalks(g, dep, s, n, s', ps);
    PopPassesOn(g, dep, s, n, s', ps);
  }

  lemma {:induction false} PopsKeepValid(g: Graph, dep: Path, pops: seq<Path>)
    requires Closed(g, dep) && PopOrder(g, dep, pops)
    ensures SearchValid(g, dep, After(g, dep, pops))
  {
    if pops != [] {
      PopsKeepValid(g, dep, pops[..|pops| - 1]);
      var _, _ := PopKeepsValid(g, dep, After(g, dep, pops[..|pops| - 1]), pops[|pops| - 1]);
    }
  }

  lemma LastPop(g: Graph, dep: Path, pops: seq<Path>) returns (s: Search, s': Search, ps: set<Path>)
    requires Closed(g, dep) && PopOrder(g, dep, pops) && pops != []
    ensures s == After(g, dep, pops[..|pops| - 1]) && s' == After(g, dep, pops)
    ensures PopFacts(g, dep, s, pops[|pops| - 1], s', ps) && SearchValid(g, dep, s) && SearchValid(g, dep, s')
  {
    s := After(g, dep, pops[..|pops| - 1]);
    PopsKeepValid(g, dep, pops[..|pops| - 1]);
    s', ps := PopKeepsValid(g, dep, s, pops[|pops| - 1]);
  }

  predicate Distinct(ps: seq<Path>) {
    forall i, j :: 0 <= i < j < |ps| ==> ps[i] != ps[j]
  }

  lemma ElementsGrow(ps: seq<Path>, n: Path)
    requires Distinct(ps) && |ps| == |Elements(ps)| && n !in Elements(ps)
    ensures Elements(ps + [n]) == Elements(ps) + {n} && Distinct(ps + [n]) && |ps + [n]| == |Elements(ps + [n])|
  {
    assert forall x :: x in ps + [n] <==> x in ps || x == n;
    assert Elements(ps + [n]) == Elements(ps) + {n};
    forall i | 0 <= i < |ps| ensures ps[i] != n { assert ps[i] in Elements(ps); }
  }

  function Popped(s: Search): set<Path> {
    s.dist.Keys - s.queue
  }

  lemma LastPopped(g: Graph, dep: Path, pops: seq<Path>) returns (before: set<Path>, after: set<Path>)
    requires Closed(g, dep) && PopOrder(g, dep, pops) && pops != []
    ensures before == Popped(After(g, dep, pops[..|pops| - 1])) && after == Popped(After(g, dep, pops))
    ensures pops[|pops| - 1] !in before && after == before + {pops[|pops| - 1]}
  {
    var s, s', ps := LastPop(g, dep, pops);
    before, after := Popped(s), Popped(s');
  }

  lemma {:induction false} PoppedSet(g: Graph, dep: Path, pops: seq<Path>)
    requires Closed(g, dep) && PopOrder(g, dep, pops)
    ensures Distinct(pops) && |pops| == |Elements(pops)|
    ensures Elements(pops) == Popped(After(g, dep, pops))
  {
    if pops != [] {
      var front, n := pops[..|pops| - 1], pops[|pops| - 1];
      assert pops == front + [n];
      PoppedSet(g, dep, front);
      var before, after := LastPopped(g, dep, pops);
      ElementsGrow(front, n);
    }
  }

  /** No node is popped twice, so every order of pops ends after at most as many pops as there are nodes. */
  lemma PopsAreDistinct(g: Graph, dep: Path, pops: seq<Path>)
    requires Closed(g, dep) && PopOrder(g, dep, pops)
    ensures Distinct(pops) && |pops| <= |g.refs|
  {
    PoppedSet(g, dep, pops);
    PopsKeepValid(g, dep, pops);
    SubsetSize(Elements(pops), g.refs.Keys);
  }

  lemma {:induction false} WalkIsReached(g: Graph, dep: Path, s: Search, p: Path, k: nat)
    requires SearchValid(g, dep, s) && s.queue == {} && Walk(g, dep, p, k)
    ensures p in s.dist
    decreases k
  {
    if k > 0 {
      var q :| q in g.refs[p] && Walk(g, dep, q, k - 1);
      WalkIsReached(g, dep, s, q, k - 1);
      assert p in Referrers(g, q);
    }
  }

  /** Once the queue is empty, whatever the order of pops was: exactly the paths that depend on dep have a
      distance; it is the length of some walk, never less than the shortest; and `prev` leads to dep along
      references of strictly decreasing distance. */
  lemma AnyOrder(g: Graph, dep: Path, pops: seq<Path>)
    requires Closed(g, dep) && PopOrder(g, dep, pops) && After(g, dep, pops).queue == {}
    ensures var s := After(g, dep, pops);
            && (forall p :: p in s.dist <==> Reaches(g, dep, p))
            && (forall p :: p in s.dist ==> Walk(g, dep, p, s.dist[p]))
            && (forall p, k: nat :: p in s.dist && Shortest(g, dep, p, k) ==> k <= s.dist[p])
            && PrevValid(g, dep, s)
  {
    var s := After(g, dep, pops);
    PopsKeepValid(g, dep, pops);
    forall p, k: nat | Walk(g, dep, p, k) ensures p in s.dist { WalkIsReached(g, dep, s, p, k); }
  }

  // ----- Pops in order of distance -----

  ghost predicate NearestFirst(g: Graph, dep: Path, pops: seq<Path>) {
    pops == []
    || (var s, n := After(g, dep, pops[..|pops| - 1]), pops[|pops| - 1];
        NearestFirst(g, dep, pops[..|pops| - 1])
        && (n in s.dist ==> forall q :: q in s.queue && q in s.dist ==> s.dist[n] <= s.dist[q]))
  }

  /** Every popped node has passed its final distance on. */
  ghost predicate Settled(g: Graph, s: Search) {
    forall n, p :: n in s.dist && n !in s.queue && p in Referrers(g, n) ==> p in s.dist && s.dist[p] <= s.dist[n] + 1
  }

  ghost predicate PoppedNearer(s: Search) {
    forall n, q :: n in s.dist && n !in s.queue && q in s.queue && q in s.dist ==> s.dist[n] <= s.dist[q]
  }

  lemma {:induction false} NearestFirstSettles(g: Graph, dep: Path, pops: seq<Path>)
    requires Closed(g, dep) && PopOrder(g, dep, pops) && NearestFirst(g, dep, pops)
    ensures Settled(g, After(g, dep, pops)) && PoppedNearer(After(g, dep, pops))
  {
    if pops != [] {
      NearestFirstSettles(g, dep, pops[..|pops| - 1]);
      var s, s', ps := LastPop(g, dep, pops);
      NearestPopSettles(g, dep, s, pops[|pops| - 1], s', ps);
    }
  }

  lemma NearestPopSettles(g: Graph, dep: Path, s: Search, n: Path, s': Search, ps: set<Path>)
    requires PopFacts(g, dep, s, n, s', ps) && Settled(g, s) && PoppedNearer(s)
    requires forall q :: q in s.queue ==> s.dist[n] <= s.dist[q]
    ensures Settled(g, s') && PoppedNearer(s')
  {
    forall m | m in s'.dist.Keys - s'.queue ensures m in s.dist && s'.dist[m] == s.dist[m] <= s.dist[n] {
      assert m == n || m in s.dist.Keys - s.queue;
    }
  }

  lemma {:induction false} SettledIsShortest(g: Graph, dep: Path, s: Search, p: Path, k: nat)
    requires SearchValid(g, dep, s) && s.queue == {} && Settled(g, s) && Walk(g, dep, p, k)
    ensures p in s.dist && s.dist[p] <= k
    decreases k
  {
    if k > 0 {
      var q :| q in g.refs[p] && Walk(g, dep, q, k - 1);
      SettledIsShortest(g, dep, s, q, k - 1);
      assert p in Referrers(g, q);
    }
  }

  lemma SettledMeansShortest(g: Graph, dep: Path, s: Search)
    requires SearchValid(g, dep, s) && s.queue == {} && Settled(g, s)
    ensures forall p :: p in s.dist ==> Shortest(g, dep, p, s.dist[p])
  {
    forall p, j: nat | p in s.dist && Walk(g, dep, p, j) ensures s.dist[p] <= j {
      SettledIsShortest(g, dep, s, p, j);
    }
  }

  /** If the nearest node is always popped first, every distance is the length of a shortest walk. */
  lemma NearestFirstIsShortest(g: Graph, dep: Path, pops: seq<Path>)
    requires Closed(g, dep) && PopOrder(g, dep, pops) && NearestFirst(g, dep, pops)
    requires After(g, dep, pops).queue == {}
    ensures var s := After(g, dep, pops); forall p :: p in s.dist ==> Shortest(g, dep, p, s.dist[p])
  {
    PopsKeepValid(g, dep, pops);
    NearestFirstSettles(g, dep, pops);
    SettledMeansShortest(g, dep, After(g, dep, pops));
  }
}
