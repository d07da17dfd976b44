/** The order of pops that the program follows: the node with the greatest address is popped, and addresses are
    arbitrary. */
module AddressOrders {
  import opened Distances
  import opened PopOrders

  ghost predicate Injective(g: Graph, address: Path -> nat) {
    forall p, q :: p in g.refs && q in g.refs && address(p) == address(q) ==> p == q
  }

  predicate Greatest(address: Path -> nat, queue: set<Path>, n: Path) {
    n in queue && forall q :: q in queue ==> address(q) <= address(n)
  }

  /** Each node is the one with the greatest address in the queue when it is popped. */
  ghost predicate ByAddress(g: Graph, dep: Path, address: Path -> nat, pops: seq<Path>) {
    pops == []
    || (ByAddress(g, dep, address, pops[..|pops| - 1])
        && Greatest(address, After(g, dep, pops[..|pops| - 1]).queue, pops[|pops| - 1]))
  }

  lemma {:induction false} IsPopOrder(g: Graph, dep: Path, address: Path -> nat, pops: seq<Path>)
    requires ByAddress(g, dep, address, pops)
    ensures PopOrder(g, dep, pops)
  {
    if pops != [] { IsPopOrder(g, dep, address, pops[..|pops| - 1]); }
  }

  lemma {:induction false} GreatestExists(address: Path -> nat, queue: set<Path>) returns (n: Path)
    requires queue != {}
    ensures Greatest(address, queue, n)
    decreases queue
  {
    var x :| x in queue;
    if queue == {x} {
      n := x;
    } else {
      var y := GreatestExists(address, queue - {x});
      n := if address(x) > address(y) then x else y;
    }
  }

  /** The nodes of a set have greater addresses than all others. */
  ghost predicate Above(g: Graph, address: Path -> nat, via: set<Path>) {
    forall v, x :: v in via && x in g.refs && x !in via ==> address(x) < address(v)
  }

  lemma PopMore(g: Graph, dep: Path, address: Path -> nat, pops: seq<Path>, n: Path) returns (r: seq<Path>)
    requires ByAddress(g, dep, address, pops) && Greatest(address, After(g, dep, pops).queue, n)
    ensures r == pops + [n] && ByAddress(g, dep, address, r) && r[..|r| - 1] == pops
  {
    r := pops + [n];
    assert r[..|r| - 1] == pops;
  }

  lemma WithinMore(g: Graph, dep: Path, address: Path -> nat, pops: seq<Path>, via: set<Path>, n: Path)
    returns (r: seq<Path>)
    requires Closed(g, dep) && ByAddress(g, dep, address, pops) && Elements(pops) <= via && n in via
    requires Greatest(address, After(g, dep, pops).queue, n)
    ensures ByAddress(g, dep, address, r) && Elements(r) <= via && |pops| < |r| <= |g.refs|
  {
    r := PopMore(g, dep, address, pops, n);
    IsPopOrder(g, dep, address, r);
    PopsAreDistinct(g, dep, r);
  }

  /** As long as any node of the set is in the queue, one of them is popped. */
  lemma {:induction false} PopWithin(g: Graph, dep: Path, address: Path -> nat, via: set<Path>, pops: seq<Path>)
    returns (r: seq<Path>)
    requires Closed(g, dep) && ByAddress(g, dep, address, pops) && Elements(pops) <= via && Above(g, address, via)
    requires |pops| <= |g.refs|
    ensures ByAddress(g, dep, address, r) && Elements(r) <= via && After(g, dep, r).queue !! via
    decreases |g.refs| - |pops|
  {
    r := pops;
    var queue := After(g, dep, pops).queue;
    if v :| v in queue && v in via {
      var n := GreatestExists(address, queue);
      IsPopOrder(g, dep, address, pops);
      PopsKeepValid(g, dep, pops);
      assert n in g.refs;
      r := WithinMore(g, dep, address, pops, via, n);
      r := PopWithin(g, dep, address, via, r);
    }
  }

  lemma {:induction false} RankBound(ps: set<Path>) returns (b: nat)
    ensures forall p :: p in ps ==> p.rank < b
    decreases ps
  {
    b := 0;
    if p :| p in ps {
      b := RankBound(ps - {p});
      if b <= p.rank { b := p.rank + 1; }
    }
  }

  /** The nodes of a set come first, then u, then all others. */
  function Addresses(via: set<Path>, u: Path, b: nat): Path -> nat {
    p => if p in via then p.rank + 2 * b else if p == u then b else p.rank
  }

  lemma AddressesFit(g: Graph, via: set<Path>, u: Path, b: nat)
    requires via <= g.refs.Keys && u in g.refs && u !in via && forall p :: p in g.refs ==> p.rank < b
    ensures Injective(g, Addresses(via, u, b)) && Above(g, Addresses(via, u, b), via)
    ensures forall q :: q in g.refs && q !in via && q != u ==> Addresses(via, u, b)(q) < Addresses(via, u, b)(u)
  {
    forall p, q | p in g.refs && q in g.refs && Addresses(via, u, b)(p) == Addresses(via, u, b)(q) ensures p == q {
      assert p == Path(p.rank) && q == Path(q.rank);
    }
  }

  /** If u has a walk through a set, it is popped when only nodes of that set have been popped before. */
  lemma QueuedVia(g: Graph, dep: Path, via: set<Path>, u: Path, k: nat, b: nat) returns (pops: seq<Path>)
    requires Closed(g, dep) && via <= g.refs.Keys && u in g.refs && u !in via && WalkVia(g, dep, via, u, k)
    requires forall p :: p in g.refs ==> p.rank < b
    ensures ByAddress(g, dep, Addresses(via, u, b), pops) && PopOrder(g, dep, pops)
    ensures Popped(After(g, dep, pops)) <= via && Greatest(Addresses(via, u, b), After(g, dep, pops).queue, u)
  {
    var address := Addresses(via, u, b);
    AddressesFit(g, via, u, b);
    pops := PopWithin(g, dep, address, via, []);
    IsPopOrder(g, dep, address, pops);
    PopsKeepValid(g, dep, pops);
    PoppedSet(g, dep, pops);
    WalkViaReached(g, dep, After(g, dep, pops), via, u, k);
  }

  /** A node with a detour is popped too early for some addresses. */
  lemma DetourPopsInexactly(g: Graph, dep: Path, u: Path) returns (address: Path -> nat, pops: seq<Path>)
    requires Closed(g, dep) && u in g.refs && Detour(g, dep, u)
    ensures Injective(g, address) && ByAddress(g, dep, address, pops) && !PopsExact(g, dep, pops)
  {
    var open := g.refs.Keys - TightRefs(g, dep, u);
    var k: nat :| WalkVia(g, dep, open, u, k);
    var _, j := AvoidSelf(g, dep, open, u, u, k);
    var b := RankBound(g.refs.Keys);
    AddressesFit(g, open - {u}, u, b);
    address := Addresses(open - {u}, u, b);
    var r := QueuedVia(g, dep, open - {u}, u, j, b);
    PopsKeepValid(g, dep, r);
    if Exact(g, dep, After(g, dep, r), u) { ExactNeedsTight(g, dep, After(g, dep, r), u); }
    pops := PopMore(g, dep, address, r, u);
  }

  /** For all addresses every node is popped at its shortest distance, if and only if no node has a detour around the
      references on its own shortest walks. */
  lemma PopsExactIff(g: Graph, dep: Path)
    requires Closed(g, dep)
    ensures (forall address, pops :: Injective(g, address) && ByAddress(g, dep, address, pops) ==>
               PopsExact(g, dep, pops))
            <==> NoDetours(g, dep)
  {
    if NoDetours(g, dep) {
      forall address, pops | Injective(g, address) && ByAddress(g, dep, address, pops) ensures PopsExact(g, dep, pops) {
        IsPopOrder(g, dep, address, pops);
        NoDetoursExact(g, dep, pops);
      }
    } else {
      var u :| u in g.refs && Detour(g, dep, u);
      var address, pops := DetourPopsInexactly(g, dep, u);
    }
  }

  // ----- Every order of pops is one by address -----

  /** The place of p among the pops, or their number if it is not among them. */
  function Place(pops: seq<Path>, p: Path): (i: nat)
    ensures i <= |pops| && (p in pops <==> i < |pops|) && (i < |pops| ==> pops[i] == p)
  {
    if pops == [] then 0 else if pops[0] == p then 0 else 1 + Place(pops[1..], p)
  }

  /** What is popped later has a smaller address, and what is not popped has a smaller one still. */
  function Descending(pops: seq<Path>, b: nat): Path -> nat {
    (p: Path) => if p in pops then b + |pops| - Place(pops, p) else p.rank
  }

  lemma DescendingFits(g: Graph, pops: seq<Path>, b: nat)
    requires forall p :: p in g.refs ==> p.rank < b
    ensures Injective(g, Descending(pops, b))
  {
    var address := Descending(pops, b);
    forall p, q | p in g.refs && q in g.refs && address(p) == address(q) ensures p == q {
      assert p == Path(p.rank) && q == Path(q.rank);
    }
  }

  lemma PlaceIs(pops: seq<Path>, i: nat)
    requires Distinct(pops) && i < |pops|
    ensures Place(pops, pops[i]) == i
  {
  }

  /** Nothing that has been popped is in the queue. */
  lemma PoppedIsGone(g: Graph, dep: Path, pops: seq<Path>, i: nat, q: Path)
    requires Closed(g, dep) && PopOrder(g, dep, pops) && i <= |pops| && q in After(g, dep, pops[..i]).queue
    requires PopOrder(g, dep, pops[..i])
    ensures q in g.refs && q !in pops[..i]
  {
    PopsKeepValid(g, dep, pops[..i]);
    PoppedSet(g, dep, pops[..i]);
    assert q in pops[..i] <==> q in Elements(pops[..i]);
  }

  lemma {:induction false} FrontIsOrder(g: Graph, dep: Path, pops: seq<Path>, i: nat)
    requires PopOrder(g, dep, pops) && i <= |pops|
    ensures PopOrder(g, dep, pops[..i]) && (i < |pops| ==> pops[i] in After(g, dep, pops[..i]).queue)
    decreases |pops|
  {
    if i == |pops| {
      assert pops[..i] == pops;
    } else {
      var front := pops[..|pops| - 1];
      FrontIsOrder(g, dep, front, i);
      assert front[..i] == pops[..i];
      if i == |front| { assert front[..i] == front; }
    }
  }

  /** The next node to be popped has the greatest address in the queue. */
  lemma NextIsGreatest(g: Graph, dep: Path, pops: seq<Path>, b: nat, i: nat)
    requires Closed(g, dep) && PopOrder(g, dep, pops) && i < |pops| && forall p :: p in g.refs ==> p.rank < b
    ensures Greatest(Descending(pops, b), After(g, dep, pops[..i]).queue, pops[i])
  {
    FrontIsOrder(g, dep, pops, i);
    PopsAreDistinct(g, dep, pops);
    PlaceIs(pops, i);
    var address := Descending(pops, b);
    forall j | 0 <= j < i ensures pops[j] in pops[..i] { assert pops[..i][j] == pops[j]; }
    forall q | q in After(g, dep, pops[..i]).queue ensures address(q) <= address(pops[i]) {
      PoppedIsGone(g, dep, pops, i, q);
    }
  }

  lemma {:induction false} FrontByAddress(g: Graph, dep: Path, pops: seq<Path>, b: nat, i: nat)
    requires Closed(g, dep) && PopOrder(g, dep, pops) && i <= |pops| && forall p :: p in g.refs ==> p.rank < b
    ensures ByAddress(g, dep, Descending(pops, b), pops[..i])
  {
    if i > 0 {
      FrontByAddress(g, dep, pops, b, i - 1);
      NextIsGreatest(g, dep, pops, b, i - 1);
      assert pops[..i][..i - 1] == pops[..i - 1];
    }
  }

  /** An order of pops is possible if and only if there are addresses for which the greatest one is always popped: what
      holds for every order holds for all addresses, and the other way round. */
  lemma OrderIffByAddress(g: Graph, dep: Path, pops: seq<Path>)
    requires Closed(g, dep)
    ensures PopOrder(g, dep, pops) <==> exists address :: Injective(g, address) && ByAddress(g, dep, address, pops)
  {
    if PopOrder(g, dep, pops) {
      var b := RankBound(g.refs.Keys);
      DescendingFits(g, pops, b);
      FrontByAddress(g, dep, pops, b, |pops|);
      assert pops[..|pops|] == pops;
      var address := Descending(pops, b);
      assert Injective(g, address) && ByAddress(g, dep, address, pops);
    }
    forall address | Injective(g, address) && ByAddress(g, dep, address, pops) ensures PopOrder(g, dep, pops) {
      IsPopOrder(g, dep, address, pops);
    }
  }
}
