/** A closure and addresses for which `bsd why-depends` does not print a shortest path. */
module LongerPath {
  import opened Distances
  import opened AddressOrders
  import opened Printing
  import opened WhyDepends

  /** 8 reaches 0 along 8, 6, 5, 1, 0 and along 8, 7, 4, 3, 2, 0; also, 5 refers to 4. */
  predicate Refers(j: nat, i: nat) {
    (j == 1 && i == 0) || (j == 2 && i == 0) || (j == 3 && i == 2) || (j == 4 && i == 3) || (j == 5 && i == 1)
    || (j == 5 && i == 4) || (j == 6 && i == 5) || (j == 7 && i == 4) || (j == 8 && i == 6) || (j == 8 && i == 7)
  }

  function N(i: nat): Path {
    Path(i)
  }

  const Nodes := set i | 0 <= i < 9 :: N(i)

  const G := Graph(map p | p in Nodes :: set q | q in Nodes && Refers(p.rank, q.rank))

  lemma ReferrersAre(i: nat, p: Path)
    requires i < 9
    ensures p in Referrers(G, N(i)) <==> p.rank < 9 && Refers(p.rank, i)
  {
    assert p == N(p.rank);
    assert p.rank < 9 ==> p in Nodes;
  }

  /** The distances of the nine nodes, FAR standing for infinity, and which of them are queued or in the queue. */
  datatype Row = Row(dist: seq<nat>, queued: set<nat>, queue: set<nat>)

  const FAR := 100

  predicate RowValid(r: Row) {
    |r.dist| == 9
  }

  predicate Improves(r: Row, i: nat, j: nat)
    requires RowValid(r) && i < 9 && j < 9
  {
    Refers(j, i) && r.dist[i] + 1 < r.dist[j]
  }

  predicate NextAt(r: Row, i: nat, r': Row, j: nat)
    requires RowValid(r) && RowValid(r') && i < 9 && j < 9
  {
    r'.dist[j] == (if Improves(r, i, j) then r.dist[i] + 1 else r.dist[j])
    && (j in r'.queued <==> j in r.queued || Improves(r, i, j))
    && (j in r'.queue <==> (j in r.queue && j != i) || (Improves(r, i, j) && j !in r.queued))
  }

  /** r' is the row after popping i. */
  predicate NextRow(r: Row, i: nat, r': Row)
    requires RowValid(r) && i < 9
  {
    RowValid(r') && forall j: nat :: j < 9 ==> NextAt(r, i, r', j)
  }

  ghost predicate ShowsNode(s: Search, r: Row, j: nat)
    requires RowValid(r) && j < 9
  {
    (N(j) in s.dist <==> r.dist[j] < FAR) && (N(j) in s.dist ==> s.dist[N(j)] == r.dist[j])
    && (N(j) in s.queued <==> j in r.queued) && (N(j) in s.queue <==> j in r.queue)
  }

  ghost predicate Shows(s: Search, r: Row) {
    RowValid(r)
    && (forall j: nat :: j < 9 ==> ShowsNode(s, r, j))
    && (forall p :: p in s.dist || p in s.queue ==> p.rank < 9)
  }

  lemma PopAt(s: Search, n: Path, p: Path)
    requires n in s.dist
    ensures var s', better := Pop(G, s, n), p in Improved(G, s, n);
            && (p in s'.dist <==> p in s.dist || better)
            && (p in s'.dist ==> s'.dist[p] == if better then s.dist[n] + 1 else s.dist[p])
            && (p in s'.queued <==> p in s.queued || better)
            && (p in s'.queue <==> (p in s.queue && p != n) || (better && p !in s.queued))
  {
  }

  lemma PopShows(s: Search, r: Row, i: nat, r': Row, s': Search)
    requires Shows(s, r) && i < 9 && N(i) in s.dist && r.dist[i] + 1 < FAR && NextRow(r, i, r') && s' == Pop(G, s, N(i))
    ensures Shows(s', r')
  {
    assert ShowsNode(s, r, i);
    forall j: nat | j < 9 ensures ShowsNode(s', r', j) {
      assert ShowsNode(s, r, j) && NextAt(r, i, r', j);
      ReferrersAre(i, N(j));
      PopAt(s, N(i), N(j));
    }
    forall p | p in s'.dist || p in s'.queue ensures p.rank < 9 {
      PopAt(s, N(i), p);
      ReferrersAre(i, p);
    }
  }

  /** The addresses, by node: those of 2, 3, 4 and 5 are the greatest, then come 1, 6, 7 and 8. */
  const ADDRESSES: seq<nat> := [0, 4, 8, 7, 6, 5, 3, 2, 1]

  function AddressOf(i: nat): nat {
    if i < 9 then ADDRESSES[i] else i
  }

  function Address(): Path -> nat {
    (p: Path) => AddressOf(p.rank)
  }

  lemma AddressesDiffer(i: nat, j: nat)
    requires AddressOf(i) == AddressOf(j)
    ensures i == j
  {
  }

  lemma AddressIsInjective()
    ensures Injective(G, Address())
  {
    forall p, q | p in G.refs && q in G.refs && Address()(p) == Address()(q) ensures p == q {
      AddressesDiffer(p.rank, q.rank);
      assert p == N(p.rank) && q == N(q.rank);
    }
  }

  /** i has the greatest address in the queue. */
  predicate OnTop(r: Row, i: nat) {
    i in r.queue && forall j :: j in r.queue ==> AddressOf(j) <= AddressOf(i)
  }

  lemma TopIsGreatest(s: Search, r: Row, i: nat)
    requires Shows(s, r) && i < 9 && OnTop(r, i)
    ensures Greatest(Address(), s.queue, N(i))
  {
    assert ShowsNode(s, r, i);
    forall q | q in s.queue
      ensures Address()(q) <= Address()(N(i))
    {
      assert q == N(q.rank) && ShowsNode(s, r, q.rank);
    }
  }

  lemma PopNext(pops: seq<Path>, r: Row, i: nat, r': Row) returns (pops': seq<Path>)
    requires ByAddress(G, N(0), Address(), pops) && Shows(After(G, N(0), pops), r)
    requires i < 9 && OnTop(r, i) && r.dist[i] + 1 < FAR && NextRow(r, i, r')
    ensures ByAddress(G, N(0), Address(), pops') && Shows(After(G, N(0), pops'), r')
  {
    var s := After(G, N(0), pops);
    assert ShowsNode(s, r, i);
    TopIsGreatest(s, r, i);
    pops' := PopMore(G, N(0), Address(), pops, N(i));
    PopShows(s, r, i, r', Pop(G, s, N(i)));
  }

  /** The rows of the search when 0, 2, 3, 4, 5, 1, 6, 7, 8 are popped in this order. */
  function RowAt(k: nat): Row
    requires k <= 9
  {
    match k
    case 0 => Row([0, 100, 100, 100, 100, 100, 100, 100, 100], {}, {0})
    case 1 => Row([0, 1, 1, 100, 100, 100, 100, 100, 100], {1, 2}, {1, 2})
    case 2 => Row([0, 1, 1, 2, 100, 100, 100, 100, 100], {1, 2, 3}, {1, 3})
    case 3 => Row([0, 1, 1, 2, 3, 100, 100, 100, 100], {1, 2, 3, 4}, {1, 4})
    case 4 => Row([0, 1, 1, 2, 3, 4, 100, 4, 100], {1, 2, 3, 4, 5, 7}, {1, 5, 7})
    case 5 => Row([0, 1, 1, 2, 3, 4, 5, 4, 100], {1, 2, 3, 4, 5, 6, 7}, {1, 6, 7})
    case 6 => Row([0, 1, 1, 2, 3, 2, 5, 4, 100], {1, 2, 3, 4, 5, 6, 7}, {6, 7})
    case 7 => Row([0, 1, 1, 2, 3, 2, 5, 4, 6], {1, 2, 3, 4, 5, 6, 7, 8}, {7, 8})
    case 8 => Row([0, 1, 1, 2, 3, 2, 5, 4, 5], {1, 2, 3, 4, 5, 6, 7, 8}, {8})
    case 9 => Row([0, 1, 1, 2, 3, 2, 5, 4, 5], {1, 2, 3, 4, 5, 6, 7, 8}, {})
  }

  const Order: seq<nat> := [0, 2, 3, 4, 5, 1, 6, 7, 8]

  predicate RowFollows(k: nat)
    requires k < 9
  {
    var r, i := RowAt(k), Order[k];
    RowValid(r) && NextRow(r, i, RowAt(k + 1)) && OnTop(r, i) && r.dist[i] + 1 < FAR
  }

  lemma RowsFollow(k: nat)
    requires k < 9
    ensures RowFollows(k)
  {
    var r, i, r' := RowAt(k), Order[k], RowAt(k + 1);
    assert RowValid(r) && RowValid(r');
    forall j: nat | j < 9 ensures NextAt(r, i, r', j) { RowsFollowAt(k, j); }
  }

  lemma RowsFollowAt(k: nat, j: nat)
    requires k < 9 && j < 9
    ensures NextAt(RowAt(k), Order[k], RowAt(k + 1), j)
  {
    if k < 3 { FirstRows(k, j); } else if k < 6 { MiddleRows(k, j); } else { LastRows(k, j); }
  }

  lemma FirstRows(k: nat, j: nat)
    requires k < 3 && j < 9
    ensures NextAt(RowAt(k), Order[k], RowAt(k + 1), j)
  {
  }

  lemma MiddleRows(k: nat, j: nat)
    requires 3 <= k < 6 && j < 9
    ensures NextAt(RowAt(k), Order[k], RowAt(k + 1), j)
  {
  }

  lemma LastRows(k: nat, j: nat)
    requires 6 <= k < 9 && j < 9
    ensures NextAt(RowAt(k), Order[k], RowAt(k + 1), j)
  {
  }

  lemma {:induction false} PopsTo(k: nat) returns (pops: seq<Path>)
    requires k <= 9
    ensures ByAddress(G, N(0), Address(), pops) && Shows(After(G, N(0), pops), RowAt(k))
  {
    if k == 0 {
      pops := [];
    } else {
      pops := PopsTo(k - 1);
      RowsFollow(k - 1);
      pops := PopNext(pops, RowAt(k - 1), Order[k - 1], RowAt(k));
    }
  }

  const DETOUR := [N(8), N(7), N(4), N(3), N(2), N(0)]

  lemma ShownBelow(w: View, i: nat, j: nat)
    requires w.g == G && !w.self && i < 9 && (forall k: nat :: k < 9 ==> N(k) in w.dist)
    ensures N(j) in Shown(w, N(i)) <==> Refers(i, j) && i != j
  {
    assert N(i) in Nodes;
    if Refers(i, j) { assert N(j) in G.refs[N(i)]; }
  }

  lemma DetourIsGreedy(w: View, s: Search)
    requires w == View(G, s.dist, false) && Shows(s, RowAt(9))
    ensures GreedyPath(w, N(0), DETOUR)
  {
    forall k: nat | k < 9
      ensures N(k) in s.dist && s.dist[N(k)] == RowAt(9).dist[k]
    {
      assert ShowsNode(s, RowAt(9), k);
    }
    forall k | 0 <= k < 5 ensures NearestRef(w, DETOUR[k], DETOUR[k + 1]) {
      var i, j := DETOUR[k].rank, DETOUR[k + 1].rank;
      ShownBelow(w, i, j);
      forall q | q in Shown(w, N(i)) ensures w.dist[N(j)] <= w.dist[q] { ShownBelow(w, i, q.rank); }
    }
  }

  lemma WalkStep(i: nat, j: nat, k: nat)
    requires i < 9 && j < 9 && Refers(i, j) && Walk(G, N(0), N(j), k)
    ensures Walk(G, N(0), N(i), k + 1)
  {
    assert N(i) in Nodes && N(j) in Nodes && N(j) in G.refs[N(i)];
  }

  lemma ShortWalk()
    ensures Walk(G, N(0), N(8), 4)
  {
    WalkStep(1, 0, 0);
    WalkStep(5, 1, 1);
    WalkStep(6, 5, 2);
    WalkStep(8, 6, 3);
  }

  lemma GraphClosed()
    ensures Closed(G, N(0))
  {
    assert N(0) in Nodes;
    forall p, q | p in G.refs && q in G.refs[p] ensures q in G.refs { assert q == N(q.rank) && q in Nodes; }
  }

  lemma {:induction false} EdgesLength(path: seq<Path>)
    ensures |PathEdges(path)| == if path == [] then 0 else |path| - 1
  {
    if |path| > 1 { EdgesLength(path[1..]); }
  }

  lemma QueueEmpty(s: Search)
    requires Shows(s, RowAt(9))
    ensures s.queue == {}
  {
    forall p ensures p !in s.queue {
      if p.rank < 9 { assert p == N(p.rank) && ShowsNode(s, RowAt(9), p.rank); }
    }
  }

  lemma DetourPrinted(s: Search) returns (es: seq<Edge>)
    requires Shows(s, RowAt(9))
    ensures |es| == 5 && PrintedPath(View(G, s.dist, false), N(0), N(8), es)
  {
    DetourIsGreedy(View(G, s.dist, false), s);
    EdgesLength(DETOUR);
    es := PathEdges(DETOUR);
    assert Printable(View(G, s.dist, false), N(0), N(8), DETOUR);
  }

  /** With these addresses the distance of 6 stays at 5 although 5, its only reference, gets down to 2 later: the path
      printed from 8 has 5 references, while there is a walk of 4. */
  lemma PrintedPathNotShortest() returns (address: Path -> nat, pops: seq<Path>, s: Search, es: seq<Edge>)
    ensures Closed(G, N(0)) && Injective(G, address) && ByAddress(G, N(0), address, pops)
    ensures PopOrder(G, N(0), pops) && s == After(G, N(0), pops) && s.queue == {}
    ensures PrintedPath(View(G, s.dist, false), N(0), N(8), es) && |es| == 5 && Walk(G, N(0), N(8), 4)
  {
    address := Address();
    AddressIsInjective();
    pops := PopsTo(9);
    IsPopOrder(G, N(0), address, pops);
    s := After(G, N(0), pops);
    QueueEmpty(s);
    es := DetourPrinted(s);
    GraphClosed();
    ShortWalk();
  }
}
