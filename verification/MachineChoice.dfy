/** How a build hook picks a remote machine: probe all slots, then the least loaded machine for its speed. */
module MachineChoice {
  import opened Basics
  import opened Selection

  /** A speed factor is never zero or negative: zero is read as one, negative ones are rejected. */
  type Speed = x: real | x > 0.0 witness 1.0

  /** `pressure` is the quotient of a load and the speed factor as the program computes it, rounded in any way. */
  datatype Machine = Machine(
    uri: string, systems: set<string>, maxJobs: nat, speed: Speed, pressure: nat -> real,
    supported: set<string>, mandatory: set<string>)

  datatype Request = Request(system: string, features: set<string>, canBuildLocally: bool)

  predicate RightType(m: Machine, q: Request) {
    (q.system == "builtin" || q.system in m.systems)
    && (forall f :: f in q.features ==> f in m.supported || f in m.mandatory)
    && m.mandatory <= q.features
  }

  /** What probing a machine found: whether it was considered, how many slots were held, the first free slot. */
  datatype Probe = Probe(considered: bool, load: nat, free: Option<nat>, speed: Speed, pressure: real)

  predicate Available(p: Probe) {
    p.considered && p.free.Some?
  }

  /** Less load for its speed is better, then more speed, then less load. Less means that b is better. */
  function CompareProbes(a: Probe, b: Probe): Ordering {
    if b.pressure < a.pressure then Less
    else if b.pressure > a.pressure then Greater
    else if a.speed < b.speed then Less
    else if a.speed > b.speed then Greater
    else CompareInts(b.load, a.load)
  }

  lemma CompareProbesIsOrder()
    ensures TotalPreorder(CompareProbes)
  {
  }

  function Offers(): ((), Probe) -> bool {
    (_, p) => Available(p)
  }

  /** The machine to use: the earliest best one among those with a free slot. */
  ghost predicate IsBest(probes: seq<Probe>, n: nat, best: Option<nat>)
    requires n <= |probes|
  {
    IsChoice(probes, Offers(), (), CompareProbes, n, best)
  }

  function Best(probes: seq<Probe>, n: nat): (best: Option<nat>)
    requires n <= |probes|
    ensures IsBest(probes, n, best)
  {
    CompareProbesIsOrder();
    Choose(probes, Offers(), (), CompareProbes, n)
  }

  /** The comparison as the hook makes it. */
  predicate Beats(p: Probe, best: Probe) {
    if p.pressure < best.pressure then true
    else if p.pressure == best.pressure then
      p.speed > best.speed || (p.speed == best.speed && p.load < best.load)
    else false
  }

  lemma BeatsIsLess(p: Probe, best: Probe)
    ensures Beats(p, best) <==> CompareProbes(best, p) == Less
  {
  }

  /** The quotient is exact. */
  predicate Exact(p: Probe) {
    p.pressure == p.load as real / p.speed
  }

  /** With exact quotients the third tie-break never decides: equal speed and equal pressure mean equal load. */
  lemma ThirdNeverDecides(p: Probe, best: Probe)
    requires Exact(p) && Exact(best) && p.pressure == best.pressure && p.speed == best.speed
    ensures p.load == best.load && !Beats(p, best)
  {
    assert p.load as real == p.pressure * p.speed && best.load as real == best.pressure * best.speed;
  }

  // ----- Probing -----

  /** The number of slots below n that could not be locked, and the first one that could. */
  function HeldCount(got: nat -> bool, n: nat): nat {
    if n == 0 then 0 else HeldCount(got, n - 1) + if got(n - 1) then 0 else 1
  }

  function FirstFree(got: nat -> bool, n: nat): (r: Option<nat>)
    ensures r.None? ==> forall s: nat :: s < n ==> !got(s)
    ensures r.Some? ==> r.value < n && got(r.value) && forall s: nat :: s < r.value ==> !got(s)
  {
    if n == 0 then None
    else
      var r := FirstFree(got, n - 1);
      if r.None? && got(n - 1) then Some(n - 1) else r
  }

  lemma {:induction false} HeldCountMeaning(got: nat -> bool, n: nat)
    ensures HeldCount(got, n) == |set s: nat | s < n && !got(s)|
  {
    if n > 0 {
      HeldCountMeaning(got, n - 1);
      var a, b := (set s: nat | s < n && !got(s)), (set s: nat | s < n - 1 && !got(s));
      if got(n - 1) { assert a == b; } else { assert a == b + {n - 1}; }
    } else {
      assert (set s: nat | s < n && !got(s)) == {};
    }
  }

  function Unprobed(m: Machine): Probe {
    Probe(false, 0, None, m.speed, m.pressure(0))
  }

  function ProbeOf(m: Machine, considered: bool, got: nat -> bool): Probe {
    if !considered then Unprobed(m)
    else
      var load := HeldCount(got, m.maxJobs);
      Probe(true, load, FirstFree(got, m.maxJobs), m.speed, m.pressure(load))
  }

  predicate Considered(m: Machine, enabled: bool, q: Request) {
    enabled && RightType(m, q)
  }

  /** All probes of one round; `got(i)(s)` tells whether slot s of machine i could be locked. */
  function Probes(machines: seq<Machine>, enabled: seq<bool>, q: Request, got: nat -> nat -> bool): (r: seq<Probe>)
    requires |enabled| == |machines|
    ensures |r| == |machines|
  {
    seq(|machines|, i requires 0 <= i < |machines| =>
      ProbeOf(machines[i], Considered(machines[i], enabled[i], q), got(i)))
  }

  method ProbeMachine(m: Machine, got: nat -> bool) returns (free: Option<nat>, load: nat)
    ensures free == FirstFree(got, m.maxJobs) && load == HeldCount(got, m.maxJobs)
  {
    free, load := None, 0;
    for slot := 0 to m.maxJobs
      invariant free == FirstFree(got, slot) && load == HeldCount(got, slot)
    {
      if got(slot) {
        if free.None? { free := Some(slot); }
      } else {
        load := load + 1;
      }
    }
  }

  /** One round over all machines, keeping the best one so far. */
  method ChooseMachine(machines: seq<Machine>, enabled: seq<bool>, q: Request, got: nat -> nat -> bool)
    returns (best: Option<nat>, rightType: bool)
    requires |enabled| == |machines|
    ensures best == Best(Probes(machines, enabled, q, got), |machines|)
    ensures rightType <==> exists i :: 0 <= i < |machines| && Considered(machines[i], enabled[i], q)
  {
    ghost var probes := Probes(machines, enabled, q, got);
    best, rightType := None, false;
    var bestLoad := 0;
    for i := 0 to |machines|
      invariant best == Best(probes, i)
      invariant best.Some? ==> probes[best.value].considered && bestLoad == probes[best.value].load
      invariant rightType <==> exists j :: 0 <= j < i && Considered(machines[j], enabled[j], q)
    {
      var m := machines[i];
      if Considered(m, enabled[i], q) {
        rightType := true;
        var free, load := ProbeMachine(m, got(i));
        if free.Some? {
          var here := Probe(true, load, free, m.speed, m.pressure(load));
          var isBest := true;
          if best.Some? {
            BeatsIsLess(here, probes[best.value]);
            var b := machines[best.value];
            isBest := Beats(here, Probe(true, bestLoad, None, b.speed, b.pressure(bestLoad)));
          }
          if isBest { best, bestLoad := Some(i), load; }
        }
      }
    }
  }

  /** The best machine so far is only displaced by one that beats it. */
  lemma BestGrows(probes: seq<Probe>, p: Probe)
    ensures var b := Best(probes, |probes|);
            Best(probes + [p], |probes| + 1) ==
              if Available(p) && (b.None? || Beats(p, probes[b.value])) then Some(|probes|) else b
  {
    CompareProbesIsOrder();
    ChoosePrefix(probes, probes + [p], Offers(), (), CompareProbes, |probes|);
    var b := Best(probes, |probes|);
    if b.Some? { BeatsIsLess(p, probes[b.value]); }
  }
}
