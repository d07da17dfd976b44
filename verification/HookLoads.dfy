/** What the loads counted by a probing hook say about the other hooks. */
module HookLoads {
  import opened Basics
  import opened MachineChoice
  import opened HookProtocol

  /** Nobody but h holds the lock. */
  predicate OnlyBy(s: State, l: Lock, h: nat) {
    l in s.locks ==> s.locks[l] == h
  }

  /** Every slot that the prober has found free so far has not been taken by anybody else since. */
  ghost predicate AccurateSeen(s: State, h: nat, k: Hook)
    requires k.phase.Probing?
  {
    forall m, t: nat :: ProbedFree(k, m, t) ==> OnlyBy(s, SlotOf(k, m, t), h)
  }

  /** Slot t of the m-th machine was found free. */
  predicate ProbedFree(k: Hook, m: int, t: nat)
    requires k.phase.Probing?
  {
    0 <= m < |k.phase.seen| && m < |k.machines| && m < |k.phase.held| && k.phase.seen[m].considered
    && t < k.machines[m].maxJobs && t !in k.phase.held[m]
  }

  ghost predicate AccurateNow(s: State, h: nat, k: Hook)
    requires k.phase.Probing?
  {
    |k.phase.seen| < |k.machines| ==>
      forall t: nat :: t < k.phase.slot && t !in k.phase.busy ==> OnlyBy(s, SlotOf(k, |k.phase.seen|, t), h)
  }

  ghost predicate Accurate(s: State, h: nat)
    requires h in s.hooks
  {
    s.hooks[h].phase.Probing? ==> AccurateSeen(s, h, s.hooks[h]) && AccurateNow(s, h, s.hooks[h])
  }

  // ----- Probing alone -----

  /** Hooks that are probing at the same time know it. */
  ghost predicate CrowdValid(s: State) {
    forall g, h :: g in s.hooks && h in s.hooks && g != h && s.hooks[g].phase.Probing? && s.hooks[h].phase.Probing? ==>
      g in s.crowded && h in s.crowded
  }

  predicate Enters(a: Act) {
    a.EnterMain? || a.EnterInterrupted?
  }

  /** Only a hook that enters begins to probe. */
  lemma ProbingBegins(k: Hook, taken: set<Lock>, a: Act)
    requires CanDo(k, a) && HookStep(k, taken, a).hook.phase.Probing?
    ensures (k.phase.Probing? && !a.Decide? && !a.Exit?) || Enters(a)
  {
  }

  /** Whether hook x probes after a step of hook h. */
  predicate ProbesAfter(s: State, h: nat, k: Hook, x: nat)
    requires x in s.hooks
  {
    if x == h then k.phase.Probing? else s.hooks[x].phase.Probing?
  }

  lemma CrowdTogether(s: State, h: nat, a: Act, k: Hook, x: nat, y: nat)
    requires CrowdValid(s) && h in s.hooks && x in s.hooks && y in s.hooks && x != y
    requires k.phase.Probing? ==> (s.hooks[h].phase.Probing? && !a.Decide? && !a.Exit?) || Enters(a)
    requires ProbesAfter(s, h, k, x) && ProbesAfter(s, h, k, y) && (a.Decide? || a.Exit? ==> !k.phase.Probing?)
    ensures x in CrowdedAfter(s, h, a) && y in CrowdedAfter(s, h, a)
  {
    if h == x { assert y in OtherProbers(s, h); }
    if h == y { assert x in OtherProbers(s, h); }
  }

  lemma StepKeepsCrowd(s: State, h: nat, a: Act)
    requires CrowdValid(s) && Enabled(s, h, a)
    ensures CrowdValid(Do(s, h, a))
  {
    var s', k := Do(s, h, a), HookStep(s.hooks[h], s.locks.Keys, a).hook;
    if k.phase.Probing? { ProbingBegins(s.hooks[h], s.locks.Keys, a); }
    forall x, y | x in s'.hooks && y in s'.hooks && x != y && s'.hooks[x].phase.Probing? && s'.hooks[y].phase.Probing?
      ensures x in s'.crowded && y in s'.crowded
    {
      CrowdTogether(s, h, a, k, x, y);
    }
  }

  ghost predicate AllAccurate(s: State) {
    forall h :: h in s.hooks && h !in s.crowded ==> Accurate(s, h)
  }

  /** Only a probing hook acquires slot locks. */
  lemma AcquiresWhileProbing(k: Hook, taken: set<Lock>, a: Act)
    requires CanDo(k, a) && !k.phase.Probing?
    ensures HookStep(k, taken, a).acquire == {}
  {
  }

  /** A hook that probes alone keeps doing so only if no other one is probing. */
  lemma OthersDoNotProbe(s: State, h: nat, a: Act, g: nat)
    requires CrowdValid(s) && Enabled(s, h, a) && g in s.hooks && g != h && s.hooks[g].phase.Probing?
    requires g !in CrowdedAfter(s, h, a)
    ensures !s.hooks[h].phase.Probing? && g !in s.crowded
  {
    assert g in OtherProbers(s, h);
  }

  /** A step of another hook takes nothing away from a hook that probes alone. */
  lemma OtherStepAccurate(s: State, h: nat, a: Act, g: nat)
    requires CrowdValid(s) && Enabled(s, h, a) && g in s.hooks && g != h && g !in CrowdedAfter(s, h, a)
    requires g !in s.crowded ==> Accurate(s, g)
    ensures Accurate(Do(s, h, a), g)
  {
    if s.hooks[g].phase.Probing? {
      OthersDoNotProbe(s, h, a, g);
      AcquiresWhileProbing(s.hooks[h], s.locks.Keys, a);
      var s' := Do(s, h, a);
      assert forall l, x :: OnlyBy(s, l, x) ==> OnlyBy(s', l, x);
    }
  }

  /** A step of the prober itself only adds locks of its own. */
  lemma OwnLocks(s: State, h: nat, a: Act, l: Lock)
    requires Enabled(s, h, a) && OnlyBy(s, l, h)
    ensures OnlyBy(Do(s, h, a), l, h)
  {
  }

  ghost predicate KeepsOwn(s: State, s': State, h: nat) {
    forall l :: OnlyBy(s, l, h) ==> OnlyBy(s', l, h)
  }

  lemma StepKeepsOwn(s: State, h: nat, a: Act, s': State)
    requires Enabled(s, h, a) && s' == Do(s, h, a)
    ensures KeepsOwn(s, s', h)
  {
    forall l | OnlyBy(s, l, h) ensures OnlyBy(s', l, h) { OwnLocks(s, h, a, l); }
  }

  /** The next slot has been dealt with: it was found held, or nobody else holds it. */
  lemma NextSlot(s: State, s': State, h: nat, k: Hook, k': Hook)
    requires k.phase.Probing? && k'.phase.Probing? && k'.machines == k.machines && |k.phase.seen| < |k.machines|
    requires k'.phase.seen == k.phase.seen && k'.phase.held == k.phase.held && k.phase.busy <= k'.phase.busy
    requires k'.phase.slot == k.phase.slot + 1
    requires k.phase.slot in k'.phase.busy || OnlyBy(s', SlotOf(k, |k.phase.seen|, k.phase.slot), h)
    requires KeepsOwn(s, s', h) && AccurateSeen(s, h, k) && AccurateNow(s, h, k)
    ensures AccurateSeen(s', h, k') && AccurateNow(s', h, k')
  {
    forall m, t: nat | ProbedFree(k', m, t) ensures OnlyBy(s', SlotOf(k', m, t), h) { assert ProbedFree(k, m, t); }
  }

  lemma NextMachine(s: State, s': State, h: nat, k: Hook, k': Hook)
    requires k.phase.Probing? && k'.phase.Probing? && k'.machines == k.machines && |k.phase.seen| < |k.machines|
    requires |k.phase.held| == |k.phase.seen| && |k'.phase.seen| == |k.phase.seen| + 1
    requires k'.phase.seen[..|k.phase.seen|] == k.phase.seen && k'.phase.held == k.phase.held + [k.phase.busy]
    requires k'.phase.seen[|k.phase.seen|].considered ==> k.phase.slot == k.machines[|k.phase.seen|].maxJobs
    requires k'.phase.slot == 0
    requires KeepsOwn(s, s', h) && AccurateSeen(s, h, k) && AccurateNow(s, h, k)
    ensures AccurateSeen(s', h, k') && AccurateNow(s', h, k')
  {
    forall m, t: nat | ProbedFree(k', m, t) ensures OnlyBy(s', SlotOf(k', m, t), h) {
      if m < |k.phase.seen| {
        assert k'.phase.seen[m] == k.phase.seen[m];
        assert ProbedFree(k, m, t);
      }
    }
  }

  lemma OwnTrySlot(s: State, h: nat)
    requires Valid(s) && Enabled(s, h, TrySlot) && Accurate(s, h)
    ensures Accurate(Do(s, h, TrySlot), h)
  {
    var k, s' := s.hooks[h], Do(s, h, TrySlot);
    var k' := s'.hooks[h];
    StepKeepsOwn(s, h, TrySlot, s');
    assert k' == TakeSlot(k, s.locks.Keys).hook;
    if k'.phase.extra {
      SameSlot(s, s', h, k, k');
    } else {
      NextSlot(s, s', h, k, k');
    }
  }

  lemma SameSlot(s: State, s': State, h: nat, k: Hook, k': Hook)
    requires k.phase.Probing? && k' == k.(phase := k.phase.(extra := true))
    requires KeepsOwn(s, s', h) && AccurateSeen(s, h, k) && AccurateNow(s, h, k)
    ensures AccurateSeen(s', h, k') && AccurateNow(s', h, k')
  {
    forall m, t: nat | ProbedFree(k', m, t) ensures OnlyBy(s', SlotOf(k', m, t), h) { assert ProbedFree(k, m, t); }
  }

  lemma OwnDropExtra(s: State, h: nat)
    requires Valid(s) && Enabled(s, h, DropExtra) && Accurate(s, h)
    ensures Accurate(Do(s, h, DropExtra), h)
  {
    var k, s' := s.hooks[h], Do(s, h, DropExtra);
    StepKeepsOwn(s, h, DropExtra, s');
    assert OnlyBy(s', SlotOf(k, |k.phase.seen|, k.phase.slot), h);
    NextSlot(s, s', h, k, s'.hooks[h]);
  }

  lemma OwnEndMachine(s: State, h: nat, a: Act)
    requires Valid(s) && Enabled(s, h, a) && Accurate(s, h) && (a.EndMachine? || a.SkipMachine?)
    ensures Accurate(Do(s, h, a), h)
  {
    var k, s' := s.hooks[h], Do(s, h, a);
    assert HookValid(k);
    StepKeepsOwn(s, h, a, s');
    NextMachine(s, s', h, k, s'.hooks[h]);
  }

  lemma OwnStepAccurate(s: State, h: nat, a: Act)
    requires Valid(s) && Enabled(s, h, a) && h !in CrowdedAfter(s, h, a) && (h !in s.crowded ==> Accurate(s, h))
    ensures Accurate(Do(s, h, a), h)
  {
    if a.TrySlot? { OwnTrySlot(s, h); }
    else if a.DropExtra? { OwnDropExtra(s, h); }
    else if a.EndMachine? || a.SkipMachine? { OwnEndMachine(s, h, a); }
  }

  lemma StepAccurate(s: State, h: nat, a: Act)
    requires Valid(s) && CrowdValid(s) && AllAccurate(s) && Enabled(s, h, a)
    ensures AllAccurate(Do(s, h, a))
  {
    var s' := Do(s, h, a);
    forall g | g in s'.hooks && g !in s'.crowded ensures Accurate(s', g) {
      if g == h { OwnStepAccurate(s, h, a); } else { OtherStepAccurate(s, h, a, g); }
    }
  }

  lemma {:induction false} RunAccurate(s0: State, steps: seq<(nat, Act)>, s: State)
    requires Initial(s0) && IsRun(s0, steps, s)
    ensures AllAccurate(s) && CrowdValid(s)
  {
    if steps != [] {
      var front, h, a := steps[..|steps| - 1], steps[|steps| - 1].0, steps[|steps| - 1].1;
      var t :| IsRun(s0, front, t) && Enabled(t, h, a) && s == Do(t, h, a);
      RunAccurate(s0, front, t);
      RunKeepsValid(s0, front, t);
      StepKeepsCrowd(t, h, a);
      StepAccurate(t, h, a);
    }
  }

  lemma StepNotCrowded(s: State, h: nat, a: Act)
    requires MainValid(s) && Enabled(s, h, a) && !s.interrupted && !a.EnterInterrupted? && s.crowded == {}
    ensures CrowdedAfter(s, h, a) == {}
  {
    if a.EnterMain? { assert OtherProbers(s, h) == {}; }
  }

  /** As long as the main lock is honoured, every hook probes alone. */
  lemma {:induction false} HonouredNotCrowded(s0: State, steps: seq<(nat, Act)>, s: State)
    requires Initial(s0) && IsRun(s0, steps, s) && !s.interrupted
    ensures s.crowded == {}
  {
    if steps != [] {
      var front, h, a := steps[..|steps| - 1], steps[|steps| - 1].0, steps[|steps| - 1].1;
      var t :| IsRun(s0, front, t) && Enabled(t, h, a) && s == Do(t, h, a);
      HonouredNotCrowded(s0, front, t);
      RunKeepsValid(s0, front, t);
      StepNotCrowded(t, h, a);
    }
  }

  /** The slots of the m-th machine of hook h that other hooks hold. */
  ghost function CommittedSlots(s: State, h: nat, m: nat): set<nat>
    requires h in s.hooks && m < |s.hooks[h].machines|
  {
    var k := s.hooks[h];
    set t | 0 <= t < k.machines[m].maxJobs && SlotOf(k, m, t) in s.locks && s.locks[SlotOf(k, m, t)] != h
  }

  /** As long as a hook probes alone, a load that it has counted never becomes an underestimate: when the hook decides,
      no more slots of a machine are held by others than it has counted, and all those that are held by others are
      among the counted ones. */
  lemma LoadsAreUpperBounds(s0: State, steps: seq<(nat, Act)>, s: State, h: nat, m: nat)
    requires Initial(s0) && IsRun(s0, steps, s) && h !in s.crowded
    requires h in s.hooks && s.hooks[h].phase.Probing? && m < |s.hooks[h].phase.seen|
      && s.hooks[h].phase.seen[m].considered
    ensures m < |s.hooks[h].machines| && m < |s.hooks[h].phase.held|
    ensures CommittedSlots(s, h, m) <= s.hooks[h].phase.held[m]
    ensures |CommittedSlots(s, h, m)| <= s.hooks[h].phase.seen[m].load
  {
    RunKeepsValid(s0, steps, s);
    RunAccurate(s0, steps, s);
    var k := s.hooks[h];
    assert HookValid(k) && Accurate(s, h);
    forall t | t in CommittedSlots(s, h, m) ensures t in k.phase.held[m] {
      assert !OnlyBy(s, SlotOf(k, m, t), h);
    }
    SubsetSize(CommittedSlots(s, h, m), k.phase.held[m]);
  }

  // ----- What is counted -----

  ghost predicate OwnBest(k: Hook, l: Lock) {
    k.phase.Probing? && k.phase.best.Some? && PickValid(k, k.phase.best.value)
    && l == SlotOf(k, k.phase.best.value.machine, k.phase.best.value.slot)
  }

  /** Why a slot l counts as load for the prober h: g holds it, and g is h with its best slot so far, or past
      selection, or another hook that is probing at this moment. */
  ghost predicate CountedBecause(s: State, h: nat, l: Lock, g: nat)
    requires h in s.hooks
  {
    && g in s.hooks && l in Held(s.hooks[g])
    && (g == h <==> OwnBest(s.hooks[h], l))
    && (PastSelection(s.hooks[g].phase) <==> !s.hooks[g].phase.Probing?)
  }

  lemma HolderHolds(s: State, l: Lock)
    requires LocksValid(s) && l in s.locks
    ensures s.locks[l] in s.hooks && l in Held(s.hooks[s.locks[l]])
  {
    assert HeldBy(s.hooks)[s.locks[l]] == Held(s.hooks[s.locks[l]]);
  }

  lemma HolderIs(s: State, h: nat, l: Lock)
    requires LocksValid(s) && h in s.hooks && l in Held(s.hooks[h])
    ensures l in s.locks && s.locks[l] == h
  {
    assert HeldBy(s.hooks)[h] == Held(s.hooks[h]);
  }

  /** A hook does not probe while another one probes alone. */
  lemma NotProbing(s: State, h: nat, g: nat)
    requires CrowdValid(s) && h in s.hooks && h !in s.crowded && s.hooks[h].phase.Probing? && g in s.hooks && g != h
    ensures !s.hooks[g].phase.Probing?
  {
  }

  lemma CountedOther(s: State, h: nat, l: Lock, g: nat)
    requires LocksValid(s) && h in s.hooks && l in s.locks && s.locks[l] == g && g != h
    ensures CountedBecause(s, h, l, g)
  {
    HolderHolds(s, l);
    if !s.hooks[g].phase.Probing? { HolderIsPast(s.hooks[g], l); }
    if OwnBest(s.hooks[h], l) {
      BestIsHeld(s.hooks[h], l);
      HolderIs(s, h, l);
    }
  }

  lemma CountedInValid(s: State, h: nat, l: Lock)
    requires LocksValid(s) && Enabled(s, h, TrySlot) && l in s.locks
    requires HookValid(s.hooks[h]) && l == SlotOf(s.hooks[h], |s.hooks[h].phase.seen|, s.hooks[h].phase.slot)
    ensures CountedBecause(s, h, l, s.locks[l])
  {
    if s.locks[l] == h {
      HolderHolds(s, l);
      OnlyBestAgain(s.hooks[h], l);
    } else {
      CountedOther(s, h, l, s.locks[l]);
    }
  }

  lemma BestIsHeld(k: Hook, l: Lock)
    requires OwnBest(k, l)
    ensures l in Held(k)
  {
  }

  /** In every run, whoever honours the main lock or not: a slot is counted as load because a hook past selection holds
      it, because another hook holds it that is probing at this moment, or because it is the very slot that the prober
      keeps for an earlier entry with the same escaped URI. For a hook that has probed alone since it began, no other
      hook is probing. */
  lemma WhatIsCounted(s0: State, steps: seq<(nat, Act)>, s: State, h: nat, l: Lock)
    requires Initial(s0) && IsRun(s0, steps, s) && Enabled(s, h, TrySlot) && l in s.locks
    requires l == SlotOf(s.hooks[h], |s.hooks[h].phase.seen|, s.hooks[h].phase.slot)
    ensures CountedBecause(s, h, l, s.locks[l])
    ensures h !in s.crowded && s.locks[l] != h ==> !s.hooks[s.locks[l]].phase.Probing?
  {
    RunKeepsValid(s0, steps, s);
    RunAccurate(s0, steps, s);
    CountedInValid(s, h, l);
    if h !in s.crowded && s.locks[l] != h { NotProbing(s, h, s.locks[l]); }
  }

  /** The next slot can only be held by the prober itself as the slot of the best machine so far. */
  lemma OnlyBestAgain(k: Hook, l: Lock)
    requires HookValid(k) && CanDo(k, TrySlot) && l == SlotOf(k, |k.phase.seen|, k.phase.slot) && l in Held(k)
    ensures OwnBest(k, l)
  {
  }

  lemma HolderIsPast(k: Hook, l: Lock)
    requires l in Held(k) && !k.phase.Probing?
    ensures PastSelection(k.phase)
  {
  }

  ghost predicate DistinctKeys(k: Hook) {
    forall i, j :: 0 <= i < j < |k.machines| ==> KeyOf(k.machines[i]) != KeyOf(k.machines[j])
  }

  lemma DistinctKeysNotOwn(k: Hook, l: Lock)
    requires HookValid(k) && CanDo(k, TrySlot) && DistinctKeys(k) && l == SlotOf(k, |k.phase.seen|, k.phase.slot)
    ensures !OwnBest(k, l)
  {
  }

  /** In every run, with distinct escaped URIs, every counted slot is held by another hook, and that is past selection
      exactly if it is not probing at this moment, as it is not if the hook has probed alone since it began. */
  lemma CountedSlotsAreCommitted(s0: State, steps: seq<(nat, Act)>, s: State, h: nat, l: Lock)
    requires Initial(s0) && IsRun(s0, steps, s) && Enabled(s, h, TrySlot) && l in s.locks
    requires l == SlotOf(s.hooks[h], |s.hooks[h].phase.seen|, s.hooks[h].phase.slot) && DistinctKeys(s.hooks[h])
    ensures s.locks[l] != h && s.locks[l] in s.hooks
    ensures PastSelection(s.hooks[s.locks[l]].phase) <==> !s.hooks[s.locks[l]].phase.Probing?
    ensures h !in s.crowded ==> PastSelection(s.hooks[s.locks[l]].phase)
  {
    WhatIsCounted(s0, steps, s, h, l);
    RunKeepsValid(s0, steps, s);
    DistinctKeysNotOwn(s.hooks[h], l);
  }

  // ----- The decision -----

  ghost predicate FoundAllHeld(k: Hook, m: nat)
    requires k.phase.Probing? && m < |k.machines| && m < |k.phase.held|
  {
    forall t: nat :: t < k.machines[m].maxJobs ==> t in k.phase.held[m]
  }

  /** When all machines are probed: the machine kept is the earliest best one among the enabled machines of the
      right type with a free slot, by what was counted; and if none is kept, every slot of every such machine
      was found held. */
  lemma DecisionIsBest(s0: State, steps: seq<(nat, Act)>, s: State, h: nat)
    requires Initial(s0) && IsRun(s0, steps, s) && Enabled(s, h, Decide)
    ensures var k := s.hooks[h]; var p := k.phase;
            && |p.seen| == |p.held| == |k.enabled| == |k.machines|
            && (forall m :: 0 <= m < |k.machines| ==>
                  (p.seen[m].considered <==> Considered(k.machines[m], k.enabled[m], k.request))
                  && p.seen[m].load == |p.held[m]|)
            && IsBest(p.seen, |p.seen|, if p.best.Some? then Some(p.best.value.machine) else None)
            && (p.best.Some? ==>
                  PickValid(k, p.best.value) && SlotOf(k, p.best.value.machine, p.best.value.slot) in Held(k))
            && (p.best.None? ==> forall m :: 0 <= m < |k.machines| && p.seen[m].considered ==>
                                   FoundAllHeld(k, m))
  {
    RunKeepsValid(s0, steps, s);
    var k := s.hooks[h];
    assert HookValid(k);
    var p := k.phase;
    if p.best.None? {
      forall m | 0 <= m < |k.machines| && p.seen[m].considered
        ensures FoundAllHeld(k, m)
      {
        assert !Offers()((), p.seen[m]);
      }
    }
  }

  // ----- Counting too much -----

  ghost predicate Kept(run: State -> bool) {
    forall s, h, a :: run(s) && Enabled(s, h, a) ==> run(Do(s, h, a))
  }

  ghost function Reached(s0: State): State -> bool {
    s => exists steps :: IsRun(s0, steps, s)
  }

  lemma ReachedIsKept(s0: State)
    ensures Kept(Reached(s0)) && Reached(s0)(s0)
  {
    forall s, h, a | Reached(s0)(s) && Enabled(s, h, a) ensures Reached(s0)(Do(s, h, a)) {
      var steps :| IsRun(s0, steps, s);
      assert (steps + [(h, a)])[..|steps|] == steps;
      assert IsRun(s0, steps + [(h, a)], Do(s, h, a));
    }
    assert IsRun(s0, [], s0);
  }

  const Entered := Probing([], [], 0, None, false, {}, None)

  /** A hook begins to probe, with or without the main lock. */
  lemma EnterNow(run: State -> bool, s: State, h: nat, a: Act) returns (s': State)
    requires Kept(run) && run(s) && Enabled(s, h, a) && Enters(a)
    ensures run(s') && s'.hooks == s.hooks[h := s.hooks[h].(phase := Entered)] && s'.locks == s.locks
  {
    s' := Do(s, h, a);
    assert s'.locks == s.locks;
  }

  lemma BeginNow(run: State -> bool, s: State, h: nat, q: Request) returns (s': State)
    requires Kept(run) && run(s) && h in s.hooks && s.hooks[h].phase.Idle?
    ensures run(s') && s'.hooks == s.hooks[h := s.hooks[h].(phase := Waiting, request := q)]
    ensures s'.locks == s.locks && s'.main == s.main
  {
    s' := Do(s, h, Begin(q));
    assert s'.locks == s.locks;
  }

  /** A hook that has just entered locks the first slot of its first machine. */
  lemma LockFirst(run: State -> bool, s: State, h: nat, l: Lock) returns (s': State)
    requires Kept(run) && run(s) && h in s.hooks && s.hooks[h].phase == Entered && NowConsidered(s.hooks[h])
    requires s.hooks[h].machines[0].maxJobs > 0 && l == SlotOf(s.hooks[h], 0, 0) && l !in s.locks
    ensures run(s') && l in s'.locks && s'.locks[l] == h
    ensures s'.hooks == s.hooks[h := s.hooks[h].(phase := Entered.(free := Some(0), slot := 1))]
  {
    s' := Do(s, h, TrySlot);
  }

  /** Two hooks with one machine, of which the first has locked a slot and the second is waiting. */
  lemma OneHasLocked(run: State -> bool, k: Hook, l: Lock) returns (s: State)
    requires Kept(run) && run(State(map[1 := k, 2 := k], map[], None, false, {}))
    requires k.phase.Idle? && |k.machines| == 1 && k.enabled == [true] && k.machines[0].maxJobs > 0
    requires RightType(k.machines[0], k.request) && l == SlotOf(k, 0, 0)
    ensures run(s) && l in s.locks && s.locks[l] == 1 && 1 in s.hooks && 2 in s.hooks
    ensures s.hooks[1].phase.Probing? && s.hooks[2] == k.(phase := Waiting)
  {
    s := BeginNow(run, State(map[1 := k, 2 := k], map[], None, false, {}), 1, k.request);
    s := BeginNow(run, s, 2, k.request);
    s := EnterNow(run, s, 1, EnterMain);
    s := LockFirst(run, s, 1, l);
  }

  /** If a signal lets a second hook in, it counts a slot that is held by no more than another prober. */
  lemma InterruptionMiscounts(m: Machine, q: Request) returns (s0: State, steps: seq<(nat, Act)>, s: State)
    requires m.maxJobs > 0 && RightType(m, q)
    ensures Initial(s0) && IsRun(s0, steps, s) && Enabled(s, 2, TrySlot)
    ensures var l := SlotOf(s.hooks[2], |s.hooks[2].phase.seen|, s.hooks[2].phase.slot);
            l in s.locks && s.locks[l] == 1 && 1 in s.hooks && s.hooks[1].phase.Probing?
  {
    var k := Hook([m], [true], q, Idle);
    s0 := State(map[1 := k, 2 := k], map[], None, false, {});
    ReachedIsKept(s0);
    s := OneHasLocked(Reached(s0), k, SlotOf(k, 0, 0));
    s := EnterNow(Reached(s0), s, 2, EnterInterrupted);
    steps :| IsRun(s0, steps, s);
  }

  /** The hook has probed its first machine, whose only slot it keeps. */
  lemma FirstMachineKept(run: State -> bool, s: State, h: nat, l: Lock) returns (s': State)
    requires Kept(run) && run(s) && h in s.hooks && s.hooks[h].phase == Entered.(free := Some(0), slot := 1)
    requires NowConsidered(s.hooks[h]) && s.hooks[h].machines[0].maxJobs == 1
    requires l == SlotOf(s.hooks[h], 0, 0) && l in s.locks && s.locks[l] == h
    ensures run(s') && l in s'.locks && s'.locks[l] == h && h in s'.hooks
    ensures s'.hooks[h].machines == s.hooks[h].machines && s'.hooks[h].enabled == s.hooks[h].enabled
    ensures s'.hooks[h].request == s.hooks[h].request
    ensures var p := s'.hooks[h].phase;
            p.Probing? && |p.seen| == 1 && p.slot == 0 && p.free.None? && !p.extra && p.best.Some?
  {
    s' := Do(s, h, EndMachine);
  }

  /** A hook with two machines whose escaped URIs are the same counts the slot that it keeps itself, although it is
      the only hook and holds the main lock. */
  lemma OwnSlotCounted(m: Machine, m': Machine, q: Request) returns (s0: State, steps: seq<(nat, Act)>, s: State)
    requires m.maxJobs == 1 && m'.maxJobs > 0 && RightType(m, q) && RightType(m', q) && KeyOf(m) == KeyOf(m')
    ensures Initial(s0) && IsRun(s0, steps, s) && Enabled(s, 1, TrySlot)
    ensures var l := SlotOf(s.hooks[1], |s.hooks[1].phase.seen|, s.hooks[1].phase.slot); l in s.locks && s.locks[l] == 1
  {
    var k := Hook([m, m'], [true, true], q, Idle);
    s0 := State(map[1 := k], map[], None, false, {});
    ReachedIsKept(s0);
    var run, l := Reached(s0), SlotOf(k, 0, 0);
    s := BeginNow(run, s0, 1, q);
    s := EnterNow(run, s, 1, EnterMain);
    s := LockFirst(run, s, 1, l);
    s := FirstMachineKept(run, s, 1, l);
    steps :| IsRun(s0, steps, s);
  }
}
