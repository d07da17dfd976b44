/** Any number of build hooks sharing the main lock and the slot locks of the remote machines, as a transition
    system. A hook probes all slots under the main lock, keeps the lock of one free slot of the best machine,
    releases the main lock, connects, and builds; it releases the slot when it fails to connect or exits. */
module HookProtocol {
  import opened Basics
  import opened LockNames
  import opened MachineChoice
  import BuildHook

  /** The lock file of a slot. By `LockNames.SlotLockNames` the escaped URI and the number identify it. */
  datatype Lock = Lock(key: string, slot: nat)

  /** The machine a hook has settled on, with the load it counted and the slot it holds. */
  datatype Pick = Pick(machine: nat, load: nat, slot: nat)

  /** `seen` are the machines probed so far; then, for the machine being probed: the next slot, the slot kept,
      whether the lock of the next slot is held for a moment although another one is kept already, and the slots
      that were held. `held` is history: the slots found held on the machines probed before. */
  datatype Phase =
    | Idle
    | Waiting
    | Probing(seen: seq<Probe>, held: seq<set<nat>>, slot: nat, free: Option<nat>, extra: bool, busy: set<nat>,
              best: Option<Pick>)
    | Connecting(pick: Pick)
    | Failed(pick: Pick)
    | Building(pick: Pick)
    | Gone

  datatype Hook = Hook(machines: seq<Machine>, enabled: seq<bool>, request: Request, phase: Phase)

  /** `interrupted` and `crowded` are history: a hook has gone on without the main lock, because a signal ended its
      waiting; and the probing hooks that have not been the only one since they began to probe. */
  datatype State = State(hooks: map<nat, Hook>, locks: map<Lock, nat>, main: Option<nat>, interrupted: bool,
                         crowded: set<nat>)

  datatype Act =
    | Begin(q: Request)
    | EnterMain
    | EnterInterrupted
    | SkipMachine
    | TrySlot
    | DropExtra
    | EndMachine
    | Decide
    | ConnectOk
    | ConnectFail
    | Retry
    | Exit

  function KeyOf(m: Machine): string {
    EscapeUri(m.uri)
  }

  predicate PastSelection(p: Phase) {
    p.Connecting? || p.Failed? || p.Building?
  }

  function SlotOf(k: Hook, i: nat, slot: nat): Lock
    requires i < |k.machines|
  {
    Lock(KeyOf(k.machines[i]), slot)
  }

  predicate PickIn(machines: seq<Machine>, p: Pick) {
    p.machine < |machines| && p.slot < machines[p.machine].maxJobs
  }

  predicate PickValid(k: Hook, p: Pick) {
    PickIn(k.machines, p)
  }

  /** The slot locks a hook's variables say it holds. */
  function Held(k: Hook): set<Lock> {
    match k.phase
    case Probing(seen, _, slot, free, extra, _, best) =>
      (if best.Some? && PickValid(k, best.value) then {SlotOf(k, best.value.machine, best.value.slot)} else {})
      + (if free.Some? && |seen| < |k.machines| then {SlotOf(k, |seen|, free.value)} else {})
      + (if extra && |seen| < |k.machines| then {SlotOf(k, |seen|, slot)} else {})
    case Connecting(p) => if PickValid(k, p) then {SlotOf(k, p.machine, p.slot)} else {}
    case Failed(p) => if PickValid(k, p) then {SlotOf(k, p.machine, p.slot)} else {}
    case Building(p) => if PickValid(k, p) then {SlotOf(k, p.machine, p.slot)} else {}
    case _ => {}
  }

  predicate Now(k: Hook)
  {
    k.phase.Probing? && |k.phase.seen| < |k.machines| && |k.enabled| == |k.machines|
  }

  predicate NowConsidered(k: Hook) {
    Now(k) && Considered(k.machines[|k.phase.seen|], k.enabled[|k.phase.seen|], k.request)
  }

  // ----- One step of one hook -----

  /** The hook after a step, and the slot locks it acquires and releases. */
  datatype Change = Change(hook: Hook, acquire: set<Lock>, release: set<Lock>)

  function ToPhase(k: Hook, p: Phase): Change {
    Change(k.(phase := p), {}, {})
  }

  predicate CanDo(k: Hook, a: Act) {
    match a
    case Begin(_) => k.phase.Idle?
    case EnterMain => k.phase.Waiting?
    case EnterInterrupted => k.phase.Waiting?
    case SkipMachine => Now(k) && !NowConsidered(k) && k.phase.slot == 0 && k.phase.free.None? && !k.phase.extra
    case TrySlot => NowConsidered(k) && k.phase.slot < k.machines[|k.phase.seen|].maxJobs && !k.phase.extra
    case DropExtra => NowConsidered(k) && k.phase.extra
    case EndMachine => NowConsidered(k) && k.phase.slot == k.machines[|k.phase.seen|].maxJobs && !k.phase.extra
    case Decide => k.phase.Probing? && |k.phase.seen| == |k.machines|
    case ConnectOk => k.phase.Connecting?
    case ConnectFail => k.phase.Connecting?
    case Retry => k.phase.Failed?
    case Exit => !k.phase.Gone?
  }

  /** What the probe of the machine just finished has found. */
  function Found(k: Hook): Probe
    requires Now(k)
  {
    var m, load := k.machines[|k.phase.seen|], |k.phase.busy|;
    Probe(true, load, k.phase.free, m.speed, m.pressure(load))
  }

  function TakeSlot(k: Hook, taken: set<Lock>): Change
    requires Now(k)
  {
    var p := k.phase;
    var l := SlotOf(k, |p.seen|, p.slot);
    if l in taken then ToPhase(k, p.(busy := p.busy + {p.slot}, slot := p.slot + 1))
    else if p.free.None? then Change(k.(phase := p.(free := Some(p.slot), slot := p.slot + 1)), {l}, {})
    else Change(k.(phase := p.(extra := true)), {l}, {})
  }

  function FinishMachine(k: Hook): Change
    requires Now(k)
  {
    var p, i, found := k.phase, |k.phase.seen|, Found(k);
    var next := p.(seen := p.seen + [found], held := p.held + [p.busy], slot := 0, free := None, busy := {});
    if p.free.None? then ToPhase(k, next)
    else if p.best.Some? && p.best.value.machine < i && !Beats(found, p.seen[p.best.value.machine]) then
      Change(k.(phase := next), {}, {SlotOf(k, i, p.free.value)})
    else
      Change(k.(phase := next.(best := Some(Pick(i, |p.busy|, p.free.value)))), {},
             if p.best.Some? && PickValid(k, p.best.value)
             then {SlotOf(k, p.best.value.machine, p.best.value.slot)} else {})
  }

  function HookStep(k: Hook, taken: set<Lock>, a: Act): Change
    requires CanDo(k, a)
  {
    var p := k.phase;
    match a
    case Begin(q) => Change(k.(request := q, phase := Waiting), {}, {})
    case EnterMain => ToPhase(k, Probing([], [], 0, None, false, {}, None))
    case EnterInterrupted => ToPhase(k, Probing([], [], 0, None, false, {}, None))
    case SkipMachine => ToPhase(k, p.(seen := p.seen + [Unprobed(k.machines[|p.seen|])], held := p.held + [{}]))
    case TrySlot => TakeSlot(k, taken)
    case DropExtra => Change(k.(phase := p.(extra := false, slot := p.slot + 1)), {}, {SlotOf(k, |p.seen|, p.slot)})
    case EndMachine => FinishMachine(k)
    case Decide => ToPhase(k, if p.best.None? then Idle else Connecting(p.best.value))
    case ConnectOk => ToPhase(k, Building(p.pick))
    case ConnectFail =>
      Change(k.(phase := Failed(p.pick),
                enabled := if p.pick.machine < |k.enabled| then k.enabled[p.pick.machine := false] else k.enabled),
             {}, {})
    case Retry => Change(k.(phase := Waiting), {}, Held(k))
    case Exit => Change(k.(phase := Gone), {}, Held(k))
  }

  // ----- What every step of a hook keeps -----

  /** The pick is the best of the probes. */
  predicate BestOfProbes(machines: seq<Machine>, seen: seq<Probe>, best: Option<Pick>) {
    var b := Best(seen, |seen|);
    && (best.Some? <==> b.Some?)
    && (best.Some? ==>
          && PickIn(machines, best.value) && best.value.machine == b.value
          && best.value.load == seen[b.value].load && seen[b.value].free == Some(best.value.slot))
  }

  predicate BestValid(k: Hook)
    requires k.phase.Probing?
  {
    BestOfProbes(k.machines, k.phase.seen, k.phase.best)
  }

  predicate CurrentValid(k: Hook)
    requires k.phase.Probing?
  {
    var p := k.phase;
    if |p.seen| < |k.machines| then
      && p.slot <= k.machines[|p.seen|].maxJobs
      && (forall t :: t in p.busy ==> t < p.slot)
      && (p.free.Some? ==> p.free.value < p.slot)
      && (p.free.None? ==> forall t: nat :: t < p.slot ==> t in p.busy)
      && (p.extra ==> p.slot < k.machines[|p.seen|].maxJobs && p.free.Some?)
      && (p.free.Some? && p.best.Some? && PickValid(k, p.best.value) ==>
            SlotOf(k, |p.seen|, p.free.value) != SlotOf(k, p.best.value.machine, p.best.value.slot))
      && (p.extra && p.best.Some? && PickValid(k, p.best.value) ==>
            SlotOf(k, |p.seen|, p.slot) != SlotOf(k, p.best.value.machine, p.best.value.slot))
      && (!NowConsidered(k) ==> p.slot == 0 && p.free.None? && !p.extra && p.busy == {})
    else p.slot == 0 && p.free.None? && !p.extra && p.busy == {}
  }

  /** The probes recorded are what was found: the load is the number of slots found held, and a considered
      machine without a free slot had all of them held. */
  predicate ProbesTell(machines: seq<Machine>, enabled: seq<bool>, q: Request, seen: seq<Probe>, held: seq<set<nat>>)
    requires |enabled| == |machines|
  {
    && |seen| <= |machines| && |held| == |seen|
    && forall m :: 0 <= m < |seen| ==>
         && (seen[m].considered <==> Considered(machines[m], enabled[m], q))
         && seen[m].speed == machines[m].speed
         && seen[m].load == |held[m]| && seen[m].pressure == machines[m].pressure(|held[m]|)
         && (forall t :: t in held[m] ==> t < machines[m].maxJobs)
         && (seen[m].considered && seen[m].free.None? ==>
               forall t: nat :: t < machines[m].maxJobs ==> t in held[m])
         && (seen[m].free.Some? ==> seen[m].considered && seen[m].free.value < machines[m].maxJobs)
  }

  predicate SeenValid(k: Hook)
    requires k.phase.Probing? && |k.enabled| == |k.machines|
  {
    ProbesTell(k.machines, k.enabled, k.request, k.phase.seen, k.phase.held)
  }

  predicate HookValid(k: Hook) {
    |k.enabled| == |k.machines|
    && match k.phase
       case Probing(_, _, _, _, _, _, _) => SeenValid(k) && BestValid(k) && CurrentValid(k)
       case Connecting(p) => PickValid(k, p) && Considered(k.machines[p.machine], k.enabled[p.machine], k.request)
       case Failed(p) => PickValid(k, p) && !k.enabled[p.machine]
       case Building(p) => PickValid(k, p) && Considered(k.machines[p.machine], k.enabled[p.machine], k.request)
       case _ => true
  }

  /** A step acquires only free locks and releases only its own, and its variables say so. */
  predicate ChangeValid(k: Hook, taken: set<Lock>, c: Change) {
    HookValid(c.hook) && c.acquire !! taken && c.release <= Held(k) && Held(c.hook) == (Held(k) - c.release) + c.acquire
  }

  /** The locks of the best machine so far and of the slot kept on the machine being probed. */
  function BestLock(k: Hook): set<Lock>
    requires k.phase.Probing?
  {
    if k.phase.best.Some? && PickValid(k, k.phase.best.value)
    then {SlotOf(k, k.phase.best.value.machine, k.phase.best.value.slot)} else {}
  }

  function FreeLock(k: Hook): set<Lock>
    requires k.phase.Probing?
  {
    if k.phase.free.Some? && |k.phase.seen| < |k.machines| then {SlotOf(k, |k.phase.seen|, k.phase.free.value)} else {}
  }

  lemma HeldWithoutExtra(k: Hook)
    requires k.phase.Probing? && !k.phase.extra
    ensures Held(k) == BestLock(k) + FreeLock(k)
  {
  }

  lemma SkipSeen(k: Hook, p: Phase)
    requires HookValid(k) && CanDo(k, SkipMachine) && p.Probing? && p.held == k.phase.held + [{}]
    requires p.seen == k.phase.seen + [Unprobed(k.machines[|k.phase.seen|])]
    ensures ProbesTell(k.machines, k.enabled, k.request, p.seen, p.held)
  {
    var i := |k.phase.seen|;
    forall m | 0 <= m < i ensures p.seen[m] == k.phase.seen[m] && p.held[m] == k.phase.held[m] {}
    assert p.seen[i] == Unprobed(k.machines[i]) && p.held[i] == {};
  }

  lemma SkipKeeps(k: Hook, taken: set<Lock>)
    requires HookValid(k) && CanDo(k, SkipMachine)
    ensures ChangeValid(k, taken, HookStep(k, taken, SkipMachine))
  {
    var k' := HookStep(k, taken, SkipMachine).hook;
    SkipSeen(k, k'.phase);
    BestGrows(k.phase.seen, Unprobed(k.machines[|k.phase.seen|]));
    assert BestValid(k') && CurrentValid(k');
  }

  lemma TryHeldCurrent(k: Hook, k': Hook)
    requires k.phase.Probing? && CurrentValid(k) && CanDo(k, TrySlot)
    requires k' == k.(phase := k.phase.(busy := k.phase.busy + {k.phase.slot}, slot := k.phase.slot + 1))
    ensures CurrentValid(k') && Held(k') == Held(k)
  {
    assert NowConsidered(k') && BestLock(k') == BestLock(k) && FreeLock(k') == FreeLock(k);
    HeldWithoutExtra(k);
    HeldWithoutExtra(k');
  }

  lemma TryHeldKeeps(k: Hook, taken: set<Lock>, l: Lock)
    requires HookValid(k) && CanDo(k, TrySlot) && l == SlotOf(k, |k.phase.seen|, k.phase.slot) && l in taken
    ensures ChangeValid(k, taken, HookStep(k, taken, TrySlot))
  {
    var k' := HookStep(k, taken, TrySlot).hook;
    TryHeldCurrent(k, k');
    assert SeenValid(k') && BestValid(k');
  }

  lemma TryFirstCurrent(k: Hook, k': Hook, l: Lock)
    requires k.phase.Probing? && CurrentValid(k) && CanDo(k, TrySlot) && k.phase.free.None?
    requires l == SlotOf(k, |k.phase.seen|, k.phase.slot) && l !in Held(k)
    requires k' == k.(phase := k.phase.(free := Some(k.phase.slot), slot := k.phase.slot + 1))
    ensures CurrentValid(k') && Held(k') == Held(k) + {l}
  {
    assert NowConsidered(k') && BestLock(k') == BestLock(k);
    HeldWithoutExtra(k);
    HeldWithoutExtra(k');
  }

  lemma TryFirstKeeps(k: Hook, taken: set<Lock>, l: Lock)
    requires HookValid(k) && CanDo(k, TrySlot) && l == SlotOf(k, |k.phase.seen|, k.phase.slot) && l !in taken
    requires Held(k) <= taken && k.phase.free.None?
    ensures ChangeValid(k, taken, HookStep(k, taken, TrySlot))
  {
    var k' := HookStep(k, taken, TrySlot).hook;
    TryFirstCurrent(k, k', l);
    assert SeenValid(k') && BestValid(k');
  }

  lemma TryExtraKeeps(k: Hook, taken: set<Lock>, l: Lock)
    requires HookValid(k) && CanDo(k, TrySlot) && l == SlotOf(k, |k.phase.seen|, k.phase.slot) && l !in taken
    requires Held(k) <= taken && k.phase.free.Some?
    ensures ChangeValid(k, taken, HookStep(k, taken, TrySlot))
  {
    var k' := HookStep(k, taken, TrySlot).hook;
    assert Held(k') == Held(k) + {l};
    assert SeenValid(k') && BestValid(k');
  }

  lemma TryKeeps(k: Hook, taken: set<Lock>)
    requires HookValid(k) && CanDo(k, TrySlot) && Held(k) <= taken
    ensures ChangeValid(k, taken, HookStep(k, taken, TrySlot))
  {
    var l := SlotOf(k, |k.phase.seen|, k.phase.slot);
    if l in taken { TryHeldKeeps(k, taken, l); }
    else if k.phase.free.None? { TryFirstKeeps(k, taken, l); }
    else { TryExtraKeeps(k, taken, l); }
  }

  lemma DropKeeps(k: Hook, taken: set<Lock>)
    requires HookValid(k) && CanDo(k, DropExtra)
    ensures ChangeValid(k, taken, HookStep(k, taken, DropExtra))
  {
  }

  lemma EndSeen(k: Hook, p: Phase)
    requires HookValid(k) && CanDo(k, EndMachine) && p.Probing? && p.seen == k.phase.seen + [Found(k)]
    requires p.held == k.phase.held + [k.phase.busy] && p.slot == 0 && p.free.None? && !p.extra && p.busy == {}
    ensures var k' := k.(phase := p); SeenValid(k') && CurrentValid(k')
  {
    var k' := k.(phase := p);
    var i := |k.phase.seen|;
    forall m | 0 <= m < i ensures p.seen[m] == k.phase.seen[m] && p.held[m] == k.phase.held[m] {}
    assert p.seen[i] == Found(k) && p.held[i] == k.phase.busy;
  }

  lemma EndBest(k: Hook, c: Change)
    requires HookValid(k) && CanDo(k, EndMachine) && c == FinishMachine(k)
    ensures c.hook.phase.Probing? && BestValid(c.hook)
  {
    BestGrows(k.phase.seen, Found(k));
  }

  lemma EndReleases(k: Hook, c: Change)
    requires HookValid(k) && CanDo(k, EndMachine) && c == FinishMachine(k)
    ensures c.hook.phase.Probing? && !c.hook.phase.extra && c.acquire == {} && FreeLock(c.hook) == {}
    ensures BestLock(c.hook) == (BestLock(k) + FreeLock(k)) - c.release && c.release <= BestLock(k) + FreeLock(k)
  {
    if k.phase.free.None? {
      assert c.release == {} && BestLock(c.hook) == BestLock(k);
    } else if c.hook.phase.best == k.phase.best {
      assert c.release == FreeLock(k) && BestLock(c.hook) == BestLock(k);
    } else {
      assert c.release == BestLock(k) && BestLock(c.hook) == FreeLock(k);
    }
  }

  lemma EndHeld(k: Hook, c: Change)
    requires HookValid(k) && CanDo(k, EndMachine) && c == FinishMachine(k)
    ensures c.release <= Held(k) && Held(c.hook) == Held(k) - c.release && c.acquire == {}
  {
    EndReleases(k, c);
    HeldWithoutExtra(k);
    HeldWithoutExtra(c.hook);
  }

  lemma EndKeeps(k: Hook, taken: set<Lock>, c: Change)
    requires HookValid(k) && CanDo(k, EndMachine) && c == FinishMachine(k)
    ensures ChangeValid(k, taken, c)
  {
    EndSeen(k, c.hook.phase);
    EndBest(k, c);
    EndHeld(k, c);
  }

  predicate ProbesNothing(a: Act) {
    !a.SkipMachine? && !a.TrySlot? && !a.DropExtra? && !a.EndMachine?
  }

  lemma OtherHeld(k: Hook, taken: set<Lock>, a: Act, c: Change)
    requires HookValid(k) && CanDo(k, a) && ProbesNothing(a) && c == HookStep(k, taken, a)
    ensures c.acquire == {} && c.release <= Held(k) && Held(c.hook) == Held(k) - c.release
  {
  }

  /** The machine a hook decides for is one it has considered. */
  lemma DecidesForConsidered(k: Hook)
    requires HookValid(k) && CanDo(k, Decide) && k.phase.best.Some?
    ensures var m := k.phase.best.value.machine; m < |k.machines| && Considered(k.machines[m], k.enabled[m], k.request)
  {
    var b := Best(k.phase.seen, |k.phase.seen|);
    assert Offers()((), k.phase.seen[b.value]);
  }

  lemma OtherKeeps(k: Hook, taken: set<Lock>, a: Act, c: Change)
    requires HookValid(k) && CanDo(k, a) && ProbesNothing(a) && c == HookStep(k, taken, a)
    ensures ChangeValid(k, taken, c)
  {
    OtherHeld(k, taken, a, c);
    if a.Decide? && k.phase.best.Some? { DecidesForConsidered(k); }
  }

  lemma StepKeepsHook(k: Hook, taken: set<Lock>, a: Act)
    requires HookValid(k) && CanDo(k, a) && Held(k) <= taken
    ensures ChangeValid(k, taken, HookStep(k, taken, a))
  {
    if a.SkipMachine? { SkipKeeps(k, taken); }
    else if a.TrySlot? { TryKeeps(k, taken); }
    else if a.DropExtra? { DropKeeps(k, taken); }
    else if a.EndMachine? { EndKeeps(k, taken, FinishMachine(k)); }
    else { OtherKeeps(k, taken, a, HookStep(k, taken, a)); }
  }

  // ----- All hooks together -----

  predicate Enabled(s: State, h: nat, a: Act) {
    h in s.hooks && CanDo(s.hooks[h], a) && (a.EnterMain? ==> s.main.None?)
  }

  function LocksAfter(locks: map<Lock, nat>, h: nat, c: Change): map<Lock, nat> {
    map l | l in (locks.Keys - c.release) + c.acquire :: if l in c.acquire then h else locks[l]
  }

  /** The hooks that are probing, apart from h. */
  function OtherProbers(s: State, h: nat): set<nat> {
    set g | g in s.hooks && g != h && s.hooks[g].phase.Probing?
  }

  function CrowdedAfter(s: State, h: nat, a: Act): set<nat> {
    if a.EnterMain? || a.EnterInterrupted? then
      if OtherProbers(s, h) == {} then s.crowded - {h} else s.crowded + OtherProbers(s, h) + {h}
    else if a.Decide? || a.Exit? then s.crowded - {h}
    else s.crowded
  }

  function Do(s: State, h: nat, a: Act): State
    requires Enabled(s, h, a)
  {
    var c := HookStep(s.hooks[h], s.locks.Keys, a);
    State(s.hooks[h := c.hook],
          LocksAfter(s.locks, h, c),
          if a.EnterMain? then Some(h) else if s.main == Some(h) && (a.Decide? || a.Exit?) then None else s.main,
          s.interrupted || a.EnterInterrupted?,
          CrowdedAfter(s, h, a))
  }

  /** The lock table agrees with what every hook says it holds. */
  ghost predicate TableValid(locks: map<Lock, nat>, held: map<nat, set<Lock>>) {
    (forall l :: l in locks ==> locks[l] in held && l in held[locks[l]])
    && (forall h, l :: h in held && l in held[h] ==> l in locks && locks[l] == h)
  }

  function HeldBy(hooks: map<nat, Hook>): map<nat, set<Lock>> {
    map h | h in hooks :: Held(hooks[h])
  }

  /** The lock table and the hooks' variables agree. */
  ghost predicate LocksValid(s: State) {
    TableValid(s.locks, HeldBy(s.hooks))
  }

  ghost predicate MainValid(s: State) {
    (s.main.Some? ==> s.main.value in s.hooks && s.hooks[s.main.value].phase.Probing?)
    && (!s.interrupted ==> forall h :: h in s.hooks && s.hooks[h].phase.Probing? ==> s.main == Some(h))
  }

  ghost predicate HooksValid(s: State) {
    forall h :: h in s.hooks ==> HookValid(s.hooks[h])
  }

  ghost predicate Valid(s: State) {
    HooksValid(s) && LocksValid(s) && MainValid(s)
  }

  ghost predicate Initial(s: State) {
    s.locks == map[] && s.main.None? && !s.interrupted && s.crowded == {}
    && forall h :: h in s.hooks ==> s.hooks[h].phase.Idle? && |s.hooks[h].enabled| == |s.hooks[h].machines|
  }

  lemma TableStep(locks: map<Lock, nat>, held: map<nat, set<Lock>>, h: nat, acquire: set<Lock>, release: set<Lock>,
                  locks': map<Lock, nat>, held': map<nat, set<Lock>>)
    requires TableValid(locks, held) && h in held && acquire !! locks.Keys && release <= held[h]
    requires held' == held[h := (held[h] - release) + acquire]
    requires locks'.Keys == (locks.Keys - release) + acquire
    requires forall l :: l in locks' ==> locks'[l] == if l in acquire then h else locks[l]
    ensures TableValid(locks', held')
  {
    forall l | l in release ensures l in locks && locks[l] == h { assert l in held[h]; }
    forall l | l in locks' ensures locks'[l] in held' && l in held'[locks'[l]] {
      if l !in acquire { assert locks[l] in held && l in held[locks[l]]; }
    }
    forall g, l | g in held' && l in held'[g] ensures l in locks' && locks'[l] == g {
      if g != h {
        assert l in held[g] && l in locks && locks[l] == g;
      } else if l !in acquire {
        assert l in held[h];
      }
    }
  }

  lemma ChangeKeepsLocks(s: State, h: nat, c: Change, s': State)
    requires LocksValid(s) && h in s.hooks && ChangeValid(s.hooks[h], s.locks.Keys, c)
    requires s'.hooks == s.hooks[h := c.hook] && s'.locks == LocksAfter(s.locks, h, c)
    ensures LocksValid(s')
  {
    var held, held' := HeldBy(s.hooks), HeldBy(s'.hooks);
    assert held[h] == Held(s.hooks[h]) && held' == held[h := Held(c.hook)];
    TableStep(s.locks, held, h, c.acquire, c.release, s'.locks, held');
  }

  lemma ChangeKeepsHooks(s: State, h: nat, c: Change, s': State)
    requires HooksValid(s) && h in s.hooks && HookValid(c.hook) && s'.hooks == s.hooks[h := c.hook]
    ensures HooksValid(s')
  {
  }

  lemma HeldIsTaken(s: State, h: nat)
    requires LocksValid(s) && h in s.hooks
    ensures Held(s.hooks[h]) <= s.locks.Keys
  {
    assert HeldBy(s.hooks)[h] == Held(s.hooks[h]);
  }

  lemma StepKeepsMain(s: State, h: nat, a: Act)
    requires MainValid(s) && Enabled(s, h, a)
    ensures MainValid(Do(s, h, a))
  {
  }

  lemma StepKeepsValid(s: State, h: nat, a: Act)
    requires Valid(s) && Enabled(s, h, a)
    ensures Valid(Do(s, h, a)) && ChangeValid(s.hooks[h], s.locks.Keys, HookStep(s.hooks[h], s.locks.Keys, a))
  {
    var k, s' := s.hooks[h], Do(s, h, a);
    HeldIsTaken(s, h);
    StepKeepsHook(k, s.locks.Keys, a);
    var c := HookStep(k, s.locks.Keys, a);
    ChangeKeepsLocks(s, h, c, s');
    ChangeKeepsHooks(s, h, c, s');
    StepKeepsMain(s, h, a);
  }

  // ----- Runs -----

  ghost predicate IsRun(s0: State, steps: seq<(nat, Act)>, s: State) {
    if steps == [] then s == s0
    else
      var front, h, a := steps[..|steps| - 1], steps[|steps| - 1].0, steps[|steps| - 1].1;
      exists t :: IsRun(s0, front, t) && Enabled(t, h, a) && s == Do(t, h, a)
  }

  /** In every interleaving of any number of hooks, with signals and crashes at any time, the lock table and the
      hooks' variables agree. */
  lemma {:induction false} RunKeepsValid(s0: State, steps: seq<(nat, Act)>, s: State)
    requires Initial(s0) && IsRun(s0, steps, s)
    ensures Valid(s)
  {
    if steps != [] {
      var front, h, a := steps[..|steps| - 1], steps[|steps| - 1].0, steps[|steps| - 1].1;
      var t :| IsRun(s0, front, t) && Enabled(t, h, a) && s == Do(t, h, a);
      RunKeepsValid(s0, front, t);
      StepKeepsValid(t, h, a);
    }
  }

  lemma HeldDisjoint(s: State, g: nat, h: nat)
    requires LocksValid(s) && g in s.hooks && h in s.hooks && g != h
    ensures Held(s.hooks[g]) !! Held(s.hooks[h])
  {
    var held := HeldBy(s.hooks);
    assert held[g] == Held(s.hooks[g]) && held[h] == Held(s.hooks[h]);
    forall l | l in held[g] ensures l !in held[h] { assert s.locks[l] == g; }
  }

  /** The hook holds exactly the slot it has picked. */
  ghost predicate HoldsItsSlot(s: State, h: nat)
    requires h in s.hooks && PastSelection(s.hooks[h].phase)
  {
    var k := s.hooks[h];
    var p := k.phase.pick;
    PickValid(k, p) && Held(k) == {SlotOf(k, p.machine, p.slot)}
    && SlotOf(k, p.machine, p.slot) in s.locks && s.locks[SlotOf(k, p.machine, p.slot)] == h
  }

  lemma OneSlot(s: State, h: nat)
    requires LocksValid(s) && h in s.hooks && HookValid(s.hooks[h]) && PastSelection(s.hooks[h].phase)
    ensures HoldsItsSlot(s, h)
  {
    var k := s.hooks[h];
    assert HeldBy(s.hooks)[h] == Held(k) && SlotOf(k, k.phase.pick.machine, k.phase.pick.slot) in Held(k);
  }

  /** No two hooks hold the same slot, and a hook past selection holds exactly one: a slot of its machine. */
  lemma SlotsAreExclusive(s0: State, steps: seq<(nat, Act)>, s: State, g: nat, h: nat)
    requires Initial(s0) && IsRun(s0, steps, s) && g in s.hooks && h in s.hooks
    ensures g != h ==> Held(s.hooks[g]) !! Held(s.hooks[h])
    ensures PastSelection(s.hooks[h].phase) ==> HoldsItsSlot(s, h)
  {
    RunKeepsValid(s0, steps, s);
    if g != h { HeldDisjoint(s, g, h); }
    if PastSelection(s.hooks[h].phase) { OneSlot(s, h); }
  }

  // ----- Eligible machines -----

  /** A hook connects to and builds on machines only that are enabled and of the right type. */
  lemma OnlyEligibleMachines(s0: State, steps: seq<(nat, Act)>, s: State, h: nat)
    requires Initial(s0) && IsRun(s0, steps, s) && h in s.hooks
      && (s.hooks[h].phase.Connecting? || s.hooks[h].phase.Building?)
    ensures var k := s.hooks[h]; var m := k.phase.pick.machine;
            m < |k.machines| && |k.enabled| == |k.machines| && Considered(k.machines[m], k.enabled[m], k.request)
  {
    RunKeepsValid(s0, steps, s);
    assert HookValid(s.hooks[h]);
  }

  lemma EnabledStep(k: Hook, taken: set<Lock>, a: Act)
    requires HookValid(k) && CanDo(k, a)
    ensures var after := HookStep(k, taken, a).hook.enabled;
            if a.ConnectFail?
            then k.phase.pick.machine < |k.enabled| && after == k.enabled[k.phase.pick.machine := false]
            else after == k.enabled
  {
  }

  /** A failed connection leaves its hook with one enabled machine less, and no step ever enables one, so a hook
      fails to connect at most once per machine. */
  lemma EnabledOnlyShrink(s0: State, steps: seq<(nat, Act)>, s: State, h: nat, a: Act)
    requires Initial(s0) && IsRun(s0, steps, s) && Enabled(s, h, a)
    ensures var before, after := s.hooks[h].enabled, Do(s, h, a).hooks[h].enabled;
            if a.ConnectFail? then BuildHook.EnabledCount(after) == BuildHook.EnabledCount(before) - 1
            else after == before
  {
    RunKeepsValid(s0, steps, s);
    var k := s.hooks[h];
    assert HookValid(k);
    EnabledStep(k, s.locks.Keys, a);
    if a.ConnectFail? { BuildHook.DisableOne(k.enabled, k.phase.pick.machine); }
  }

  // ----- Capacity -----

  /** The hooks connecting to or building on the machines with one escaped URI. */
  ghost function Users(s: State, key: string): set<nat> {
    set h | h in s.hooks && PastSelection(s.hooks[h].phase) && PickValid(s.hooks[h], s.hooks[h].phase.pick)
            && KeyOf(s.hooks[h].machines[s.hooks[h].phase.pick.machine]) == key
  }

  lemma {:induction false} Pigeonhole(hs: set<nat>, slot: map<nat, nat>, n: nat)
    requires forall h :: h in hs ==> h in slot && slot[h] < n
    requires forall g, h :: g in hs && h in hs && g != h ==> slot[g] != slot[h]
    ensures |hs| <= n
  {
    if n == 0 {
      assert forall h :: h !in hs;
    } else if h :| h in hs && slot[h] == n - 1 {
      Pigeonhole(hs - {h}, slot, n - 1);
    } else {
      Pigeonhole(hs, slot, n - 1);
    }
  }

  /** At most `maxJobs` hooks are connecting to or building on a machine at any time, in every run, whether or not
      the main lock was honoured. If several entries share an escaped URI, they share its slots. */
  lemma Capacity(s0: State, steps: seq<(nat, Act)>, s: State, key: string, jobs: nat)
    requires Initial(s0) && IsRun(s0, steps, s)
    requires forall h, m :: h in s.hooks && 0 <= m < |s.hooks[h].machines| && KeyOf(s.hooks[h].machines[m]) == key ==>
               s.hooks[h].machines[m].maxJobs <= jobs
    ensures |Users(s, key)| <= jobs
  {
    var us := Users(s, key);
    var slot := map h | h in us :: s.hooks[h].phase.pick.slot;
    forall g, h | g in us && h in us && g != h ensures slot[g] != slot[h] {
      SlotsAreExclusive(s0, steps, s, g, h);
      SlotsAreExclusive(s0, steps, s, h, g);
    }
    Pigeonhole(us, slot, jobs);
  }
}
