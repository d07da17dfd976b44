/** Concurrent changes of one profile. Every process reads the profile link (its token), then the installed
    elements, computes the new elements, and under the profile lock commits them only if the link still is
    its token; otherwise it starts again. Generations may be deleted and the link may be switched to another
    generation by other commands, which take the lock too. A signal that arrives while a process waits for the
    lock lets it go on without: the call returns, and nobody looks at its result. Other commands change the
    profile without looking at the lock at all. */
module ProfileTransactions {
  import opened Basics
  import opened Packages

  type Manifest = seq<Package>

  /** Which lists the operation of a process may turn a list of installed elements into. */
  type Operations = (nat, Manifest, Manifest) -> bool

  datatype Directory = Directory(gens: map<nat, Manifest>, link: Option<nat>)

  /** The elements seen through a link; a profile that does not exist shows none. */
  function At(gens: map<nat, Manifest>, link: Option<nat>): Manifest {
    if link.Some? && link.value in gens then gens[link.value] else []
  }

  function Current(d: Directory): Manifest {
    At(d.gens, d.link)
  }

  /** What a process has computed: its token, the elements it has read and the new ones. `from` and `since` are
      history: the number of events when the token and when the elements were read. So is `at`: where the link
      was when the elements were read. */
  datatype Plan = Plan(token: Option<nat>, from: nat, at: Option<nat>, since: nat, basis: Manifest, next: Manifest)

  /** The generation for the new elements. `checked` and `picked` are history: the number of events when the token was
      found unchanged and when the number of the generation was picked. */
  datatype Work = Work(checked: nat, gen: nat, picked: nat)

  /** Where a process is. */
  datatype Process =
    | Ready
    | HasToken(token: Option<nat>, from: nat)
    | Planned(plan: Plan)
    | Locked(plan: Plan)
    | Checked(plan: Plan, checked: nat)
    | Picked(plan: Plan, work: Work, isNew: bool)
    | Created(plan: Plan, work: Work)
    | Finished
    | Stopped

  /** What has happened to the profile, with the elements shown after it: a commit, a generation that was made,
      generations that were removed, a switch to another generation, and changes without the lock. `was` is where the
      link was before a commit. */
  datatype Event =
    | Commit(pid: nat, plan: Plan, work: Work, was: Option<nat>, after: Manifest)
    | Made(pid: nat, number: nat, after: Manifest)
    | Removed(numbers: set<nat>, after: Manifest)
    | Switched(back: bool, after: Manifest)
    | Meddled(numbers: set<nat>, after: Manifest)

  /** `log` is history. */
  datatype State = State(dir: Directory, lock: Option<nat>, procs: map<nat, Process>, log: seq<Event>)

  datatype Act =
    | TakeToken
    | ReadAndPlan(next: Manifest)
    | LockProfile
    | LockInterrupted
    | CheckToken
    | PickNumber
    | MakeGeneration
    | SwitchLink
    | Stop

  /** A step of a process, or of another command: deleting generations, switching to a generation, or any change
      of some generations and of the link by somebody who does not hold the lock. */
  datatype Move =
    | By(p: nat, a: Act)
    | Delete(numbers: set<nat>)
    | SwitchTo(gen: nat)
    | Meddle(numbers: set<nat>, contents: map<nat, Manifest>, link: Option<nat>)

  predicate Before(a: Option<nat>, b: Option<nat>) {
    b.Some? && (a.None? || a.value < b.value)
  }

  ghost function Greatest(numbers: set<nat>): (m: nat)
    requires numbers != {}
    ensures m in numbers && forall n :: n in numbers ==> n <= m
  {
    var n :| n in numbers;
    if numbers == {n} then n
    else
      var m := Greatest(numbers - {n});
      assert forall k :: k in numbers ==> k == n || k in numbers - {n};
      if n < m then m else n
  }

  /** The generation a commit points the link at: the last one if it already holds the same elements,
      otherwise a new one with the next number. */
  ghost function NextGeneration(gens: map<nat, Manifest>, next: Manifest): (g: nat)
    ensures forall n :: n in gens ==> n <= g
    ensures g in gens ==> gens[g] == next
  {
    if gens.Keys == {} then 1
    else
      var last := Greatest(gens.Keys);
      if gens[last] == next then last else last + 1
  }

  // ----- Steps -----

  predicate CanDo(op: Operations, s: State, p: nat, t: Process, a: Act) {
    match a
    case TakeToken => t.Ready?
    case ReadAndPlan(next) => t.HasToken? && op(p, Current(s.dir), next)
    case LockProfile => t.Planned? && s.lock.None?
    case LockInterrupted => t.Planned?
    case CheckToken => t.Locked?
    case PickNumber => t.Checked?
    case MakeGeneration => t.Picked?
    case SwitchLink => t.Created?
    case Stop => !t.Finished?
  }

  /** Steps that leave a trace: a new generation is made, or the link is switched. */
  predicate LeavesTrace(t: Process, a: Act) {
    (a.MakeGeneration? && t.Picked? && t.isNew) || (a.SwitchLink? && t.Created?)
  }

  function Released(lock: Option<nat>, p: nat): Option<nat> {
    if lock == Some(p) then None else lock
  }

  /** The process after a step that leaves no trace. */
  ghost function Moved(s: State, t: Process, a: Act): Process {
    match a
    case TakeToken => HasToken(s.dir.link, |s.log|)
    case ReadAndPlan(next) =>
      if t.HasToken? then Planned(Plan(t.token, t.from, s.dir.link, |s.log|, Current(s.dir), next)) else t
    case LockProfile => if t.Planned? then Locked(t.plan) else t
    case LockInterrupted => if t.Planned? then Locked(t.plan) else t
    case CheckToken =>
      if !t.Locked? then t else if s.dir.link == t.plan.token then Checked(t.plan, |s.log|) else Ready
    case PickNumber =>
      if !t.Checked? then t
      else
        var g := NextGeneration(s.dir.gens, t.plan.next);
        Picked(t.plan, Work(t.checked, g, |s.log|), g !in s.dir.gens)
    case MakeGeneration => if t.Picked? then Created(t.plan, t.work) else t
    case SwitchLink => t
    case Stop => Stopped
  }

  function LockAfter(s: State, p: nat, t: Process, a: Act): Option<nat> {
    if a.LockProfile? then Some(p)
    else if a.Stop? || (a.CheckToken? && t.Locked? && s.dir.link != t.plan.token) then Released(s.lock, p)
    else s.lock
  }

  ghost function Silent(s: State, p: nat, t: Process, a: Act): State {
    s.(procs := s.procs[p := Moved(s, t, a)], lock := LockAfter(s, p, t, a))
  }

  function MadeDir(d: Directory, gen: nat, next: Manifest): Directory {
    Directory(d.gens[gen := next], d.link)
  }

  function Make(s: State, p: nat, t: Process): State
    requires t.Picked?
  {
    var d := MadeDir(s.dir, t.work.gen, t.plan.next);
    State(d, s.lock, s.procs[p := Created(t.plan, t.work)], s.log + [Made(p, t.work.gen, Current(d))])
  }

  function LinkedDir(d: Directory, gen: nat): Directory {
    Directory(d.gens, Some(gen))
  }

  function CommitOf(d: Directory, p: nat, t: Process): Event
    requires t.Created?
  {
    Commit(p, t.plan, t.work, d.link, Current(LinkedDir(d, t.work.gen)))
  }

  function CommitPlan(s: State, p: nat, t: Process): State
    requires t.Created?
  {
    State(LinkedDir(s.dir, t.work.gen), Released(s.lock, p), s.procs[p := Finished], s.log + [CommitOf(s.dir, p, t)])
  }

  function Outside(s: State, d: Directory, e: Event): State {
    State(d, s.lock, s.procs, s.log + [e])
  }

  function RemovedDir(d: Directory, numbers: set<nat>): Directory {
    Directory(d.gens - numbers, d.link)
  }

  function MeddledDir(d: Directory, numbers: set<nat>, contents: map<nat, Manifest>, link: Option<nat>): Directory {
    Directory((d.gens - numbers) + contents, link)
  }

  ghost predicate Enabled(op: Operations, s: State, m: Move) {
    match m
    case By(p, a) => p in s.procs && CanDo(op, s, p, s.procs[p], a)
    case Delete(numbers) => s.lock.None? && (s.dir.link.Some? ==> s.dir.link.value !in numbers)
    case SwitchTo(gen) => s.lock.None? && gen in s.dir.gens
    case Meddle(numbers, contents, _) => contents.Keys <= numbers
  }

  ghost function Do(s: State, m: Move): State {
    match m
    case By(p, a) =>
      if p !in s.procs then s
      else if !LeavesTrace(s.procs[p], a) then Silent(s, p, s.procs[p], a)
      else if a.MakeGeneration? then Make(s, p, s.procs[p])
      else CommitPlan(s, p, s.procs[p])
    case Delete(numbers) =>
      var d := RemovedDir(s.dir, numbers);
      Outside(s, d, Removed(numbers, Current(d)))
    case SwitchTo(gen) =>
      var d := LinkedDir(s.dir, gen);
      Outside(s, d, Switched(Before(Some(gen), s.dir.link), Current(d)))
    case Meddle(numbers, contents, link) =>
      var d := MeddledDir(s.dir, numbers, contents, link);
      Outside(s, d, Meddled(numbers, Current(d)))
  }

  ghost predicate IsRun(op: Operations, s0: State, moves: seq<Move>, s: State) {
    if moves == [] then s == s0
    else
      var front, m := moves[..|moves| - 1], moves[|moves| - 1];
      exists t :: IsRun(op, s0, front, t) && Enabled(op, t, m) && s == Do(t, m)
  }

  ghost predicate Initial(s: State) {
    (s.dir.link.Some? ==> s.dir.link.value in s.dir.gens)
    && s.lock.None? && s.log == []
    && forall p :: p in s.procs ==> s.procs[p].Ready?
  }

  // ----- What an event changes -----

  predicate Touches(e: Event, n: nat) {
    match e
    case Made(_, number, _) => number == n
    case Removed(numbers, _) => n in numbers
    case Meddled(numbers, _) => n in numbers
    case _ => false
  }

  predicate MovesLink(e: Event) {
    e.Commit? || e.Switched? || e.Meddled?
  }

  predicate SameAt(a: map<nat, Manifest>, b: map<nat, Manifest>, n: nat) {
    (n in a <==> n in b) && (n in a ==> a[n] == b[n])
  }

  /** e describes what has changed between two states of the directory. */
  ghost predicate Describes(e: Event, d: Directory, d': Directory) {
    && (forall n :: !Touches(e, n) ==> SameAt(d.gens, d'.gens, n))
    && (!MovesLink(e) ==> d'.link == d.link)
    && e.after == Current(d')
  }

  /** From the i-th event on, nothing was done to the generation that the link `at` names. */
  ghost predicate Untouched(log: seq<Event>, i: nat, at: Option<nat>) {
    at.Some? ==> forall k :: i <= k < |log| ==> !Touches(log[k], at.value)
  }

  /** From the i-th event on, the link was not moved. */
  ghost predicate Unmoved(log: seq<Event>, i: nat) {
    forall k :: i <= k < |log| ==> !MovesLink(log[k])
  }

  /** From the i-th event on, nobody but process p has done anything to generation n. */
  ghost predicate OwnOnly(log: seq<Event>, p: nat, n: nat, i: nat) {
    forall k :: i <= k < |log| && Touches(log[k], n) ==> log[k].Made? && log[k].pid == p
  }

  lemma UntouchedGrows(log: seq<Event>, e: Event, i: nat, at: Option<nat>)
    requires i <= |log|
    ensures Untouched(log + [e], i, at) <==> Untouched(log, i, at) && (at.Some? ==> !Touches(e, at.value))
  {
    assert (log + [e])[|log|] == e;
    assert forall k :: 0 <= k < |log| ==> (log + [e])[k] == log[k];
  }

  lemma UnmovedGrows(log: seq<Event>, e: Event, i: nat)
    requires i <= |log|
    ensures Unmoved(log + [e], i) <==> Unmoved(log, i) && !MovesLink(e)
  {
    assert (log + [e])[|log|] == e;
    assert forall k :: 0 <= k < |log| ==> (log + [e])[k] == log[k];
  }

  lemma OwnOnlyGrows(log: seq<Event>, e: Event, p: nat, n: nat, i: nat)
    requires i <= |log|
    ensures OwnOnly(log + [e], p, n, i) <==> OwnOnly(log, p, n, i) && (Touches(e, n) ==> e.Made? && e.pid == p)
  {
    assert (log + [e])[|log|] == e;
    assert forall k :: 0 <= k < |log| ==> (log + [e])[k] == log[k];
  }

  // ----- What every step of every run keeps -----

  /** As long as nothing is done to the generation that was read, it holds the elements that were read. */
  ghost predicate PlanValid(op: Operations, d: Directory, log: seq<Event>, p: nat, plan: Plan) {
    && op(p, plan.basis, plan.next) && plan.since <= |log|
    && (Untouched(log, plan.since, plan.at) ==> At(d.gens, plan.at) == plan.basis)
  }

  /** The generation holds the new elements. */
  predicate Holds(d: Directory, gen: nat, next: Manifest) {
    gen in d.gens && d.gens[gen] == next
  }

  /** As long as the link is not moved after the check, it is the token. */
  ghost predicate CheckValid(d: Directory, log: seq<Event>, token: Option<nat>, checked: nat) {
    checked <= |log| && (Unmoved(log, checked) ==> d.link == token)
  }

  /** As long as nobody else does anything to its generation, that is in place. */
  ghost predicate WorkValid(d: Directory, log: seq<Event>, p: nat, next: Manifest, work: Work, inPlace: bool) {
    work.picked <= |log| && (inPlace && OwnOnly(log, p, work.gen, work.picked) ==> Holds(d, work.gen, next))
  }

  ghost predicate ProcessValid(op: Operations, d: Directory, log: seq<Event>, p: nat, t: Process) {
    match t
    case Planned(plan) => PlanValid(op, d, log, p, plan)
    case Locked(plan) => PlanValid(op, d, log, p, plan)
    case Checked(plan, checked) => PlanValid(op, d, log, p, plan) && CheckValid(d, log, plan.token, checked)
    case Picked(plan, work, isNew) =>
      && PlanValid(op, d, log, p, plan) && CheckValid(d, log, plan.token, work.checked)
      && WorkValid(d, log, p, plan.next, work, !isNew)
    case Created(plan, work) =>
      && PlanValid(op, d, log, p, plan) && CheckValid(d, log, plan.token, work.checked)
      && WorkValid(d, log, p, plan.next, work, true)
    case _ => true
  }

  ghost predicate ProcessesValid(op: Operations, s: State) {
    forall p :: p in s.procs ==> ProcessValid(op, s.dir, s.log, p, s.procs[p])
  }

  lemma PlanStays(op: Operations, d: Directory, log: seq<Event>, p: nat, plan: Plan, e: Event, d': Directory)
    requires PlanValid(op, d, log, p, plan) && Describes(e, d, d')
    ensures PlanValid(op, d', log + [e], p, plan)
  {
    UntouchedGrows(log, e, plan.since, plan.at);
    if plan.at.Some? && !Touches(e, plan.at.value) { assert SameAt(d.gens, d'.gens, plan.at.value); }
  }

  lemma CheckStays(d: Directory, log: seq<Event>, token: Option<nat>, checked: nat, e: Event, d': Directory)
    requires CheckValid(d, log, token, checked) && Describes(e, d, d')
    ensures CheckValid(d', log + [e], token, checked)
  {
    UnmovedGrows(log, e, checked);
  }

  lemma WorkStays(d: Directory, log: seq<Event>, p: nat, next: Manifest, work: Work, inPlace: bool, e: Event,
                  d': Directory)
    requires WorkValid(d, log, p, next, work, inPlace) && Describes(e, d, d') && !(e.Made? && e.pid == p)
    ensures WorkValid(d', log + [e], p, next, work, inPlace)
  {
    OwnOnlyGrows(log, e, p, work.gen, work.picked);
    if !Touches(e, work.gen) { assert SameAt(d.gens, d'.gens, work.gen); }
  }

  /** What somebody else does is no surprise to a process. */
  lemma OtherStays(op: Operations, d: Directory, log: seq<Event>, p: nat, t: Process, e: Event, d': Directory)
    requires ProcessValid(op, d, log, p, t) && Describes(e, d, d') && !(e.Made? && e.pid == p)
    ensures ProcessValid(op, d', log + [e], p, t)
  {
    if t.Planned? || t.Locked? || t.Checked? || t.Picked? || t.Created? {
      PlanStays(op, d, log, p, t.plan, e, d');
      if t.Checked? {
        CheckStays(d, log, t.plan.token, t.checked, e, d');
      } else if t.Picked? || t.Created? {
        CheckStays(d, log, t.plan.token, t.work.checked, e, d');
        WorkStays(d, log, p, t.plan.next, t.work, t.Created? || !t.isNew, e, d');
      }
    }
  }

  lemma OthersStay(op: Operations, s: State, e: Event, d': Directory, s': State, p: nat)
    requires ProcessesValid(op, s) && Describes(e, s.dir, d') && s'.dir == d' && s'.log == s.log + [e]
    requires s'.procs.Keys == s.procs.Keys && forall q :: q in s.procs && q != p ==> s'.procs[q] == s.procs[q]
    requires forall q :: q in s.procs && q != p ==> !(e.Made? && e.pid == q)
    requires p in s.procs ==> ProcessValid(op, d', s.log + [e], p, s'.procs[p])
    ensures ProcessesValid(op, s')
  {
    forall q | q in s'.procs ensures ProcessValid(op, s'.dir, s'.log, q, s'.procs[q]) {
      if q != p { OtherStays(op, s.dir, s.log, q, s.procs[q], e, d'); }
    }
  }

  lemma SilentStep(op: Operations, s: State, p: nat, a: Act)
    requires p in s.procs && ProcessesValid(op, s) && CanDo(op, s, p, s.procs[p], a) && !LeavesTrace(s.procs[p], a)
    ensures ProcessesValid(op, Silent(s, p, s.procs[p], a))
  {
    SilentProcess(op, s, p, s.procs[p], a);
  }

  lemma SilentProcess(op: Operations, s: State, p: nat, t: Process, a: Act)
    requires ProcessValid(op, s.dir, s.log, p, t) && CanDo(op, s, p, t, a) && !LeavesTrace(t, a)
    ensures ProcessValid(op, s.dir, s.log, p, Moved(s, t, a))
  {
  }

  lemma MadeDescribes(d: Directory, p: nat, gen: nat, next: Manifest)
    ensures Describes(Made(p, gen, Current(MadeDir(d, gen, next))), d, MadeDir(d, gen, next))
  {
  }

  lemma MakeProcess(op: Operations, d: Directory, log: seq<Event>, p: nat, t: Process)
    requires t.Picked? && ProcessValid(op, d, log, p, t)
    ensures var d' := MadeDir(d, t.work.gen, t.plan.next);
            ProcessValid(op, d', log + [Made(p, t.work.gen, Current(d'))], p, Created(t.plan, t.work))
  {
    var d' := MadeDir(d, t.work.gen, t.plan.next);
    var e := Made(p, t.work.gen, Current(d'));
    MadeDescribes(d, p, t.work.gen, t.plan.next);
    PlanStays(op, d, log, p, t.plan, e, d');
    CheckStays(d, log, t.plan.token, t.work.checked, e, d');
  }

  lemma MakeStep(op: Operations, s: State, p: nat)
    requires p in s.procs && ProcessesValid(op, s) && s.procs[p].Picked?
    ensures ProcessesValid(op, Make(s, p, s.procs[p]))
  {
    var t := s.procs[p];
    var d' := MadeDir(s.dir, t.work.gen, t.plan.next);
    MadeDescribes(s.dir, p, t.work.gen, t.plan.next);
    MakeProcess(op, s.dir, s.log, p, t);
    OthersStay(op, s, Made(p, t.work.gen, Current(d')), d', Make(s, p, t), p);
  }

  lemma CommitStep(op: Operations, s: State, p: nat)
    requires p in s.procs && ProcessesValid(op, s) && s.procs[p].Created?
    ensures ProcessesValid(op, CommitPlan(s, p, s.procs[p]))
  {
    var t := s.procs[p];
    OthersStay(op, s, CommitOf(s.dir, p, t), LinkedDir(s.dir, t.work.gen), CommitPlan(s, p, t), p);
  }

  lemma OutsideStep(op: Operations, s: State, d': Directory, e: Event)
    requires ProcessesValid(op, s) && Describes(e, s.dir, d') && !e.Made?
    ensures ProcessesValid(op, Outside(s, d', e))
  {
    forall q | q in s.procs ensures ProcessValid(op, d', s.log + [e], q, s.procs[q]) {
      OtherStays(op, s.dir, s.log, q, s.procs[q], e, d');
    }
  }

  /** Every step of every process, with or without the lock, and every change from outside keeps what the plans
      and the checks of all processes say about the directory. */
  lemma StepKeepsValid(op: Operations, s: State, m: Move)
    requires ProcessesValid(op, s) && Enabled(op, s, m)
    ensures ProcessesValid(op, Do(s, m))
  {
    match m {
      case By(p, a) =>
        if !LeavesTrace(s.procs[p], a) {
          SilentStep(op, s, p, a);
        } else if a.MakeGeneration? {
          MakeStep(op, s, p);
        } else {
          CommitStep(op, s, p);
        }
      case Delete(numbers) =>
        var d := RemovedDir(s.dir, numbers);
        OutsideStep(op, s, d, Removed(numbers, Current(d)));
      case SwitchTo(gen) =>
        var d := LinkedDir(s.dir, gen);
        OutsideStep(op, s, d, Switched(Before(Some(gen), s.dir.link), Current(d)));
      case Meddle(numbers, contents, link) =>
        var d := MeddledDir(s.dir, numbers, contents, link);
        OutsideStep(op, s, d, Meddled(numbers, Current(d)));
    }
  }

  // ----- The log explains what the profile shows -----

  /** What the profile shows after the events of a log. */
  function Shown(m0: Manifest, log: seq<Event>): Manifest {
    if log == [] then m0 else log[|log| - 1].after
  }

  /** The elements were read where the link is now, and nothing has been done to that generation since. */
  ghost predicate ReadsShown(log: seq<Event>, plan: Plan, link: Option<nat>) {
    plan.at == link && Untouched(log, plan.since, plan.at)
  }

  /** What is said of a commit after the events of a log. It is its operation's effect on the elements it was computed
      from. If those were read where the link is now, and nothing has been done to that generation since, they are
      the elements shown. If the link was not moved after the check, it is the token. If nobody else has done
      anything to its generation, the new elements are shown after it. */
  ghost predicate CommitExplained(op: Operations, m0: Manifest, log: seq<Event>, e: Event)
    requires e.Commit?
  {
    && op(e.pid, e.plan.basis, e.plan.next)
    && e.plan.since <= |log| && e.work.checked <= |log| && e.work.picked <= |log|
    && (ReadsShown(log, e.plan, e.was) ==> e.plan.basis == Shown(m0, log))
    && (Unmoved(log, e.work.checked) ==> e.was == e.plan.token)
    && (OwnOnly(log, e.pid, e.work.gen, e.work.picked) ==> e.after == e.plan.next)
  }

  ghost predicate LogExplained(op: Operations, m0: Manifest, log: seq<Event>) {
    forall i {:trigger log[..i]} :: 0 <= i < |log| && log[i].Commit? ==> CommitExplained(op, m0, log[..i], log[i])
  }

  lemma LogGrows(op: Operations, m0: Manifest, log: seq<Event>, e: Event)
    requires LogExplained(op, m0, log) && (e.Commit? ==> CommitExplained(op, m0, log, e))
    ensures LogExplained(op, m0, log + [e])
  {
    forall i | 0 <= i < |log + [e]| && (log + [e])[i].Commit?
      ensures CommitExplained(op, m0, (log + [e])[..i], (log + [e])[i])
    {
      assert (log + [e])[..i] == log[..i];
      if i == |log| { assert log[..i] == log; }
    }
  }

  lemma CommitIsExplained(op: Operations, m0: Manifest, d: Directory, log: seq<Event>, p: nat, t: Process)
    requires t.Created? && ProcessValid(op, d, log, p, t) && Current(d) == Shown(m0, log)
    ensures CommitExplained(op, m0, log, CommitOf(d, p, t))
  {
  }

  ghost predicate Explained(op: Operations, m0: Manifest, s: State) {
    ProcessesValid(op, s) && Current(s.dir) == Shown(m0, s.log) && LogExplained(op, m0, s.log)
  }

  lemma TraceExplained(op: Operations, m0: Manifest, s: State, p: nat, a: Act)
    requires Explained(op, m0, s) && p in s.procs && LeavesTrace(s.procs[p], a)
    ensures var s' := if a.MakeGeneration? then Make(s, p, s.procs[p]) else CommitPlan(s, p, s.procs[p]);
            Current(s'.dir) == Shown(m0, s'.log) && LogExplained(op, m0, s'.log)
  {
    var t := s.procs[p];
    if a.MakeGeneration? {
      LogGrows(op, m0, s.log, Made(p, t.work.gen, Current(MadeDir(s.dir, t.work.gen, t.plan.next))));
    } else {
      CommitIsExplained(op, m0, s.dir, s.log, p, t);
      LogGrows(op, m0, s.log, CommitOf(s.dir, p, t));
    }
  }

  lemma StepKeepsExplained(op: Operations, m0: Manifest, s: State, m: Move)
    requires Explained(op, m0, s) && Enabled(op, s, m)
    ensures Explained(op, m0, Do(s, m))
  {
    StepKeepsValid(op, s, m);
    if m.By? {
      if LeavesTrace(s.procs[m.p], m.a) { TraceExplained(op, m0, s, m.p, m.a); }
    } else {
      var s' := Do(s, m);
      var e := s'.log[|s.log|];
      LogGrows(op, m0, s.log, e);
    }
  }

  /** In every run, with any switches and deletions, with processes that go on without the lock and with changes by
      others: the profile shows what the last event left, and every commit is explained. */
  lemma {:induction false} CommitsAreCurrent(op: Operations, s0: State, moves: seq<Move>, s: State)
    requires Initial(s0) && IsRun(op, s0, moves, s)
    ensures Explained(op, Current(s0.dir), s)
  {
    if moves != [] {
      var front, m := moves[..|moves| - 1], moves[|moves| - 1];
      var t :| IsRun(op, s0, front, t) && Enabled(op, t, m) && s == Do(t, m);
      CommitsAreCurrent(op, s0, front, t);
      StepKeepsExplained(op, Current(s0.dir), t, m);
    }
  }
}
