/** What the runs of concurrent profile operations amount to: sequential composition, each operation once. */
module ProfileSerialisation {
  import opened Basics
  import opened ProfileTransactions

  // ----- While the lock is honoured, nothing happens between a check and its commit -----

  predicate Polite(m: Move) {
    !m.Meddle? && !(m.By? && m.a.LockInterrupted?)
  }

  /** Nobody goes on without the lock. */
  ghost predicate Honoured(moves: seq<Move>) {
    forall m :: m in moves ==> Polite(m)
  }

  predicate InSection(t: Process) {
    t.Checked? || t.Picked? || t.Created?
  }

  predicate HoldsLock(t: Process) {
    t.Locked? || InSection(t)
  }

  /** The number picked is above all others, a new one is not in use, and nobody else has touched it. */
  ghost predicate OwnWork(d: Directory, log: seq<Event>, p: nat, work: Work) {
    work.picked <= |log| && OwnOnly(log, p, work.gen, work.picked) && forall n :: n in d.gens ==> n <= work.gen
  }

  ghost predicate OwnSection(d: Directory, log: seq<Event>, p: nat, t: Process) {
    match t
    case Checked(_, checked) => checked <= |log| && Unmoved(log, checked)
    case Picked(_, work, isNew) =>
      && work.checked <= |log| && Unmoved(log, work.checked) && OwnWork(d, log, p, work)
      && (isNew <==> work.gen !in d.gens)
    case Created(_, work) => work.checked <= |log| && Unmoved(log, work.checked) && OwnWork(d, log, p, work)
    case _ => true
  }

  ghost predicate Exclusive(s: State) {
    forall p :: p in s.procs && HoldsLock(s.procs[p]) ==> s.lock == Some(p)
  }

  ghost predicate Sections(s: State) {
    forall p :: p in s.procs ==> OwnSection(s.dir, s.log, p, s.procs[p])
  }

  predicate LinkValid(d: Directory) {
    d.link.Some? ==> d.link.value in d.gens
  }

  /** Only commits and switches change what is shown; at a commit the link is its token, and nobody else has done
      anything to its generation. */
  ghost predicate Orderly(m0: Manifest, log: seq<Event>) {
    forall i {:trigger log[..i]} :: 0 <= i < |log| ==> OrderlyEvent(m0, log[..i], log[i])
  }

  ghost predicate OrderlyEvent(m0: Manifest, log: seq<Event>, e: Event) {
    match e
    case Commit(p, plan, work, was, _) => was == plan.token && OwnOnly(log, p, work.gen, work.picked)
    case Made(_, _, after) => after == Shown(m0, log)
    case Removed(_, after) => after == Shown(m0, log)
    case Switched(_, _) => true
    case Meddled(_, _) => false
  }

  ghost predicate LockValid(m0: Manifest, s: State) {
    Exclusive(s) && Sections(s) && LinkValid(s.dir) && Orderly(m0, s.log)
  }

  lemma OrderlyGrows(m0: Manifest, log: seq<Event>, e: Event)
    requires Orderly(m0, log) && OrderlyEvent(m0, log, e)
    ensures Orderly(m0, log + [e])
  {
    forall i | 0 <= i < |log + [e]| ensures OrderlyEvent(m0, (log + [e])[..i], (log + [e])[i]) {
      assert (log + [e])[..i] == log[..i];
      if i == |log| { assert log[..i] == log; }
    }
  }

  lemma SilentLocks(op: Operations, m0: Manifest, s: State, p: nat, a: Act)
    requires LockValid(m0, s) && p in s.procs && CanDo(op, s, p, s.procs[p], a) && !LeavesTrace(s.procs[p], a)
    requires !a.LockInterrupted? && ProcessesValid(op, s)
    ensures LockValid(m0, Silent(s, p, s.procs[p], a))
  {
    var t, s' := s.procs[p], Silent(s, p, s.procs[p], a);
    SilentSection(op, s, p, t, a);
    forall q | q in s'.procs && HoldsLock(s'.procs[q]) ensures s'.lock == Some(q) {
      if q != p { assert s.procs[q] == s'.procs[q] && s.lock == Some(q); }
    }
  }

  lemma SilentSection(op: Operations, s: State, p: nat, t: Process, a: Act)
    requires OwnSection(s.dir, s.log, p, t) && CanDo(op, s, p, t, a) && !LeavesTrace(t, a)
    ensures OwnSection(s.dir, s.log, p, Moved(s, t, a))
  {
  }

  /** Whoever is not p is not in a section while p is. */
  lemma OthersOutside(m0: Manifest, s: State, p: nat, q: nat)
    requires LockValid(m0, s) && p in s.procs && InSection(s.procs[p]) && q in s.procs && q != p
    ensures !InSection(s.procs[q])
  {
  }

  lemma MakeLocks(op: Operations, m0: Manifest, s: State, p: nat)
    requires LockValid(m0, s) && p in s.procs && s.procs[p].Picked? && s.procs[p].isNew
    requires Current(s.dir) == Shown(m0, s.log)
    ensures LockValid(m0, Make(s, p, s.procs[p]))
  {
    var t, s' := s.procs[p], Make(s, p, s.procs[p]);
    var e := Made(p, t.work.gen, Current(s'.dir));
    assert OwnSection(s.dir, s.log, p, t);
    UnmovedGrows(s.log, e, t.work.checked);
    OwnOnlyGrows(s.log, e, p, t.work.gen, t.work.picked);
    OrderlyGrows(m0, s.log, e);
    forall q | q in s'.procs ensures OwnSection(s'.dir, s'.log, q, s'.procs[q]) {
      if q != p { OthersOutside(m0, s, p, q); }
    }
  }

  lemma CommitLocks(op: Operations, m0: Manifest, s: State, p: nat)
    requires LockValid(m0, s) && p in s.procs && s.procs[p].Created? && ProcessesValid(op, s)
    ensures LockValid(m0, CommitPlan(s, p, s.procs[p]))
  {
    var t, s' := s.procs[p], CommitPlan(s, p, s.procs[p]);
    assert OwnSection(s.dir, s.log, p, t) && ProcessValid(op, s.dir, s.log, p, t);
    OrderlyGrows(m0, s.log, CommitOf(s.dir, p, t));
    forall q | q in s'.procs ensures OwnSection(s'.dir, s'.log, q, s'.procs[q]) {
      if q != p { OthersOutside(m0, s, p, q); }
    }
  }

  lemma OutsideLocks(m0: Manifest, s: State, d: Directory, e: Event)
    requires LockValid(m0, s) && s.lock.None? && LinkValid(d) && OrderlyEvent(m0, s.log, e)
    ensures LockValid(m0, Outside(s, d, e))
  {
    OrderlyGrows(m0, s.log, e);
    forall q | q in s.procs ensures !HoldsLock(s.procs[q]) {}
  }

  lemma StepKeepsLocks(op: Operations, m0: Manifest, s: State, m: Move)
    requires Explained(op, m0, s) && LockValid(m0, s) && Enabled(op, s, m) && Polite(m)
    ensures LockValid(m0, Do(s, m))
  {
    match m {
      case By(p, a) =>
        if !LeavesTrace(s.procs[p], a) {
          SilentLocks(op, m0, s, p, a);
        } else if a.MakeGeneration? {
          MakeLocks(op, m0, s, p);
        } else {
          CommitLocks(op, m0, s, p);
        }
      case Delete(numbers) =>
        var d := RemovedDir(s.dir, numbers);
        OutsideLocks(m0, s, d, Removed(numbers, Current(d)));
      case SwitchTo(gen) =>
        var d := LinkedDir(s.dir, gen);
        OutsideLocks(m0, s, d, Switched(Before(Some(gen), s.dir.link), Current(d)));
    }
  }

  lemma FrontHonoured(moves: seq<Move>)
    requires moves != [] && Honoured(moves)
    ensures Honoured(moves[..|moves| - 1]) && Polite(moves[|moves| - 1])
  {
    assert moves[|moves| - 1] in moves;
  }

  /** While the lock is honoured, the link is its token at every commit, nobody interferes with its generation, and
      making and deleting generations changes nothing of what the profile shows. */
  lemma {:induction false} HonouredIsOrderly(op: Operations, s0: State, moves: seq<Move>, s: State)
    requires Initial(s0) && IsRun(op, s0, moves, s) && Honoured(moves)
    ensures LockValid(Current(s0.dir), s)
  {
    if moves != [] {
      var front, m := moves[..|moves| - 1], moves[|moves| - 1];
      FrontHonoured(moves);
      var t :| IsRun(op, s0, front, t) && Enabled(op, t, m) && s == Do(t, m);
      HonouredIsOrderly(op, s0, front, t);
      CommitsAreCurrent(op, s0, front, t);
      StepKeepsLocks(op, Current(s0.dir), t, m);
    }
  }

  // ----- Sequential composition -----

  /** m is what the operations of the processes, one after the other, can make of m0. */
  ghost predicate Composes(op: Operations, m0: Manifest, pids: seq<nat>, m: Manifest) {
    exists stages :: Stages(op, m0, pids, m, stages)
  }

  /** The lists of elements before, between and after the operations. */
  ghost predicate Stages(op: Operations, m0: Manifest, pids: seq<nat>, m: Manifest, stages: seq<Manifest>) {
    |stages| == |pids| + 1 && stages[0] == m0 && stages[|pids|] == m
    && forall i :: 0 <= i < |pids| ==> op(pids[i], stages[i], stages[i + 1])
  }

  function Committers(log: seq<Event>): seq<nat> {
    if log == [] then []
    else
      var rest, e := Committers(log[..|log| - 1]), log[|log| - 1];
      if e.Commit? then rest + [e.pid] else rest
  }

  /** A commit whose elements were read from the generation that is shown, and whose own generation nobody else has
      done anything to; or an event that leaves what is shown as it is. */
  ghost predicate Sequential(m0: Manifest, log: seq<Event>, e: Event) {
    if e.Commit? then ReadsShown(log, e.plan, e.was) && OwnOnly(log, e.pid, e.work.gen, e.work.picked)
    else e.after == Shown(m0, log)
  }

  ghost predicate SequentialFrom(m0: Manifest, log: seq<Event>, k: nat) {
    forall i {:trigger log[..i]} :: k <= i < |log| ==> Sequential(m0, log[..i], log[i])
  }

  lemma CommittersGrow(log: seq<Event>, e: Event)
    ensures Committers(log + [e]) == if e.Commit? then Committers(log) + [e.pid] else Committers(log)
  {
    assert (log + [e])[..|log|] == log;
  }

  lemma ComposesNone(op: Operations, m: Manifest)
    ensures Composes(op, m, [], m)
  {
    assert Stages(op, m, [], m, [m]);
  }

  lemma ComposesMore(op: Operations, m0: Manifest, pids: seq<nat>, m: Manifest, p: nat, m': Manifest)
    requires Composes(op, m0, pids, m) && op(p, m, m')
    ensures Composes(op, m0, pids + [p], m')
  {
    var stages :| Stages(op, m0, pids, m, stages);
    assert Stages(op, m0, pids + [p], m', stages + [m']);
  }

  /** One more event. */
  lemma ComposesOn(op: Operations, m0: Manifest, m: Manifest, front: seq<Event>, late: seq<Event>, e: Event)
    requires Composes(op, m, Committers(late), Shown(m0, front)) && Sequential(m0, front, e)
    requires e.Commit? ==> CommitExplained(op, m0, front, e)
    ensures Composes(op, m, Committers(late + [e]), e.after)
  {
    CommittersGrow(late, e);
    if e.Commit? { ComposesMore(op, m, Committers(late), Shown(m0, front), e.pid, e.after); }
  }

  lemma LogComposesOn(op: Operations, m0: Manifest, m: Manifest, log: seq<Event>, k: nat, n: nat)
    requires LogExplained(op, m0, log) && k <= n < |log| && SequentialFrom(m0, log, k)
    requires Composes(op, m, Committers(log[k..n]), Shown(m0, log[..n]))
    ensures Composes(op, m, Committers(log[k..n + 1]), log[n].after)
  {
    var front, late, e := log[..n], log[k..n], log[n];
    assert Sequential(m0, front, e) && (e.Commit? ==> CommitExplained(op, m0, front, e));
    ComposesOn(op, m0, m, front, late, e);
    assert log[k..n + 1] == late + [e];
  }

  lemma {:induction false} LogComposes(op: Operations, m0: Manifest, log: seq<Event>, k: nat, n: nat)
    requires LogExplained(op, m0, log) && k <= n <= |log| && SequentialFrom(m0, log, k)
    ensures Composes(op, Shown(m0, log[..k]), Committers(log[k..n]), Shown(m0, log[..n]))
    decreases n
  {
    if k == n {
      ComposesNone(op, Shown(m0, log[..k]));
    } else {
      LogComposes(op, m0, log, k, n - 1);
      LogComposesOn(op, m0, Shown(m0, log[..k]), log, k, n - 1);
    }
  }

  /** In every run, whoever honours the lock or not: from any event on after which every commit was read from the
      generation it replaces, and nothing else changed what is shown, the profile shows the sequential composition
      of the operations committed since, in the order of their commits, applied to what was shown then. */
  lemma Serialisation(op: Operations, s0: State, moves: seq<Move>, s: State, k: nat)
    requires Initial(s0) && IsRun(op, s0, moves, s)
    requires k <= |s.log| && SequentialFrom(Current(s0.dir), s.log, k)
    ensures Composes(op, Shown(Current(s0.dir), s.log[..k]), Committers(s.log[k..]), Current(s.dir))
  {
    CommitsAreCurrent(op, s0, moves, s);
    LogComposes(op, Current(s0.dir), s.log, k, |s.log|);
    assert s.log[..|s.log|] == s.log && s.log[k..|s.log|] == s.log[k..];
  }

  // ----- Without a switch backwards every commit is read from the generation that it replaces -----

  ghost predicate NoneBack(log: seq<Event>, i: nat) {
    forall k :: i <= k < |log| ==> !(log[k].Switched? && log[k].back)
  }

  lemma NoneBackGrows(log: seq<Event>, e: Event, i: nat)
    requires i <= |log|
    ensures NoneBack(log + [e], i) <==> NoneBack(log, i) && !(e.Switched? && e.back)
  {
    assert (log + [e])[|log|] == e;
    assert forall k :: 0 <= k < |log| ==> (log + [e])[k] == log[k];
  }

  /** The link has not left the token, and nothing was done to the generation read, or it has moved on for good. */
  ghost predicate StillOrBeyond(d: Directory, log: seq<Event>, plan: Plan) {
    (d.link == plan.token && ReadsShown(log, plan, d.link)) || Before(plan.token, d.link)
  }

  ghost predicate ForwardValid(d: Directory, log: seq<Event>, t: Process) {
    match t
    case HasToken(token, from) => from <= |log| && (NoneBack(log, from) ==> d.link == token || Before(token, d.link))
    case Planned(plan) => ForwardPlan(d, log, plan)
    case Locked(plan) => ForwardPlan(d, log, plan)
    case Checked(plan, _) => ForwardPlan(d, log, plan)
    case Picked(plan, _, _) => ForwardPlan(d, log, plan)
    case Created(plan, _) => ForwardPlan(d, log, plan)
    case _ => true
  }

  ghost predicate ForwardPlan(d: Directory, log: seq<Event>, plan: Plan) {
    plan.from <= |log| && plan.since <= |log| && (NoneBack(log, plan.from) ==> StillOrBeyond(d, log, plan))
  }

  ghost predicate AllForward(s: State) {
    forall p :: p in s.procs ==> ForwardValid(s.dir, s.log, s.procs[p])
  }

  ghost predicate ForwardLog(log: seq<Event>) {
    forall i {:trigger log[..i]} :: 0 <= i < |log| && log[i].Commit? ==> ForwardCommit(log[..i], log[i])
  }

  ghost predicate ForwardCommit(log: seq<Event>, e: Event)
    requires e.Commit?
  {
    NoneBack(log, e.plan.from) ==> ReadsShown(log, e.plan, e.was)
  }

  /** The link stays or moves on, and nothing is done to the generation it names. */
  ghost predicate Advances(d: Directory, e: Event, d': Directory) {
    (e.Switched? && e.back)
    || ((d'.link == d.link || Before(d.link, d'.link)) && (d.link.Some? ==> !Touches(e, d.link.value)))
  }

  lemma ForwardPlanStays(d: Directory, log: seq<Event>, plan: Plan, e: Event, d': Directory)
    requires ForwardPlan(d, log, plan) && Advances(d, e, d')
    ensures ForwardPlan(d', log + [e], plan)
  {
    NoneBackGrows(log, e, plan.from);
    UntouchedGrows(log, e, plan.since, plan.at);
  }

  lemma ForwardStays(d: Directory, log: seq<Event>, t: Process, e: Event, d': Directory)
    requires ForwardValid(d, log, t) && Advances(d, e, d')
    ensures ForwardValid(d', log + [e], t)
  {
    if t.HasToken? {
      NoneBackGrows(log, e, t.from);
    } else if t.Planned? || HoldsLock(t) {
      ForwardPlanStays(d, log, t.plan, e, d');
    }
  }

  lemma ForwardLogGrows(log: seq<Event>, e: Event)
    requires ForwardLog(log) && (e.Commit? ==> ForwardCommit(log, e))
    ensures ForwardLog(log + [e])
  {
    forall i | 0 <= i < |log + [e]| && (log + [e])[i].Commit? ensures ForwardCommit((log + [e])[..i], (log + [e])[i]) {
      assert (log + [e])[..i] == log[..i];
      if i == |log| { assert log[..i] == log; }
    }
  }

  lemma SilentForward(op: Operations, s: State, t: Process, p: nat, a: Act)
    requires ForwardValid(s.dir, s.log, t) && CanDo(op, s, p, t, a) && !LeavesTrace(t, a)
    ensures ForwardValid(s.dir, s.log, Moved(s, t, a))
  {
  }

  /** Processes and log after an event. */
  lemma EventForward(s: State, e: Event, s': State, p: nat)
    requires AllForward(s) && ForwardLog(s.log) && Advances(s.dir, e, s'.dir) && s'.log == s.log + [e]
    requires s'.procs.Keys == s.procs.Keys && forall q :: q in s.procs && q != p ==> s'.procs[q] == s.procs[q]
    requires p in s.procs ==> ForwardValid(s'.dir, s.log + [e], s'.procs[p])
    requires e.Commit? ==> ForwardCommit(s.log, e)
    ensures AllForward(s') && ForwardLog(s'.log)
  {
    forall q | q in s'.procs ensures ForwardValid(s'.dir, s'.log, s'.procs[q]) {
      if q != p { ForwardStays(s.dir, s.log, s.procs[q], e, s'.dir); }
    }
    ForwardLogGrows(s.log, e);
  }

  lemma MakeForward(m0: Manifest, s: State, p: nat)
    requires AllForward(s) && ForwardLog(s.log) && LockValid(m0, s) && p in s.procs && s.procs[p].Picked?
      && s.procs[p].isNew
    ensures AllForward(Make(s, p, s.procs[p])) && ForwardLog(Make(s, p, s.procs[p]).log)
  {
    var t, s' := s.procs[p], Make(s, p, s.procs[p]);
    var e := Made(p, t.work.gen, Current(s'.dir));
    assert OwnSection(s.dir, s.log, p, t);
    assert ForwardValid(s.dir, s.log, t);
    ForwardPlanStays(s.dir, s.log, t.plan, e, s'.dir);
    EventForward(s, e, s', p);
  }

  lemma CommitForward(op: Operations, m0: Manifest, s: State, p: nat)
    requires AllForward(s) && ForwardLog(s.log) && LockValid(m0, s) && p in s.procs && s.procs[p].Created?
    requires ProcessesValid(op, s)
    ensures AllForward(CommitPlan(s, p, s.procs[p])) && ForwardLog(CommitPlan(s, p, s.procs[p]).log)
  {
    var t, s' := s.procs[p], CommitPlan(s, p, s.procs[p]);
    assert OwnSection(s.dir, s.log, p, t) && ProcessValid(op, s.dir, s.log, p, t) && ForwardValid(s.dir, s.log, t);
    EventForward(s, CommitOf(s.dir, p, t), s', p);
  }

  lemma OutsideForward(s: State, d: Directory, e: Event)
    requires AllForward(s) && ForwardLog(s.log) && Advances(s.dir, e, d) && !e.Commit?
    ensures AllForward(Outside(s, d, e)) && ForwardLog(Outside(s, d, e).log)
  {
    forall q | q in s.procs ensures ForwardValid(d, s.log + [e], s.procs[q]) {
      ForwardStays(s.dir, s.log, s.procs[q], e, d);
    }
    ForwardLogGrows(s.log, e);
  }

  lemma StepKeepsForward(op: Operations, m0: Manifest, s: State, m: Move)
    requires Explained(op, m0, s) && LockValid(m0, s) && Enabled(op, s, m) && Polite(m)
    requires AllForward(s) && ForwardLog(s.log)
    ensures AllForward(Do(s, m)) && ForwardLog(Do(s, m).log)
  {
    match m {
      case By(p, a) =>
        if !LeavesTrace(s.procs[p], a) {
          SilentForward(op, s, s.procs[p], p, a);
        } else if a.MakeGeneration? {
          MakeForward(m0, s, p);
        } else {
          CommitForward(op, m0, s, p);
        }
      case Delete(numbers) =>
        var d := RemovedDir(s.dir, numbers);
        OutsideForward(s, d, Removed(numbers, Current(d)));
      case SwitchTo(gen) =>
        var d := LinkedDir(s.dir, gen);
        OutsideForward(s, d, Switched(Before(Some(gen), s.dir.link), Current(d)));
    }
  }

  /** While the lock is honoured, a commit is read from the generation that it replaces if no switch went backwards
      between the reading of its token and its end, whatever is deleted and whatever else is switched. */
  lemma {:induction false} ForwardReadsShown(op: Operations, s0: State, moves: seq<Move>, s: State)
    requires Initial(s0) && IsRun(op, s0, moves, s) && Honoured(moves)
    ensures AllForward(s) && ForwardLog(s.log)
  {
    if moves != [] {
      var front, m := moves[..|moves| - 1], moves[|moves| - 1];
      FrontHonoured(moves);
      var t :| IsRun(op, s0, front, t) && Enabled(op, t, m) && s == Do(t, m);
      ForwardReadsShown(op, s0, front, t);
      CommitsAreCurrent(op, s0, front, t);
      HonouredIsOrderly(op, s0, front, t);
      StepKeepsForward(op, Current(s0.dir), t, m);
    }
  }

  /** While the lock is honoured and the link is not switched, whatever the interleaving and whichever generations
      are deleted, the profile shows the sequential composition of all committed operations. */
  lemma ForwardSerialisation(op: Operations, s0: State, moves: seq<Move>, s: State)
    requires Initial(s0) && IsRun(op, s0, moves, s) && Honoured(moves)
    requires forall i :: 0 <= i < |s.log| ==> !s.log[i].Switched?
    ensures Composes(op, Current(s0.dir), Committers(s.log), Current(s.dir))
  {
    var m0 := Current(s0.dir);
    HonouredIsOrderly(op, s0, moves, s);
    ForwardReadsShown(op, s0, moves, s);
    forall i | 0 <= i < |s.log| ensures Sequential(m0, s.log[..i], s.log[i]) {
      assert OrderlyEvent(m0, s.log[..i], s.log[i]);
      if s.log[i].Commit? { assert ForwardCommit(s.log[..i], s.log[i]); }
    }
    Serialisation(op, s0, moves, s, 0);
    assert s.log[0..] == s.log;
  }

  // ----- Every process commits at most once, and only restarts when another one got through -----

  ghost predicate CommitsOnce(s: State) {
    var pids := Committers(s.log);
    (forall i, j :: 0 <= i < j < |pids| ==> pids[i] != pids[j])
    && (forall p :: p in pids <==> p in s.procs && s.procs[p].Finished?)
  }

  lemma CommitOnce(s: State, p: nat, t: Process)
    requires CommitsOnce(s) && p in s.procs && t == s.procs[p] && t.Created?
    ensures CommitsOnce(CommitPlan(s, p, t))
  {
    CommittersGrow(s.log, CommitOf(s.dir, p, t));
    assert p !in Committers(s.log);
  }

  lemma OtherEventOnce(s: State, s': State, e: Event)
    requires CommitsOnce(s) && s'.log == s.log + [e] && !e.Commit? && s'.procs.Keys == s.procs.Keys
    requires forall p :: p in s.procs ==> (s'.procs[p].Finished? <==> s.procs[p].Finished?)
    ensures CommitsOnce(s')
  {
    CommittersGrow(s.log, e);
  }

  lemma StepCommitsOnce(op: Operations, s: State, m: Move)
    requires CommitsOnce(s) && Enabled(op, s, m)
    ensures CommitsOnce(Do(s, m))
  {
    var s' := Do(s, m);
    if m.By? && !LeavesTrace(s.procs[m.p], m.a) {
      assert s'.log == s.log && !Moved(s, s.procs[m.p], m.a).Finished?;
    } else if m.By? && m.a.SwitchLink? {
      CommitOnce(s, m.p, s.procs[m.p]);
    } else {
      OtherEventOnce(s, s', s'.log[|s.log|]);
    }
  }

  lemma {:induction false} ExactlyOnce(op: Operations, s0: State, moves: seq<Move>, s: State)
    requires Initial(s0) && IsRun(op, s0, moves, s)
    ensures CommitsOnce(s)
  {
    if moves != [] {
      var front, m := moves[..|moves| - 1], moves[|moves| - 1];
      var t :| IsRun(op, s0, front, t) && Enabled(op, t, m) && s == Do(t, m);
      ExactlyOnce(op, s0, front, t);
      StepCommitsOnce(op, t, m);
    }
  }

  ghost predicate LinkMoved(log: seq<Event>, i: nat) {
    exists k :: i <= k < |log| && MovesLink(log[k])
  }

  lemma LinkMovedGrows(log: seq<Event>, e: Event, i: nat)
    requires i <= |log|
    ensures LinkMoved(log + [e], i) <==> LinkMoved(log, i) || MovesLink(e)
  {
    assert (log + [e])[|log|] == e;
    assert forall k :: 0 <= k < |log| ==> (log + [e])[k] == log[k];
  }

  predicate Compares(t: Process) {
    t.HasToken? || t.Planned? || t.Locked?
  }

  ghost predicate TokenTracked(d: Directory, log: seq<Event>, token: Option<nat>, from: nat) {
    from <= |log| && (d.link == token || LinkMoved(log, from))
  }

  ghost predicate Tracked(d: Directory, log: seq<Event>, t: Process) {
    (t.HasToken? ==> TokenTracked(d, log, t.token, t.from))
    && (t.Planned? || t.Locked? ==> TokenTracked(d, log, t.plan.token, t.plan.from))
  }

  ghost predicate AllTracked(s: State) {
    forall p :: p in s.procs ==> Tracked(s.dir, s.log, s.procs[p])
  }

  lemma TrackedStays(d: Directory, log: seq<Event>, t: Process, e: Event, d': Directory)
    requires Tracked(d, log, t) && (MovesLink(e) || d'.link == d.link)
    ensures Tracked(d', log + [e], t)
  {
    if t.HasToken? {
      LinkMovedGrows(log, e, t.from);
    } else if t.Planned? || t.Locked? {
      LinkMovedGrows(log, e, t.plan.from);
    }
  }

  lemma EventTracks(s: State, s': State, e: Event)
    requires AllTracked(s) && s'.log == s.log + [e] && (MovesLink(e) || s'.dir.link == s.dir.link)
    requires s'.procs.Keys == s.procs.Keys
    requires forall p :: p in s.procs ==> s'.procs[p] == s.procs[p] || !Compares(s'.procs[p])
    ensures AllTracked(s')
  {
    forall p | p in s'.procs ensures Tracked(s'.dir, s'.log, s'.procs[p]) {
      TrackedStays(s.dir, s.log, s.procs[p], e, s'.dir);
    }
  }

  lemma SilentTracks(op: Operations, s: State, p: nat, t: Process, a: Act)
    requires Tracked(s.dir, s.log, t) && CanDo(op, s, p, t, a) && !LeavesTrace(t, a)
    ensures Tracked(s.dir, s.log, Moved(s, t, a))
  {
  }

  lemma StepTracks(op: Operations, s: State, m: Move)
    requires AllTracked(s) && Enabled(op, s, m)
    ensures AllTracked(Do(s, m))
  {
    var s' := Do(s, m);
    if m.By? && !LeavesTrace(s.procs[m.p], m.a) {
      SilentTracks(op, s, m.p, s.procs[m.p], m.a);
    } else {
      EventTracks(s, s', s'.log[|s.log|]);
    }
  }

  lemma {:induction false} RunTracks(op: Operations, s0: State, moves: seq<Move>, s: State)
    requires Initial(s0) && IsRun(op, s0, moves, s)
    ensures AllTracked(s)
  {
    if moves != [] {
      var front, m := moves[..|moves| - 1], moves[|moves| - 1];
      var t :| IsRun(op, s0, front, t) && Enabled(op, t, m) && s == Do(t, m);
      RunTracks(op, s0, front, t);
      StepTracks(op, t, m);
    }
  }

  /** In every run, a process finds its token changed only if a commit, a switch or a change from outside has
      happened since it read it. */
  lemma RestartMeansProgress(op: Operations, s0: State, moves: seq<Move>, s: State, p: nat)
    requires Initial(s0) && IsRun(op, s0, moves, s) && p in s.procs && s.procs[p].Locked?
    ensures s.dir.link != s.procs[p].plan.token ==> LinkMoved(s.log, s.procs[p].plan.from)
  {
    RunTracks(op, s0, moves, s);
  }
}
