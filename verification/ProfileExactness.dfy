/** The condition under which a commit is current cannot be weakened: for operations that can be told apart by what
    they install, a commit is current exactly if it was read from the generation that it replaces. */
module ProfileExactness {
  import opened Basics
  import opened Packages
  import opened ProfileTransactions
  import opened ProfileSerialisation

  /** Every process puts a package of its own in front of the installed elements. */
  ghost predicate PutsInFront(op: Operations, mark: nat -> Package) {
    && (forall p, a, b :: op(p, a, b) <==> b == [mark(p)] + a)
    && (forall p, q :: mark(p) == mark(q) ==> p == q)
  }

  /** The first generations can be told apart, and from everything that is installed later. */
  ghost predicate Distinct(gens: map<nat, Manifest>, mark: nat -> Package) {
    && (forall n :: n in gens ==> gens[n] != [] && forall p :: gens[n][0] != mark(p))
    && (forall n, m :: n in gens && m in gens && gens[n] == gens[m] ==> n == m)
  }

  // ----- Who has made a generation -----

  predicate MadeAt(log: seq<Event>, j: nat, p: nat, n: nat) {
    j < |log| && log[j].Made? && log[j].pid == p && log[j].number == n
  }

  predicate Makes(e: Event, n: nat) {
    e.Made? && e.number == n
  }

  /** The process that has made generation n last; none if it is one of the first. */
  function LastMade(log: seq<Event>, n: nat): Option<nat> {
    if log == [] then None
    else if Makes(log[|log| - 1], n) then Some(log[|log| - 1].pid)
    else LastMade(log[..|log| - 1], n)
  }

  lemma LastMadeGrows(log: seq<Event>, e: Event, n: nat)
    ensures LastMade(log + [e], n) == if Makes(e, n) then Some(e.pid) else LastMade(log, n)
  {
    assert (log + [e])[..|log|] == log;
  }

  lemma {:induction false} LastMadeIs(log: seq<Event>, n: nat) returns (j: nat)
    requires LastMade(log, n).Some?
    ensures MadeAt(log, j, LastMade(log, n).value, n) && forall k :: j < k < |log| ==> !Makes(log[k], n)
  {
    if Makes(log[|log| - 1], n) {
      j := |log| - 1;
    } else {
      j := LastMadeIs(log[..|log| - 1], n);
    }
  }

  lemma {:induction false} NeverMade(log: seq<Event>, n: nat, k: nat)
    requires LastMade(log, n).None? && k < |log|
    ensures !Makes(log[k], n)
  {
    if k < |log| - 1 { NeverMade(log[..|log| - 1], n, k); }
  }

  /** Nobody makes two generations. */
  ghost predicate MakeOnce(log: seq<Event>) {
    forall i, j :: 0 <= i < j < |log| && log[i].Made? && log[j].Made? ==> log[i].pid != log[j].pid
  }

  /** Generations that were removed and are there have been made again. */
  ghost predicate Remade(gens: map<nat, Manifest>, log: seq<Event>) {
    forall n, j :: n in gens && 0 <= j < |log| && log[j].Removed? && n in log[j].numbers ==> MadeAfter(log, j, n)
  }

  ghost predicate MadeAfter(log: seq<Event>, j: nat, n: nat) {
    exists k :: j < k < |log| && Makes(log[k], n)
  }

  /** The elements tell which generation they are from. */
  predicate Marked(mark: nat -> Package, gens0: map<nat, Manifest>, who: Option<nat>, n: nat, m: Manifest) {
    match who
    case None => n in gens0 && m == gens0[n]
    case Some(p) => m != [] && m[0] == mark(p)
  }

  ghost predicate AllMarked(mark: nat -> Package, gens0: map<nat, Manifest>, gens: map<nat, Manifest>,
                            log: seq<Event>)
  {
    forall n :: n in gens ==> Marked(mark, gens0, LastMade(log, n), n, gens[n])
  }

  ghost predicate NotYet(log: seq<Event>, p: nat) {
    forall k :: 0 <= k < |log| ==> !(log[k].Made? && log[k].pid == p)
  }

  ghost predicate BasisMarked(mark: nat -> Package, gens0: map<nat, Manifest>, log: seq<Event>, plan: Plan) {
    && plan.since <= |log|
    && (plan.basis != [] ==>
          plan.at.Some? && Marked(mark, gens0, LastMade(log[..plan.since], plan.at.value), plan.at.value, plan.basis))
  }

  predicate HasPlan(t: Process) {
    t.Planned? || HoldsLock(t)
  }

  ghost predicate Told(mark: nat -> Package, gens0: map<nat, Manifest>, log: seq<Event>, p: nat, t: Process) {
    && (t.Ready? || t.HasToken? || t.Planned? || t.Locked? || t.Checked? || t.Picked? ==> NotYet(log, p))
    && (HasPlan(t) ==> BasisMarked(mark, gens0, log, t.plan))
  }

  ghost predicate AllTold(mark: nat -> Package, gens0: map<nat, Manifest>, s: State) {
    forall p :: p in s.procs ==> Told(mark, gens0, s.log, p, s.procs[p])
  }

  ghost predicate NoneMeddled(log: seq<Event>) {
    forall k :: 0 <= k < |log| ==> !log[k].Meddled?
  }

  ghost predicate Telling(mark: nat -> Package, gens0: map<nat, Manifest>, s: State) {
    && NoneMeddled(s.log) && AllTold(mark, gens0, s) && AllMarked(mark, gens0, s.dir.gens, s.log)
    && MakeOnce(s.log) && Remade(s.dir.gens, s.log)
  }

  // ----- What every step keeps -----

  lemma ToldStays(mark: nat -> Package, gens0: map<nat, Manifest>, log: seq<Event>, p: nat, t: Process, e: Event)
    requires Told(mark, gens0, log, p, t) && !(e.Made? && e.pid == p)
    ensures Told(mark, gens0, log + [e], p, t)
  {
    if HasPlan(t) { assert (log + [e])[..t.plan.since] == log[..t.plan.since]; }
  }

  lemma SilentTold(op: Operations, mark: nat -> Package, gens0: map<nat, Manifest>, s: State, p: nat, t: Process,
                   a: Act)
    requires Told(mark, gens0, s.log, p, t) && CanDo(op, s, p, t, a) && !LeavesTrace(t, a)
    requires AllMarked(mark, gens0, s.dir.gens, s.log)
    ensures Told(mark, gens0, s.log, p, Moved(s, t, a))
  {
    if a.ReadAndPlan? { assert s.log[..|s.log|] == s.log; }
  }

  lemma MarkedStays(mark: nat -> Package, gens0: map<nat, Manifest>, gens: map<nat, Manifest>, log: seq<Event>,
                    e: Event, gens': map<nat, Manifest>)
    requires AllMarked(mark, gens0, gens, log)
    requires forall n :: n in gens' && !Makes(e, n) ==> n in gens && gens'[n] == gens[n]
    requires forall n :: n in gens' && Makes(e, n) ==> Marked(mark, gens0, Some(e.pid), n, gens'[n])
    ensures AllMarked(mark, gens0, gens', log + [e])
  {
    forall n | n in gens' ensures Marked(mark, gens0, LastMade(log + [e], n), n, gens'[n]) {
      LastMadeGrows(log, e, n);
    }
  }

  lemma RemadeStays(gens: map<nat, Manifest>, log: seq<Event>, e: Event, gens': map<nat, Manifest>)
    requires Remade(gens, log)
    requires forall n :: n in gens' && !Makes(e, n) ==> n in gens && (e.Removed? ==> n !in e.numbers)
    ensures Remade(gens', log + [e])
  {
    var log' := log + [e];
    forall n, j | n in gens' && 0 <= j < |log'| && log'[j].Removed? && n in log'[j].numbers
      ensures MadeAfter(log', j, n)
    {
      if Makes(e, n) {
        assert Makes(log'[|log|], n);
      } else {
        var k :| j < k < |log| && Makes(log[k], n);
        assert Makes(log'[k], n);
      }
    }
  }

  lemma MakeOnceStays(log: seq<Event>, e: Event)
    requires MakeOnce(log) && (e.Made? ==> NotYet(log, e.pid))
    ensures MakeOnce(log + [e])
  {
  }

  /** Everything but the process that has acted. */
  lemma EventTold(mark: nat -> Package, gens0: map<nat, Manifest>, s: State, e: Event, s': State, p: nat)
    requires AllTold(mark, gens0, s) && s'.log == s.log + [e] && s'.procs.Keys == s.procs.Keys
    requires forall q :: q in s.procs && q != p ==> s'.procs[q] == s.procs[q] && !(e.Made? && e.pid == q)
    requires p in s.procs ==> Told(mark, gens0, s.log + [e], p, s'.procs[p])
    ensures AllTold(mark, gens0, s')
  {
    forall q | q in s'.procs ensures Told(mark, gens0, s'.log, q, s'.procs[q]) {
      if q != p { ToldStays(mark, gens0, s.log, q, s.procs[q], e); }
    }
  }

  lemma MakeTelling(op: Operations, mark: nat -> Package, gens0: map<nat, Manifest>, s: State, p: nat)
    requires PutsInFront(op, mark) && Telling(mark, gens0, s) && ProcessesValid(op, s) && p in s.procs
      && s.procs[p].Picked?
    ensures Telling(mark, gens0, Make(s, p, s.procs[p]))
  {
    var t, s' := s.procs[p], Make(s, p, s.procs[p]);
    var e := Made(p, t.work.gen, Current(s'.dir));
    assert Told(mark, gens0, s.log, p, t) && PlanValid(op, s.dir, s.log, p, t.plan);
    assert t.plan.next == [mark(p)] + t.plan.basis;
    MarkedStays(mark, gens0, s.dir.gens, s.log, e, s'.dir.gens);
    RemadeStays(s.dir.gens, s.log, e, s'.dir.gens);
    MakeOnceStays(s.log, e);
    assert (s.log + [e])[..t.plan.since] == s.log[..t.plan.since];
    EventTold(mark, gens0, s, e, s', p);
  }

  lemma CommitTelling(op: Operations, mark: nat -> Package, gens0: map<nat, Manifest>, s: State, p: nat)
    requires Telling(mark, gens0, s) && p in s.procs && s.procs[p].Created?
    ensures Telling(mark, gens0, CommitPlan(s, p, s.procs[p]))
  {
    var t, s' := s.procs[p], CommitPlan(s, p, s.procs[p]);
    var e := CommitOf(s.dir, p, t);
    MarkedStays(mark, gens0, s.dir.gens, s.log, e, s'.dir.gens);
    RemadeStays(s.dir.gens, s.log, e, s'.dir.gens);
    MakeOnceStays(s.log, e);
    EventTold(mark, gens0, s, e, s', p);
  }

  lemma OutsideTelling(mark: nat -> Package, gens0: map<nat, Manifest>, s: State, d: Directory, e: Event)
    requires Telling(mark, gens0, s) && !e.Made? && !e.Meddled?
    requires forall n :: n in d.gens ==>
               n in s.dir.gens && d.gens[n] == s.dir.gens[n] && (e.Removed? ==> n !in e.numbers)
    ensures Telling(mark, gens0, Outside(s, d, e))
  {
    MarkedStays(mark, gens0, s.dir.gens, s.log, e, d.gens);
    RemadeStays(s.dir.gens, s.log, e, d.gens);
    MakeOnceStays(s.log, e);
    forall q | q in s.procs ensures Told(mark, gens0, s.log + [e], q, s.procs[q]) {
      ToldStays(mark, gens0, s.log, q, s.procs[q], e);
    }
  }

  lemma StepKeepsTelling(op: Operations, mark: nat -> Package, gens0: map<nat, Manifest>, s: State, m: Move)
    requires PutsInFront(op, mark) && Telling(mark, gens0, s) && ProcessesValid(op, s)
    requires Enabled(op, s, m) && !m.Meddle?
    ensures Telling(mark, gens0, Do(s, m))
  {
    match m {
      case By(p, a) =>
        if !LeavesTrace(s.procs[p], a) {
          SilentTold(op, mark, gens0, s, p, s.procs[p], a);
        } else if a.MakeGeneration? {
          MakeTelling(op, mark, gens0, s, p);
        } else {
          CommitTelling(op, mark, gens0, s, p);
        }
      case Delete(numbers) =>
        var d := RemovedDir(s.dir, numbers);
        OutsideTelling(mark, gens0, s, d, Removed(numbers, Current(d)));
      case SwitchTo(gen) =>
        var d := LinkedDir(s.dir, gen);
        OutsideTelling(mark, gens0, s, d, Switched(Before(Some(gen), s.dir.link), Current(d)));
    }
  }

  /** Nobody changes the profile but the processes and the commands that delete and switch generations. */
  ghost predicate Closed(moves: seq<Move>) {
    forall m :: m in moves ==> !m.Meddle?
  }

  lemma FrontClosed(moves: seq<Move>)
    requires moves != [] && Closed(moves)
    ensures Closed(moves[..|moves| - 1]) && !moves[|moves| - 1].Meddle?
  {
    assert moves[|moves| - 1] in moves;
  }

  lemma {:induction false} RunIsTelling(op: Operations, mark: nat -> Package, s0: State, moves: seq<Move>, s: State)
    requires PutsInFront(op, mark) && Initial(s0) && IsRun(op, s0, moves, s) && Closed(moves)
    ensures Telling(mark, s0.dir.gens, s)
  {
    if moves != [] {
      var front, m := moves[..|moves| - 1], moves[|moves| - 1];
      FrontClosed(moves);
      var t :| IsRun(op, s0, front, t) && Enabled(op, t, m) && s == Do(t, m);
      RunIsTelling(op, mark, s0, front, t);
      CommitsAreCurrent(op, s0, front, t);
      StepKeepsTelling(op, mark, s0.dir.gens, t, m);
    }
  }

  // ----- Equal elements are from the same generation -----

  /** What is in a generation now and what was read tell that the same generation was read, and that nothing has been
      done to it since. */
  lemma SameOrigin(mark: nat -> Package, gens0: map<nat, Manifest>, gens: map<nat, Manifest>, log: seq<Event>,
                   since: nat, m: nat, basis: Manifest, n: nat)
    requires Distinct(gens0, mark) && MakeOnce(log) && since <= |log| && n in gens && basis == gens[n]
    requires forall p, q :: mark(p) == mark(q) ==> p == q
    requires Marked(mark, gens0, LastMade(log[..since], m), m, basis)
      && Marked(mark, gens0, LastMade(log, n), n, gens[n])
    ensures m == n && forall k :: since <= k < |log| ==> !Makes(log[k], n)
  {
    var made, now := LastMade(log[..since], m), LastMade(log, n);
    if made.Some? && now.Some? {
      assert made == now;
      var i := LastMadeIs(log[..since], m);
      var j := LastMadeIs(log, n);
      assert MadeAt(log, i, made.value, m);
      assert i == j;
    } else if now.None? {
      forall k | 0 <= k < |log| ensures !Makes(log[k], n) { NeverMade(log, n, k); }
    }
  }

  lemma NotRemade(gens: map<nat, Manifest>, log: seq<Event>, since: nat, n: nat, k: nat)
    requires Remade(gens, log) && n in gens && since <= k < |log| && !log[k].Meddled?
    requires forall j :: since <= j < |log| ==> !Makes(log[j], n)
    ensures !Touches(log[k], n)
  {
  }

  /** A commit is computed from what is shown only if it was read from the generation that is shown. */
  lemma CurrentMeansShown(op: Operations, mark: nat -> Package, gens0: map<nat, Manifest>, s: State, p: nat)
    requires PutsInFront(op, mark) && Distinct(gens0, mark) && Telling(mark, gens0, s)
    requires p in s.procs && s.procs[p].Created? && s.procs[p].plan.basis == Current(s.dir) != []
    ensures ReadsShown(s.log, s.procs[p].plan, s.dir.link)
  {
    var plan, n := s.procs[p].plan, s.dir.link.value;
    assert Told(mark, gens0, s.log, p, s.procs[p]);
    assert Marked(mark, gens0, LastMade(s.log, n), n, s.dir.gens[n]);
    SameOrigin(mark, gens0, s.dir.gens, s.log, plan.since, plan.at.value, plan.basis, n);
    forall k | plan.since <= k < |s.log| ensures !Touches(s.log[k], n) {
      NotRemade(s.dir.gens, s.log, plan.since, n, k);
    }
  }

  /** If anything is shown: the commit is its operation's effect on that if and only if its elements were read where
      the link is and nothing has been done to that generation since. */
  ghost predicate ExactCommit(op: Operations, m0: Manifest, log: seq<Event>, e: Event)
    requires e.Commit?
  {
    Shown(m0, log) != [] ==> (op(e.pid, Shown(m0, log), e.plan.next) <==> ReadsShown(log, e.plan, e.was))
  }

  ghost predicate ExactLog(op: Operations, m0: Manifest, log: seq<Event>) {
    forall i {:trigger log[..i]} :: 0 <= i < |log| && log[i].Commit? ==> ExactCommit(op, m0, log[..i], log[i])
  }

  lemma ExactGrows(op: Operations, m0: Manifest, log: seq<Event>, e: Event)
    requires ExactLog(op, m0, log) && (e.Commit? ==> ExactCommit(op, m0, log, e))
    ensures ExactLog(op, m0, log + [e])
  {
    forall i | 0 <= i < |log + [e]| && (log + [e])[i].Commit?
      ensures ExactCommit(op, m0, (log + [e])[..i], (log + [e])[i])
    {
      assert (log + [e])[..i] == log[..i];
      if i == |log| { assert log[..i] == log; }
    }
  }

  lemma CommitIsExact(op: Operations, mark: nat -> Package, gens0: map<nat, Manifest>, m0: Manifest, s: State, p: nat)
    requires PutsInFront(op, mark) && Distinct(gens0, mark) && Telling(mark, gens0, s)
    requires Explained(op, m0, s) && p in s.procs && s.procs[p].Created?
    ensures ExactCommit(op, m0, s.log, CommitOf(s.dir, p, s.procs[p]))
  {
    var t := s.procs[p];
    assert ProcessValid(op, s.dir, s.log, p, t);
    CommitIsExplained(op, m0, s.dir, s.log, p, t);
    FrontIsInjective(mark(p), t.plan.basis, Current(s.dir));
    if t.plan.basis == Current(s.dir) != [] { CurrentMeansShown(op, mark, gens0, s, p); }
  }

  lemma FrontIsInjective(x: Package, a: Manifest, b: Manifest)
    ensures [x] + a == [x] + b <==> a == b
  {
    assert ([x] + a)[1..] == a && ([x] + b)[1..] == b;
  }

  lemma StepIsExact(op: Operations, mark: nat -> Package, gens0: map<nat, Manifest>, m0: Manifest, s: State, m: Move)
    requires PutsInFront(op, mark) && Distinct(gens0, mark) && Telling(mark, gens0, s)
    requires Explained(op, m0, s) && Enabled(op, s, m) && ExactLog(op, m0, s.log)
    ensures ExactLog(op, m0, Do(s, m).log)
  {
    var s' := Do(s, m);
    if m.By? && !LeavesTrace(s.procs[m.p], m.a) {
      assert s'.log == s.log;
    } else {
      if m.By? && m.a.SwitchLink? { CommitIsExact(op, mark, gens0, m0, s, m.p); }
      ExactGrows(op, m0, s.log, s'.log[|s.log|]);
    }
  }

  /** In every run of the processes and of the commands that delete and switch generations, with processes that go on
      without the lock: if every process puts a package of its own in front and the first generations differ, a
      commit is its operation's effect on what is shown if and only if its elements were read where the link is at
      its end, and nothing has been done to that generation since. */
  lemma {:induction false} CurrentIffReadsShown(op: Operations, mark: nat -> Package, s0: State, moves: seq<Move>,
                                                s: State)
    requires PutsInFront(op, mark) && Distinct(s0.dir.gens, mark)
    requires Initial(s0) && IsRun(op, s0, moves, s) && Closed(moves)
    ensures ExactLog(op, Current(s0.dir), s.log)
  {
    if moves != [] {
      var front, m := moves[..|moves| - 1], moves[|moves| - 1];
      FrontClosed(moves);
      var t :| IsRun(op, s0, front, t) && Enabled(op, t, m) && s == Do(t, m);
      CurrentIffReadsShown(op, mark, s0, front, t);
      CommitsAreCurrent(op, s0, front, t);
      RunIsTelling(op, mark, s0, front, t);
      StepIsExact(op, mark, s0.dir.gens, Current(s0.dir), t, m);
    }
  }
}
