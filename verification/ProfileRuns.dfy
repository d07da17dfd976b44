/** Runs in which a commit is not current: the elements were read from another generation than the one it replaces,
    from one that was removed and made again, or the link was moved between the check and the commit. */
module ProfileRuns {
  import opened Basics
  import opened Packages
  import opened EnvOperations
  import opened ProfileTransactions
  import opened ProfileSerialisation
  import opened ProfileExactness

  /** Every process installs a package with `--preserve-installed`. */
  ghost function Installs(mark: nat -> Package): Operations {
    (p: nat, a, b) => Effect(Install([mark(p)], true, false), a, b)
  }

  lemma InstallIs(mark: nat -> Package, p: nat, a: Manifest, b: Manifest)
    ensures Installs(mark)(p, a, b) <==> b == [mark(p)] + a
  {
    SurvivorsAll(NamesOf([mark(p)]), true, a);
  }

  /** So the exact condition is that of concurrent installations of different packages. */
  lemma InstallsPutInFront(mark: nat -> Package)
    requires forall p, q :: mark(p) == mark(q) ==> p == q
    ensures PutsInFront(Installs(mark), mark)
  {
    forall p, a, b ensures Installs(mark)(p, a, b) <==> b == [mark(p)] + a { InstallIs(mark, p, a, b); }
  }

  // ----- Steps of a run -----

  /** A set of states that no step leaves, or none of those that honour the lock. */
  ghost predicate Kept(op: Operations, run: State -> bool, honoured: bool) {
    forall s, m :: run(s) && Enabled(op, s, m) && (honoured ==> Polite(m)) ==> run(Do(s, m))
  }

  ghost function Reached(op: Operations, s0: State, honoured: bool): State -> bool {
    s => exists moves :: IsRun(op, s0, moves, s) && (honoured ==> Honoured(moves))
  }

  lemma ReachedIsKept(op: Operations, s0: State, honoured: bool)
    ensures Kept(op, Reached(op, s0, honoured), honoured) && Reached(op, s0, honoured)(s0)
  {
    var run := Reached(op, s0, honoured);
    forall s, m | run(s) && Enabled(op, s, m) && (honoured ==> Polite(m)) ensures run(Do(s, m)) {
      var moves :| IsRun(op, s0, moves, s) && (honoured ==> Honoured(moves));
      assert (moves + [m])[..|moves|] == moves;
      assert IsRun(op, s0, moves + [m], Do(s, m));
    }
    assert IsRun(op, s0, [], s0);
  }

  /** A step without a trace takes process p to t. */
  lemma Quietly(op: Operations, run: State -> bool, s: State, p: nat, a: Act, t: Process, lock: Option<nat>)
    returns (s': State)
    requires Kept(op, run, Polite(By(p, a))) && run(s) && p in s.procs && CanDo(op, s, p, s.procs[p], a)
      && !LeavesTrace(s.procs[p], a)
    requires t == Moved(s, s.procs[p], a) && lock == LockAfter(s, p, s.procs[p], a)
    ensures run(s') && s' == State(s.dir, lock, s.procs[p := t], s.log)
  {
    s' := Do(s, By(p, a));
  }

  lemma Take(op: Operations, run: State -> bool, s: State, p: nat) returns (s': State)
    requires Kept(op, run, true) && run(s) && p in s.procs && s.procs[p].Ready?
    ensures run(s') && s' == s.(procs := s.procs[p := HasToken(s.dir.link, |s.log|)])
  {
    s' := Quietly(op, run, s, p, TakeToken, HasToken(s.dir.link, |s.log|), s.lock);
  }

  lemma Read(op: Operations, run: State -> bool, s: State, p: nat, next: Manifest) returns (s': State)
    requires Kept(op, run, true) && run(s) && p in s.procs && s.procs[p].HasToken? && op(p, Current(s.dir), next)
    ensures var t := s.procs[p];
            && run(s')
            && s' == s.(procs :=
                 s.procs[p := Planned(Plan(t.token, t.from, s.dir.link, |s.log|, Current(s.dir), next))])
  {
    var t := s.procs[p];
    s' := Quietly(op, run, s, p, ReadAndPlan(next),
                  Planned(Plan(t.token, t.from, s.dir.link, |s.log|, Current(s.dir), next)), s.lock);
  }

  lemma Lock(op: Operations, run: State -> bool, s: State, p: nat, locks: bool) returns (s': State)
    requires Kept(op, run, locks) && run(s) && p in s.procs && s.procs[p].Planned? && (locks ==> s.lock.None?)
    ensures run(s')
    ensures s' == State(s.dir, if locks then Some(p) else s.lock, s.procs[p := Locked(s.procs[p].plan)], s.log)
  {
    var a := if locks then LockProfile else LockInterrupted;
    s' := Quietly(op, run, s, p, a, Locked(s.procs[p].plan), if locks then Some(p) else s.lock);
  }

  /** A process whose token is unchanged takes the lock, or goes on without it, and finds its token unchanged. */
  lemma Check(op: Operations, run: State -> bool, s: State, p: nat, locks: bool) returns (s': State)
    requires Kept(op, run, locks) && run(s) && p in s.procs && s.procs[p].Planned?
    requires s.dir.link == s.procs[p].plan.token && (locks ==> s.lock.None?)
    ensures run(s')
    ensures s' == State(s.dir, if locks then Some(p) else s.lock, s.procs[p := Checked(s.procs[p].plan, |s.log|)],
                        s.log)
  {
    var t := Checked(s.procs[p].plan, |s.log|);
    s' := Lock(op, run, s, p, locks);
    s' := Quietly(op, run, s', p, CheckToken, t, s'.lock);
    assert s'.procs == s.procs[p := t];
  }

  lemma MakeNew(op: Operations, run: State -> bool, s: State, p: nat) returns (s': State)
    requires Kept(op, run, true) && run(s) && p in s.procs && s.procs[p].Picked? && s.procs[p].isNew
    ensures run(s') && s' == Make(s, p, s.procs[p])
  {
    s' := Do(s, By(p, MakeGeneration));
  }

  lemma Prepare(op: Operations, run: State -> bool, s: State, p: nat, g: nat) returns (s': State)
    requires Kept(op, run, true) && run(s) && p in s.procs && s.procs[p].Checked?
    requires g == NextGeneration(s.dir.gens, s.procs[p].plan.next) && g !in s.dir.gens
    ensures var t := s.procs[p];
            var d := MadeDir(s.dir, g, t.plan.next);
            && run(s')
            && s' == State(d, s.lock, s.procs[p := Created(t.plan, Work(t.checked, g, |s.log|))],
                           s.log + [Made(p, g, Current(d))])
  {
    var t := s.procs[p];
    var work := Work(t.checked, g, |s.log|);
    s' := Quietly(op, run, s, p, PickNumber, Picked(t.plan, work, true), s.lock);
    s' := MakeNew(op, run, s', p);
    assert s'.procs == s.procs[p := Created(t.plan, work)];
  }

  lemma Switch(op: Operations, run: State -> bool, s: State, p: nat) returns (s': State)
    requires Kept(op, run, true) && run(s) && p in s.procs && s.procs[p].Created?
    ensures run(s') && s' == CommitPlan(s, p, s.procs[p])
  {
    s' := Do(s, By(p, SwitchLink));
  }

  /** What a process that has found its token unchanged leaves when it commits to a new generation. */
  ghost predicate Committed(s: State, p: nat, g: nat, s': State) {
    && p in s.procs && s.procs[p].Checked?
    && s'.dir == Directory(s.dir.gens[g := s.procs[p].plan.next], Some(g))
    && s'.lock == Released(s.lock, p) && s'.procs == s.procs[p := Finished]
    && s'.log == s.log + [Made(p, g, Current(MadeDir(s.dir, g, s.procs[p].plan.next)))]
                 + [Commit(p, s.procs[p].plan, Work(s.procs[p].checked, g, |s.log|), s.dir.link, s.procs[p].plan.next)]
  }

  lemma Finish(op: Operations, run: State -> bool, s: State, p: nat, g: nat) returns (s': State)
    requires Kept(op, run, true) && run(s) && p in s.procs && s.procs[p].Checked?
    requires g == NextGeneration(s.dir.gens, s.procs[p].plan.next) && g !in s.dir.gens
    ensures run(s') && Committed(s, p, g, s')
  {
    s' := Prepare(op, run, s, p, g);
    s' := Switch(op, run, s', p);
    assert s'.procs == s.procs[p := Finished];
  }

  lemma SwitchBack(op: Operations, run: State -> bool, s: State, g: nat) returns (s': State)
    requires Kept(op, run, true) && run(s) && s.lock.None? && g in s.dir.gens
    ensures run(s') && s'.dir == Directory(s.dir.gens, Some(g)) && s'.lock.None? && s'.procs == s.procs
    ensures |s'.log| == |s.log| + 1 && s.log <= s'.log
  {
    s' := Do(s, SwitchTo(g));
  }

  lemma GreatestIs(numbers: set<nat>, m: nat)
    requires m in numbers && forall n :: n in numbers ==> n <= m
    ensures Greatest(numbers) == m
  {
  }

  lemma NextIs(gens: map<nat, Manifest>, last: nat, next: Manifest)
    requires last in gens && (forall n :: n in gens ==> n <= last) && gens[last] != next
    ensures NextGeneration(gens, next) == last + 1
  {
    GreatestIs(gens.Keys, last);
  }

  /** Two processes that have not begun yet. */
  function Both(gens: map<nat, Manifest>, link: nat): State {
    State(Directory(gens, Some(link)), None, map[1 := Ready, 2 := Ready], [])
  }

  /** Process 1 is at t and process 2 at u. */
  predicate AreAt(s: State, t: Process, u: Process) {
    1 in s.procs && 2 in s.procs && s.procs[1] == t && s.procs[2] == u
  }

  lemma TakeBoth(op: Operations, run: State -> bool, gens: map<nat, Manifest>, link: nat) returns (s': State)
    requires Kept(op, run, true) && run(Both(gens, link))
    ensures run(s') && s'.dir == Directory(gens, Some(link)) && s'.lock.None? && s'.log == []
    ensures AreAt(s', HasToken(Some(link), 0), HasToken(Some(link), 0))
  {
    s' := Take(op, run, Both(gens, link), 1);
    s' := Take(op, run, s', 2);
  }

  // ----- Another generation was read -----

  /** The last event is a commit that is not its operation's effect on what was shown. */
  ghost predicate LastIsStale(op: Operations, m0: Manifest, log: seq<Event>) {
    && log != [] && log[|log| - 1].Commit?
    && var e, before := log[|log| - 1], log[..|log| - 1];
       e.after == e.plan.next && !op(e.pid, Shown(m0, before), e.after) && !ReadsShown(before, e.plan, e.was)
  }

  lemma CommittedIsStale(op: Operations, m0: Manifest, s: State, p: nat, g: nat, s': State, m: Manifest)
    requires Committed(s, p, g, s') && Current(MadeDir(s.dir, g, s.procs[p].plan.next)) == m
    requires !op(p, m, s.procs[p].plan.next) && s.procs[p].plan.since <= |s.log|
    requires s.procs[p].plan.at != s.dir.link || !Untouched(s.log, s.procs[p].plan.since, s.procs[p].plan.at)
    ensures LastIsStale(op, m0, s'.log)
  {
    var e := Made(p, g, m);
    assert s'.log[..|s'.log| - 1] == s.log + [e];
    UntouchedGrows(s.log, e, s.procs[p].plan.since, s.procs[p].plan.at);
  }

  lemma Differ(x: Package, y: Package, m: Manifest)
    ensures [x] + m != m && [x] + ([y] + m) != [x] + m && [x] + ([y] + m) != [y] + m
  {
    assert |[x] + m| == |[y] + m| == |m| + 1 && |[x] + ([y] + m)| == |m| + 2;
  }

  /** A process that has read its token installs its package. */
  lemma InstallNow(op: Operations, mark: nat -> Package, run: State -> bool, s: State, p: nat, n: nat)
    returns (s': State)
    requires PutsInFront(op, mark) && Kept(op, run, true) && run(s) && s.lock.None? && p in s.procs
      && s.procs[p].HasToken?
    requires s.dir.link == s.procs[p].token == Some(n) && n in s.dir.gens && forall k :: k in s.dir.gens ==> k <= n
    ensures run(s') && s'.lock.None? && s'.procs == s.procs[p := Finished] && s.log <= s'.log
    ensures s'.dir == Directory(s.dir.gens[n + 1 := [mark(p)] + s.dir.gens[n]], Some(n + 1))
  {
    var m := s.dir.gens[n];
    Differ(mark(p), mark(p), m);
    s' := Read(op, run, s, p, [mark(p)] + m);
    s' := Check(op, run, s', p, true);
    NextIs(s.dir.gens, n, [mark(p)] + m);
    s' := Finish(op, run, s', p, n + 1);
    assert s'.procs == s.procs[p := Finished];
  }

  /** Process 1 has its token, and the package of process 2 is installed. */
  lemma SecondInstalls(op: Operations, mark: nat -> Package, run: State -> bool, m: Manifest) returns (s': State)
    requires PutsInFront(op, mark) && Kept(op, run, true) && run(Both(map[1 := m], 1))
    ensures run(s') && s'.lock.None? && AreAt(s', HasToken(Some(1), 0), Finished)
    ensures s'.dir == Directory(map[1 := m][2 := [mark(2)] + m], Some(2))
  {
    s' := TakeBoth(op, run, map[1 := m], 1);
    s' := InstallNow(op, mark, run, s', 2, 1);
  }

  lemma StaleCommit(op: Operations, mark: nat -> Package, run: State -> bool, m: Manifest, s: State) returns (s': State)
    requires PutsInFront(op, mark) && Kept(op, run, true) && run(s) && s.lock.None?
      && AreAt(s, HasToken(Some(1), 0), Finished)
    requires s.dir == Directory(map[1 := m][2 := [mark(2)] + m], Some(2))
    ensures run(s') && LastIsStale(op, m, s'.log)
  {
    var next := [mark(1)] + ([mark(2)] + m);
    Differ(mark(1), mark(2), m);
    s' := Read(op, run, s, 1, next);
    s' := SwitchBack(op, run, s', 1);
    var t := Check(op, run, s', 1, true);
    NextIs(s.dir.gens, 2, next);
    s' := Finish(op, run, t, 1, 3);
    CommittedIsStale(op, m, t, 1, 3, s', m);
  }

  /** Process 1 reads its token, process 2 installs, process 1 reads the elements, the link is switched back, and
      process 1 finds its token unchanged: it installs what was switched away from again. */
  lemma ReadElsewhere(op: Operations, mark: nat -> Package, m: Manifest) returns (moves: seq<Move>, s: State)
    requires PutsInFront(op, mark)
    ensures Initial(Both(map[1 := m], 1)) && IsRun(op, Both(map[1 := m], 1), moves, s) && Honoured(moves)
    ensures LastIsStale(op, m, s.log)
  {
    var run := Reached(op, Both(map[1 := m], 1), true);
    ReachedIsKept(op, Both(map[1 := m], 1), true);
    s := SecondInstalls(op, mark, run, m);
    s := StaleCommit(op, mark, run, m, s);
    moves :| IsRun(op, Both(map[1 := m], 1), moves, s) && Honoured(moves);
  }

  // ----- The generation that was read was removed and made again -----

  lemma Discard(op: Operations, run: State -> bool, s: State, g: nat) returns (s': State)
    requires Kept(op, run, true) && run(s) && s.lock.None? && s.dir.link != Some(g)
    ensures run(s') && s'.dir == Directory(s.dir.gens - {g}, s.dir.link) && s'.lock.None? && s'.procs == s.procs
    ensures s'.log == s.log + [Removed({g}, Current(s'.dir))]
  {
    s' := Do(s, Delete({g}));
  }

  /** Process 1 reads generation 2; the link is switched back and generation 2 is deleted. */
  lemma ReadThenDelete(op: Operations, mark: nat -> Package, run: State -> bool, m1: Manifest, m2: Manifest)
    returns (s': State)
    requires PutsInFront(op, mark) && Kept(op, run, true) && run(Both(map[1 := m1, 2 := m2], 2))
    ensures run(s') && s'.lock.None? && s'.dir == Directory(map[1 := m1], Some(1)) && |s'.log| == 2
    ensures Touches(s'.log[1], 2) && AreAt(s', Planned(Plan(Some(2), 0, Some(2), 0, m2, [mark(1)] + m2)), Ready)
  {
    s' := Take(op, run, Both(map[1 := m1, 2 := m2], 2), 1);
    s' := Read(op, run, s', 1, [mark(1)] + m2);
    s' := SwitchBack(op, run, s', 1);
    s' := Discard(op, run, s', 2);
    assert s'.dir.gens == map[1 := m1];
  }

  lemma InstallAgain(op: Operations, mark: nat -> Package, run: State -> bool, m1: Manifest, s: State)
    returns (s': State)
    requires PutsInFront(op, mark) && Kept(op, run, true) && run(s) && s.lock.None? && 2 in s.procs && s.procs[2].Ready?
    requires s.dir == Directory(map[1 := m1], Some(1))
    ensures run(s') && s'.lock.None? && s'.procs == s.procs[2 := Finished] && s.log <= s'.log
    ensures s'.dir == Directory(map[1 := m1][2 := [mark(2)] + m1], Some(2))
  {
    s' := Take(op, run, s, 2);
    s' := InstallNow(op, mark, run, s', 2, 1);
    assert s'.procs == s.procs[2 := Finished];
  }

  lemma RemadeCommit(op: Operations, mark: nat -> Package, run: State -> bool, m1: Manifest, m2: Manifest, s: State)
    returns (s': State)
    requires PutsInFront(op, mark) && Kept(op, run, true) && run(s) && s.lock.None? && m2 != [mark(2)] + m1
    requires s.dir == Directory(map[1 := m1][2 := [mark(2)] + m1], Some(2)) && |s.log| >= 2 && Touches(s.log[1], 2)
    requires 1 in s.procs && s.procs[1] == Planned(Plan(Some(2), 0, Some(2), 0, m2, [mark(1)] + m2))
    ensures run(s') && LastIsStale(op, m2, s'.log)
  {
    var t := Check(op, run, s, 1, true);
    assert ([mark(1)] + m2)[0] != ([mark(2)] + m1)[0];
    NextIs(s.dir.gens, 2, [mark(1)] + m2);
    s' := Finish(op, run, t, 1, 3);
    FrontIsInjective(mark(1), m2, [mark(2)] + m1);
    CommittedIsStale(op, m2, t, 1, 3, s', [mark(2)] + m1);
  }

  /** The token of process 1 is the number of a generation that was deleted and made again by somebody else. */
  lemma ReadBeforeRemade(op: Operations, mark: nat -> Package, m1: Manifest, m2: Manifest)
    returns (moves: seq<Move>, s: State)
    requires PutsInFront(op, mark) && m2 != [mark(2)] + m1
    ensures var s0 := Both(map[1 := m1, 2 := m2], 2);
            Initial(s0) && IsRun(op, s0, moves, s) && Honoured(moves) && LastIsStale(op, m2, s.log)
  {
    var s0 := Both(map[1 := m1, 2 := m2], 2);
    ReachedIsKept(op, s0, true);
    s := ReadThenDelete(op, mark, Reached(op, s0, true), m1, m2);
    s := InstallAgain(op, mark, Reached(op, s0, true), m1, s);
    s := RemadeCommit(op, mark, Reached(op, s0, true), m1, m2, s);
    moves :| IsRun(op, s0, moves, s) && Honoured(moves);
  }

  // ----- The link was moved between the check and the commit -----

  function PlanFor(mark: nat -> Package, m: Manifest, p: nat): Plan {
    Plan(Some(1), 0, Some(1), 0, m, [mark(p)] + m)
  }

  lemma PlanBoth(op: Operations, mark: nat -> Package, run: State -> bool, m: Manifest) returns (s': State)
    requires PutsInFront(op, mark) && Kept(op, run, true) && run(Both(map[1 := m], 1))
    ensures run(s') && s'.dir == Directory(map[1 := m], Some(1)) && s'.lock.None? && s'.log == []
    ensures AreAt(s', Planned(PlanFor(mark, m, 1)), Planned(PlanFor(mark, m, 2)))
  {
    s' := TakeBoth(op, run, map[1 := m], 1);
    s' := Read(op, run, s', 1, [mark(1)] + m);
    s' := Read(op, run, s', 2, [mark(2)] + m);
  }

  /** A signal lets process 2 check its token while process 1 is committing. */
  lemma CheckBoth(op: Operations, mark: nat -> Package, run: State -> bool, m: Manifest) returns (s': State)
    requires PutsInFront(op, mark) && Kept(op, run, false) && run(Both(map[1 := m], 1))
    ensures run(s') && s'.dir == Directory(map[1 := m], Some(1)) && s'.log == []
    ensures AreAt(s', Checked(PlanFor(mark, m, 1), 0), Checked(PlanFor(mark, m, 2), 0))
  {
    s' := PlanBoth(op, mark, run, m);
    s' := Check(op, run, s', 1, true);
    s' := Check(op, run, s', 2, false);
  }

  lemma LostCommit(op: Operations, mark: nat -> Package, run: State -> bool, m: Manifest, s: State) returns (s': State)
    requires PutsInFront(op, mark) && Kept(op, run, true) && run(s) && s.dir == Directory(map[1 := m], Some(1))
      && s.log == []
    requires AreAt(s, Checked(PlanFor(mark, m, 1), 0), Checked(PlanFor(mark, m, 2), 0))
    ensures run(s') && LastIsStale(op, m, s'.log) && Current(s'.dir) == [mark(2)] + m
  {
    Differ(mark(1), mark(2), m);
    Differ(mark(2), mark(1), m);
    NextIs(map[1 := m], 1, [mark(1)] + m);
    var t := Finish(op, run, s, 1, 2);
    assert ([mark(1)] + m)[0] != ([mark(2)] + m)[0];
    NextIs(t.dir.gens, 2, [mark(2)] + m);
    s' := Finish(op, run, t, 2, 3);
    CommittedIsStale(op, m, t, 2, 3, s', [mark(1)] + m);
  }

  /** Both commit, and what process 1 has installed is lost. */
  lemma InterruptionLosesCommit(op: Operations, mark: nat -> Package, m: Manifest) returns (moves: seq<Move>, s: State)
    requires PutsInFront(op, mark)
    ensures Initial(Both(map[1 := m], 1)) && IsRun(op, Both(map[1 := m], 1), moves, s)
    ensures LastIsStale(op, m, s.log) && Current(s.dir) == [mark(2)] + m
  {
    var run := Reached(op, Both(map[1 := m], 1), false);
    ReachedIsKept(op, Both(map[1 := m], 1), false);
    s := CheckBoth(op, mark, run, m);
    s := LostCommit(op, mark, run, m, s);
    moves :| IsRun(op, Both(map[1 := m], 1), moves, s);
  }
}
