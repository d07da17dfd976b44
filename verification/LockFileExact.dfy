/** Exactly which signals and crashes can bring two processes inside. */
module LockFileExact {
  import opened Basics
  import opened LockFile

  predicate Lives(s: State, p: nat) {
    p in s.procs && !s.procs[p].Gone?
  }

  predicate Has(s: State, p: nat, i: nat) {
    p in s.procs && HasFile(s.procs[p]) && s.procs[p].file == i
  }

  /** Another process has opened the file. */
  ghost predicate HasOther(s: State, p: nat, i: nat) {
    exists q :: q != p && Has(s, q, i)
  }

  /** Another process lives that has not opened the file. */
  ghost predicate LivesWithout(s: State, p: nat, i: nat) {
    exists r :: r != p && Lives(s, r) && !Has(s, r, i)
  }

  ghost predicate LivesOther(s: State, p: nat) {
    exists r :: r != p && Lives(s, r)
  }

  /** A signal ends the waiting for a file that is not marked, while another process lives; or a process dies between
      removing the name of its file and marking it, while another one has opened the file and yet another one lives
      that has not. */
  ghost predicate Harmful(s: State, p: nat, a: Act) {
    p in s.procs
    && ((a.Interrupt? && s.procs[p].Waiting? && s.procs[p].file !in s.marked && LivesOther(s, p))
        || (a.Crash? && s.procs[p].Unlinked? && HasOther(s, p, s.procs[p].file)
            && LivesWithout(s, p, s.procs[p].file)))
  }

  ghost predicate Harmless(s: State, p: nat, a: Act) {
    !Harmful(s, p, a)
  }

  // ----- Without harmful steps -----

  /** At most one process lives. */
  ghost predicate Few(s: State) {
    forall p, q :: Lives(s, p) && Lives(s, q) ==> p == q
  }

  /** All processes that live have opened the file i, which might as well have the name. */
  ghost predicate Stranded(s: State, i: nat) {
    (forall p :: Lives(s, p) ==> Has(s, p, i)) && Valid(s.(name := Some(i)))
  }

  ghost predicate Safe(s: State) {
    Valid(s) || (exists i :: Stranded(s, i)) || Few(s)
  }

  lemma FewStay(s: State, p: nat, a: Act)
    requires Enabled(s, p, a)
    ensures forall q :: Lives(Do(s, p, a), q) ==> Lives(s, q)
  {
  }

  /** The last process that lives goes on without the lock. */
  lemma LonelySignal(s: State, p: nat)
    requires Enabled(s, p, Interrupt) && !LivesOther(s, p)
    ensures Few(Do(s, p, Interrupt))
  {
    FewStay(s, p, Interrupt);
  }

  /** All that live wait for the file that was not marked. */
  lemma CrashStrands(s: State, p: nat, i: nat)
    requires Valid(s) && p in s.procs && s.procs[p] == Unlinked(i) && !LivesWithout(s, p, i)
    ensures Stranded(Do(s, p, Crash), i)
  {
    var s' := Do(s, p, Crash);
    forall q | Lives(s', q) ensures s'.procs[q] == Waiting(i) && Has(s', q, i) {
      assert q != p && Lives(s, q) && Has(s, q, i);
    }
    assert s'.holder == map[] by {
      forall j | j in s.holder ensures s.holder[j] == p {
        assert Lives(s', s.holder[j]) || s.holder[j] == p;
      }
    }
    assert Valid(s'.(name := Some(i)));
  }

  lemma DisorderlyCrash(s: State, p: nat)
    requires p in s.procs && !Orderly(s, p, Crash)
    ensures s.procs[p].Unlinked? && HasOther(s, p, s.procs[p].file)
  {
    var q :| q in s.procs && q != p && HasFile(s.procs[q]) && s.procs[q].file == s.procs[p].file;
    assert Has(s, q, s.procs[p].file);
  }

  lemma StrandedStep(s: State, i: nat, p: nat, a: Act)
    requires Stranded(s, i) && Enabled(s, p, a) && Harmless(s, p, a)
    ensures Safe(Do(s, p, a))
  {
    var x := s.(name := Some(i));
    assert Lives(s, p) && Has(s, p, i);
    if a.Interrupt? {
      LonelySignal(s, p);
    } else {
      StepKeepsValid(x, p, a);
      if a.Unlink? {
        assert Do(s, p, a) == Do(x, p, a);
      } else {
        var s' := Do(s, p, a);
        assert s'.(name := Some(i)) == Do(x, p, a);
        FewStay(s, p, a);
        forall q | Lives(s', q) ensures Has(s', q, i) { assert Has(s, q, i); }
        assert Stranded(s', i);
      }
    }
  }

  lemma StepKeepsSafe(s: State, p: nat, a: Act)
    requires Safe(s) && Enabled(s, p, a) && Harmless(s, p, a)
    ensures Safe(Do(s, p, a))
  {
    if Valid(s) {
      if Orderly(s, p, a) {
        StepKeepsValid(s, p, a);
      } else if a.Interrupt? {
        LonelySignal(s, p);
      } else {
        DisorderlyCrash(s, p);
        CrashStrands(s, p, s.procs[p].file);
      }
    } else if i :| Stranded(s, i) {
      StrandedStep(s, i, p, a);
    } else {
      FewStay(s, p, a);
    }
  }

  lemma SafeMeansOne(s: State)
    requires Safe(s)
    ensures !TwoInside(s)
  {
    if !Valid(s) {
      if i :| Stranded(s, i) {
        assert Valid(s.(name := Some(i)));
      } else {
        assert forall p :: p in s.procs && s.procs[p].Inside? ==> Lives(s, p);
      }
    }
  }

  lemma {:induction false} HarmlessIsSafe(s0: State, steps: seq<(nat, Act)>, s: State)
    requires Safe(s0) && IsRun(s0, steps, s, Harmless)
    ensures Safe(s)
  {
    if steps != [] {
      var front, p, a := steps[..|steps| - 1], steps[|steps| - 1].0, steps[|steps| - 1].1;
      var t :| IsRun(s0, front, t, Harmless) && Enabled(t, p, a) && Harmless(t, p, a) && s == Do(t, p, a);
      HarmlessIsSafe(s0, front, t);
      StepKeepsSafe(t, p, a);
    }
  }

  // ----- After a harmful step -----

  predicate Plain(a: Act) {
    !a.Interrupt? && !a.Crash?
  }

  /** Closed under the steps of all processes but f that are neither a signal nor a crash. */
  ghost predicate Kept(run: State -> bool, f: nat) {
    forall s, p, a :: run(s) && p != f && Enabled(s, p, a) && Plain(a) ==> run(Do(s, p, a))
  }

  /** A process other than f is inside. */
  ghost predicate OtherInside(s: State, f: nat) {
    exists p :: p != f && p in s.procs && s.procs[p].Inside?
  }

  /** f is gone, or it has removed the name of its file. */
  predicate Aside(s: State, f: nat) {
    f in s.procs && (s.procs[f].Gone? || s.procs[f].Unlinked?)
  }

  lemma LookedIn(run: State -> bool, f: nat, s: State, p: nat) returns (s': State)
    requires Kept(run, f) && run(s) && Valid(s) && p != f && p in s.procs && s.procs[p].Locked?
    ensures run(s') && Valid(s') && p in s'.procs && s'.procs == s.procs[p := s'.procs[p]]
    ensures s'.procs[p] == if s.procs[p].file in s.marked then Outside else Inside(s.procs[p].file)
  {
    StepKeepsValid(s, p, Look);
    s' := Do(s, p, Look);
  }

  /** A process that has got beyond waiting gets inside or outside. */
  lemma HolderMoves(run: State -> bool, f: nat, s: State, p: nat) returns (s': State)
    requires Kept(run, f) && run(s) && Valid(s) && p != f && p in s.procs && Holds(s.procs[p])
    ensures run(s') && Valid(s') && p in s'.procs && s'.procs == s.procs[p := s'.procs[p]]
    ensures s'.procs[p].Inside? || s'.procs[p].Outside?
  {
    s' := s;
    if s.procs[p].Locked? {
      s' := LookedIn(run, f, s, p);
    } else if !s.procs[p].Inside? {
      if s.procs[p].Unlinked? {
        StepKeepsValid(s', p, Mark);
        s' := Do(s', p, Mark);
      }
      StepKeepsValid(s', p, Close);
      s' := Do(s', p, Close);
    }
    assert s'.procs == s.procs[p := s'.procs[p]];
  }

  /** A process that finds the lock free gets inside. */
  lemma EnterFree(run: State -> bool, f: nat, s: State, p: nat) returns (s': State)
    requires Kept(run, f) && run(s) && Valid(s) && p != f && p in s.procs && s.procs[p].Outside?
    requires s.name.Some? ==> s.name.value !in s.holder
    ensures run(s') && OtherInside(s', f)
  {
    StepKeepsValid(s, p, Open);
    s' := Do(s, p, Open);
    StepKeepsValid(s', p, GetLock);
    s' := Do(s', p, GetLock);
    s' := LookedIn(run, f, s', p);
    assert s'.procs[p].Inside?;
  }

  /** If a process is outside, that one or the one that holds the lock gets inside. */
  lemma Enter(run: State -> bool, f: nat, s: State, p: nat) returns (s': State)
    requires Kept(run, f) && run(s) && Valid(s) && Aside(s, f) && p != f && p in s.procs && s.procs[p].Outside?
    ensures run(s') && OtherInside(s', f)
  {
    if s.name.Some? && s.name.value in s.holder {
      var h := s.holder[s.name.value];
      s' := s;
      if s.procs[h].Locked? { s' := LookedIn(run, f, s, h); }
      assert h != f && s'.procs[h].Inside?;
    } else {
      s' := EnterFree(run, f, s, p);
    }
  }

  /** A process that lives and does not wait for f, or the one it waits for, gets inside or outside. */
  lemma Moves(run: State -> bool, f: nat, s: State, p: nat) returns (s': State, q: nat)
    requires Kept(run, f) && run(s) && Valid(s) && Aside(s, f) && p != f && Lives(s, p)
    requires s.procs[p].Waiting? && s.procs[p].file in s.holder ==> s.holder[s.procs[p].file] != f
    ensures run(s') && Valid(s') && Aside(s', f) && q != f && q in s'.procs
    ensures s'.procs[q].Inside? || s'.procs[q].Outside?
  {
    s', q := s, p;
    if s.procs[p].Waiting? {
      if s.procs[p].file in s.holder {
        q := s.holder[s.procs[p].file];
      } else {
        StepKeepsValid(s, p, GetLock);
        s' := Do(s, p, GetLock);
      }
    }
    if Holds(s'.procs[q]) { s' := HolderMoves(run, f, s', q); }
  }

  lemma SomebodyEnters(run: State -> bool, f: nat, s: State, p: nat) returns (s': State)
    requires Kept(run, f) && run(s) && Valid(s) && Aside(s, f) && p != f && Lives(s, p)
    requires s.procs[p].Waiting? && s.procs[p].file in s.holder ==> s.holder[s.procs[p].file] != f
    ensures run(s') && OtherInside(s', f)
  {
    var q;
    s', q := Moves(run, f, s, p);
    if s'.procs[q].Outside? { s' := Enter(run, f, s', q); }
  }

  /** What can be reached without harmful steps. */
  ghost function Reached(s0: State): State -> bool {
    (s: State) => exists steps :: IsRun(s0, steps, s, Harmless)
  }

  lemma ReachedMore(s0: State, s: State, p: nat, a: Act)
    requires Reached(s0)(s) && Enabled(s, p, a) && Plain(a)
    ensures Reached(s0)(Do(s, p, a))
  {
    var steps :| IsRun(s0, steps, s, Harmless);
    assert (steps + [(p, a)])[..|steps|] == steps;
    assert IsRun(s0, steps + [(p, a)], Do(s, p, a), Harmless);
  }

  lemma ReachedStart(s0: State)
    ensures Reached(s0)(s0)
  {
    assert IsRun(s0, [], s0, Harmless);
  }

  /** The state in which q, who is gone, is inside instead, without any lock. */
  function WithInside(s: State, q: nat, i: nat): State {
    s.(procs := s.procs[q := Inside(i)])
  }

  ghost function ReachedWith(s0: State, q: nat, i: nat): State -> bool {
    (s: State) => q in s.procs && s.procs[q].Gone? && Reached(s0)(WithInside(s, q, i))
  }

  lemma WithInsideStep(s: State, q: nat, i: nat, p: nat, a: Act)
    requires q in s.procs && p != q && Enabled(s, p, a) && Plain(a)
    ensures var w := WithInside(s, q, i);
            Enabled(w, p, a) && Do(w, p, a) == WithInside(Do(s, p, a), q, i) && q in Do(s, p, a).procs
    ensures Do(s, p, a).procs[q] == s.procs[q]
  {
    var w := WithInside(s, q, i);
    assert Released(w, p) == Released(s, p);
    var t := Do(s, p, a).procs[p];
    assert w.procs[p := t] == s.procs[p := t][q := Inside(i)];
  }

  lemma ReachedWithKept(s0: State, q: nat, i: nat)
    ensures Kept(ReachedWith(s0, q, i), q)
  {
    var run := ReachedWith(s0, q, i);
    forall s, p, a | run(s) && p != q && Enabled(s, p, a) && Plain(a) ensures run(Do(s, p, a)) {
      WithInsideStep(s, q, i, p, a);
      ReachedMore(s0, WithInside(s, q, i), p, a);
    }
  }

  lemma InsideToo(s: State, q: nat, i: nat, f: nat)
    requires OtherInside(s, f) && q in s.procs && !s.procs[q].Inside?
    ensures TwoInside(WithInside(s, q, i))
  {
    var p :| p != f && p in s.procs && s.procs[p].Inside?;
    var w := WithInside(s, q, i);
    assert w.procs[p].Inside? && w.procs[q].Inside?;
  }

  /** A signal ends the waiting of q for a file that is not marked, while r lives. */
  lemma SignalLetsTwoIn(s: State, q: nat, r: nat) returns (s': State)
    requires Valid(s) && Enabled(s, q, Interrupt) && s.procs[q].file !in s.marked && r != q && Lives(s, r)
    ensures Reached(Do(s, q, Interrupt))(s') && TwoInside(s')
  {
    var s0, i := Do(s, q, Interrupt), s.procs[q].file;
    ReachedStart(s0);
    ReachedMore(s0, s0, q, Look);
    StepKeepsValid(s, q, Crash);
    var x := Do(s, q, Crash);
    assert x.holder == s.holder && WithInside(x, q, i) == Do(s0, q, Look);
    ReachedWithKept(s0, q, i);
    var x' := SomebodyEnters(ReachedWith(s0, q, i), q, x, r);
    InsideToo(x', q, i, q);
    s' := WithInside(x', q, i);
  }

  /** The same if all have opened one file. */
  lemma StrandedSignal(s: State, i: nat, q: nat, r: nat) returns (s': State)
    requires Stranded(s, i) && Enabled(s, q, Interrupt) && r != q && Lives(s, r)
    ensures Reached(Do(s, q, Interrupt))(s') && TwoInside(s')
  {
    var s0 := Do(s, q, Interrupt);
    assert Lives(s, q) && Has(s, q, i) && Has(s, r, i) && Valid(s.(name := Some(i)));
    ReachedStart(s0);
    ReachedMore(s0, s0, q, Look);
    s' := Do(s0, q, Look);
    var h := r;
    if i in s.holder {
      h := s.holder[i];
    } else {
      ReachedMore(s0, s', r, GetLock);
      s' := Do(s', r, GetLock);
    }
    assert h != q && s'.procs[q].Inside?;
    if s'.procs[h].Locked? {
      ReachedMore(s0, s', h, Look);
      s' := Do(s', h, Look);
    }
    assert s'.procs[h].Inside? && s'.procs[q].Inside?;
  }

  /** The state in which f is gone, and q, who is gone, is inside with the lock of the file that f has left. */
  function Replaced(s: State, f: nat, q: nat, i: nat): State {
    s.(procs := s.procs[f := Gone][q := Inside(i)], holder := s.holder[i := q])
  }

  ghost function ReachedInstead(s0: State, f: nat, q: nat, i: nat): State -> bool {
    (s: State) => f in s.procs && s.procs[f] == Unlinked(i) && q in s.procs && s.procs[q].Gone?
         && i in s.holder && s.holder[i] == f && Reached(s0)(Replaced(s, f, q, i))
  }

  lemma ReplacedStep(s: State, f: nat, q: nat, i: nat, p: nat, a: Act)
    requires f in s.procs && q in s.procs && f != q && p != f && p != q && Enabled(s, p, a) && Plain(a)
    requires i in s.holder && s.holder[i] == f
    ensures var w := Replaced(s, f, q, i); Enabled(w, p, a) && Do(w, p, a) == Replaced(Do(s, p, a), f, q, i)
    ensures var s' := Do(s, p, a);
            && f in s'.procs && q in s'.procs && s'.procs[f] == s.procs[f] && s'.procs[q] == s.procs[q]
            && i in s'.holder && s'.holder[i] == f
  {
    var w := Replaced(s, f, q, i);
    assert Released(w, p) == Released(s, p)[i := q];
    var t := Do(s, p, a).procs[p];
    assert w.procs[p := t] == s.procs[p := t][f := Gone][q := Inside(i)];
    if a.GetLock? {
      var j := s.procs[p].file;
      assert w.holder[j := p] == s.holder[j := p][i := q];
    }
  }

  lemma ReachedInsteadKept(s0: State, f: nat, q: nat, i: nat)
    requires f != q
    ensures Kept(ReachedInstead(s0, f, q, i), f)
  {
    var run := ReachedInstead(s0, f, q, i);
    forall s, p, a | run(s) && p != f && Enabled(s, p, a) && Plain(a) ensures run(Do(s, p, a)) {
      ReplacedStep(s, f, q, i, p, a);
      ReachedMore(s0, Replaced(s, f, q, i), p, a);
    }
  }

  /** q enters with the file that nobody holds. */
  lemma TakesFile(s0: State, q: nat, i: nat)
    requires q in s0.procs && s0.procs[q] == Waiting(i) && i !in s0.holder && i !in s0.marked
    ensures Reached(s0)(s0.(procs := s0.procs[q := Inside(i)], holder := s0.holder[i := q]))
  {
    ReachedStart(s0);
    ReachedMore(s0, s0, q, GetLock);
    var s1 := Do(s0, q, GetLock);
    ReachedMore(s0, s1, q, Look);
    assert Do(s1, q, Look).procs == s0.procs[q := Inside(i)];
  }

  /** q gets the lock of the file that f has left. */
  lemma TakesOver(s: State, f: nat, q: nat, i: nat)
    requires Valid(s) && f in s.procs && s.procs[f] == Unlinked(i) && q != f && q in s.procs && s.procs[q] == Waiting(i)
    ensures Enabled(s, f, Crash) && Enabled(s, q, Crash)
    ensures Reached(Do(s, f, Crash))(Replaced(Do(s, q, Crash), f, q, i))
  {
    var s0, x := Do(s, f, Crash), Do(s, q, Crash);
    TakesFile(s0, q, i);
    assert x.holder == s.holder && Released(s, f)[i := q] == s.holder[i := q];
    assert s0.procs[q := Inside(i)] == Replaced(x, f, q, i).procs;
  }

  /** f dies before it has marked its file, for which q waits, and r lives that does not. */
  lemma CrashLetsTwoIn(s: State, f: nat, q: nat, r: nat, i: nat) returns (s': State)
    requires Valid(s) && f in s.procs && s.procs[f] == Unlinked(i) && q != f && q in s.procs && s.procs[q] == Waiting(i)
    requires r != f && Lives(s, r) && !Has(s, r, i)
    ensures Reached(Do(s, f, Crash))(s') && TwoInside(s')
  {
    TakesOver(s, f, q, i);
    StepKeepsValid(s, q, Crash);
    var s0, x := Do(s, f, Crash), Do(s, q, Crash);
    ReachedInsteadKept(s0, f, q, i);
    var x' := SomebodyEnters(ReachedInstead(s0, f, q, i), f, x, r);
    s' := Replaced(x', f, q, i);
    var p :| p != f && p in x'.procs && x'.procs[p].Inside?;
    assert s'.procs[p].Inside? && s'.procs[q].Inside?;
  }

  lemma HarmfulSignal(s: State, p: nat) returns (s': State)
    requires Safe(s) && Enabled(s, p, Interrupt) && Harmful(s, p, Interrupt)
    ensures Reached(Do(s, p, Interrupt))(s') && TwoInside(s')
  {
    var r :| r != p && Lives(s, r);
    if Valid(s) {
      s' := SignalLetsTwoIn(s, p, r);
    } else {
      assert Lives(s, p) && !Few(s);
      var i :| Stranded(s, i);
      s' := StrandedSignal(s, i, p, r);
    }
  }

  lemma HarmfulCrash(s: State, p: nat) returns (s': State)
    requires Safe(s) && Enabled(s, p, Crash) && Harmful(s, p, Crash)
    ensures Reached(Do(s, p, Crash))(s') && TwoInside(s')
  {
    var i := s.procs[p].file;
    var q :| q != p && Has(s, q, i);
    var r :| r != p && Lives(s, r) && !Has(s, r, i);
    assert Lives(s, p) && Lives(s, q) && !Few(s);
    assert forall j :: Stranded(s, j) ==> Has(s, p, j) && Has(s, r, j);
    s' := CrashLetsTwoIn(s, p, q, r, i);
  }

  // ----- The exact condition -----

  /** After any run without harmful steps, the next step can lead to two processes inside, with no harmful steps
      after it, if and only if it is harmful itself. */
  lemma TwoInsideIff(s0: State, steps: seq<(nat, Act)>, s: State, p: nat, a: Act)
    requires Initial(s0) && IsRun(s0, steps, s, Harmless) && Enabled(s, p, a)
    ensures (exists more, s' :: IsRun(Do(s, p, a), more, s', Harmless) && TwoInside(s')) <==> Harmful(s, p, a)
  {
    assert Safe(s0);
    HarmlessIsSafe(s0, steps, s);
    if Harmful(s, p, a) {
      var s';
      if a.Interrupt? { s' := HarmfulSignal(s, p); } else { s' := HarmfulCrash(s, p); }
      var more :| IsRun(Do(s, p, a), more, s', Harmless);
      assert IsRun(Do(s, p, a), more, s', Harmless) && TwoInside(s');
    } else {
      StepKeepsSafe(s, p, a);
      forall more, s' | IsRun(Do(s, p, a), more, s', Harmless) ensures !TwoInside(s') {
        HarmlessIsSafe(Do(s, p, a), more, s');
        SafeMeansOne(s');
      }
    }
  }

  /** So two processes are never inside in a run without harmful steps. */
  lemma HarmlessExcludes(s0: State, steps: seq<(nat, Act)>, s: State)
    requires Initial(s0) && IsRun(s0, steps, s, Harmless)
    ensures !TwoInside(s)
  {
    assert Safe(s0);
    HarmlessIsSafe(s0, steps, s);
    SafeMeansOne(s);
  }

  /** While another process is outside, the harmful steps are the disorderly ones. */
  lemma HarmfulIffDisorderly(s0: State, steps: seq<(nat, Act)>, s: State, p: nat, a: Act, r: nat)
    requires Initial(s0) && IsRun(s0, steps, s, Orderly) && Enabled(s, p, a)
    requires r != p && r in s.procs && s.procs[r].Outside?
    ensures Harmful(s, p, a) <==> !Orderly(s, p, a)
  {
    RunKeepsValid(s0, steps, s);
    assert Lives(s, r);
    if !Orderly(s, p, a) && a.Crash? {
      var i := s.procs[p].file;
      var q :| q in s.procs && q != p && HasFile(s.procs[q]) && s.procs[q].file == i;
      assert Has(s, q, i) && !Has(s, r, i);
    }
  }
}
