/** The lock file of a profile, which is removed by whoever releases the lock. Removing it must not let two processes
    in: one that waits for the removed file, and one that finds no file and makes a new one. So a file that was
    removed is marked before its lock is released, and whoever gets the lock of a marked file starts again. */
module LockFile {
  import opened Basics

  /** What a process does with the file (an inode) that it has opened: it waits, it has got the lock and will look for
      the mark, it is inside, it has removed the name of the file, it has marked the file. */
  datatype Phase =
    | Outside
    | Waiting(file: nat)
    | Locked(file: nat)
    | Inside(file: nat)
    | Unlinked(file: nat)
    | Marked(file: nat)
    | Gone

  /** The file that has the name of the lock, the files that are marked, who has locked which file, the number of
      files made so far, and the processes. */
  datatype State = State(name: Option<nat>, marked: set<nat>, holder: map<nat, nat>, made: nat, procs: map<nat, Phase>)

  /** `Interrupt`: a signal ends the waiting, and the process goes on without the lock. */
  datatype Act = Open | GetLock | Interrupt | Look | Unlink | Mark | Close | Crash

  predicate CanDo(s: State, p: nat, t: Phase, a: Act) {
    match a
    case Open => t.Outside?
    case GetLock => t.Waiting? && t.file !in s.holder
    case Interrupt => t.Waiting?
    case Look => t.Locked?
    case Unlink => t.Inside?
    case Mark => t.Unlinked?
    case Close => t.Marked?
    case Crash => !t.Gone?
  }

  predicate Enabled(s: State, p: nat, a: Act) {
    p in s.procs && CanDo(s, p, s.procs[p], a)
  }

  /** Closing a file releases its lock. */
  function Released(s: State, p: nat): map<nat, nat> {
    map i | i in s.holder && s.holder[i] != p :: s.holder[i]
  }

  function To(s: State, p: nat, t: Phase): State {
    s.(procs := s.procs[p := t])
  }

  function Leave(s: State, p: nat, t: Phase): State {
    To(s, p, t).(holder := Released(s, p))
  }

  function Do(s: State, p: nat, a: Act): State
    requires Enabled(s, p, a)
  {
    var t := s.procs[p];
    match a
    case Open =>
      if s.name.Some? then To(s, p, Waiting(s.name.value))
      else To(s, p, Waiting(s.made)).(name := Some(s.made), made := s.made + 1)
    case GetLock => To(s, p, Locked(t.file)).(holder := s.holder[t.file := p])
    case Interrupt => To(s, p, Locked(t.file))
    case Look => if t.file in s.marked then Leave(s, p, Outside) else To(s, p, Inside(t.file))
    case Unlink => To(s, p, Unlinked(t.file)).(name := None)
    case Mark => To(s, p, Marked(t.file)).(marked := s.marked + {t.file})
    case Close => Leave(s, p, Outside)
    case Crash => Leave(s, p, Gone)
  }

  // ----- What every step keeps -----

  predicate Holds(t: Phase) {
    t.Locked? || t.Inside? || t.Unlinked? || t.Marked?
  }

  predicate HasFile(t: Phase) {
    t.Waiting? || Holds(t)
  }

  /** A signal has ended the waiting for a file that is marked; the process will look and start again. */
  predicate WillSee(s: State, t: Phase) {
    t.Locked? && t.file in s.marked
  }

  /** Whoever holds a lock knows it, and the other way round. */
  ghost predicate HoldersValid(s: State) {
    && (forall p :: p in s.procs && Holds(s.procs[p]) && !WillSee(s, s.procs[p]) ==>
          s.procs[p].file in s.holder && s.holder[s.procs[p].file] == p)
    && (forall i :: i in s.holder ==>
          s.holder[i] in s.procs && Holds(s.procs[s.holder[i]]) && s.procs[s.holder[i]].file == i)
  }

  ghost predicate FilesValid(s: State) {
    && (forall p :: p in s.procs && HasFile(s.procs[p]) ==> s.procs[p].file < s.made)
    && (s.name.Some? ==> s.name.value < s.made && s.name.value !in s.marked)
    && (forall i :: i in s.marked ==> i < s.made)
  }

  /** Nobody but p has opened the file. */
  ghost predicate Forgotten(s: State, p: nat, i: nat) {
    forall q :: q in s.procs && q != p && HasFile(s.procs[q]) ==> s.procs[q].file != i
  }

  predicate WillMark(s: State, i: nat) {
    i in s.holder && s.holder[i] in s.procs && s.procs[s.holder[i]] == Unlinked(i)
  }

  predicate NobodyHas(s: State, i: nat) {
    forall q :: q in s.procs && HasFile(s.procs[q]) ==> s.procs[q].file != i
  }

  /** A file that has lost its name is marked, or will be by the one who holds its lock, or nobody has opened it. */
  ghost predicate NamelessValid(s: State) {
    forall i: nat :: i < s.made && s.name != Some(i) ==> i in s.marked || WillMark(s, i) || NobodyHas(s, i)
  }

  ghost predicate InsideValid(s: State) {
    && (forall p :: p in s.procs && s.procs[p].Inside? ==> s.name == Some(s.procs[p].file))
    && (forall p :: p in s.procs && s.procs[p].Unlinked? ==>
          s.name != Some(s.procs[p].file) && s.procs[p].file !in s.marked)
    && (forall p :: p in s.procs && s.procs[p].Marked? ==> s.procs[p].file in s.marked)
  }

  ghost predicate Valid(s: State) {
    HoldersValid(s) && FilesValid(s) && NamelessValid(s) && InsideValid(s)
  }

  ghost predicate Initial(s: State) {
    && s.name.None? && s.marked == {} && s.holder == map[] && s.made == 0
    && forall p :: p in s.procs ==> s.procs[p].Outside?
  }

  /** Nobody goes on without the lock of a file that is not marked, and nobody dies between removing the name of the
      file and marking it while others have opened the file. */
  ghost predicate Orderly(s: State, p: nat, a: Act) {
    p in s.procs ==>
      && (a.Interrupt? && s.procs[p].Waiting? ==> s.procs[p].file in s.marked)
      && (a.Crash? && s.procs[p].Unlinked? ==> Forgotten(s, p, s.procs[p].file))
  }

  lemma OpenOldKeeps(s: State, p: nat)
    requires Valid(s) && Enabled(s, p, Open) && s.name.Some?
    ensures Valid(Do(s, p, Open))
  {
  }

  lemma OpenNewKeeps(s: State, p: nat)
    requires Valid(s) && Enabled(s, p, Open) && s.name.None?
    ensures Valid(Do(s, p, Open))
  {
  }

  lemma GetLockKeeps(s: State, p: nat)
    requires Valid(s) && Enabled(s, p, GetLock)
    ensures Valid(Do(s, p, GetLock))
  {
  }

  /** Whoever gets the lock of a file without a mark has the file with the name. */
  lemma LookKeeps(s: State, p: nat)
    requires Valid(s) && Enabled(s, p, Look)
    ensures Valid(Do(s, p, Look))
  {
    if s.procs[p].file in s.marked { LeaveKeeps(s, p, Outside); }
  }

  lemma LeaveHolders(s: State, p: nat, t: Phase)
    requires Valid(s) && p in s.procs && (t.Outside? || t.Gone?)
    ensures HoldersValid(Leave(s, p, t))
  {
  }

  lemma LeaveNameless(s: State, p: nat, t: Phase)
    requires Valid(s) && p in s.procs && (t.Outside? || t.Gone?)
    requires s.procs[p].Unlinked? ==> Forgotten(s, p, s.procs[p].file)
    ensures NamelessValid(Leave(s, p, t))
  {
  }

  lemma LeaveKeeps(s: State, p: nat, t: Phase)
    requires Valid(s) && p in s.procs && (t.Outside? || t.Gone?)
    requires s.procs[p].Unlinked? ==> Forgotten(s, p, s.procs[p].file)
    ensures Valid(Leave(s, p, t))
  {
    LeaveHolders(s, p, t);
    LeaveNameless(s, p, t);
  }

  lemma UnlinkKeeps(s: State, p: nat)
    requires Valid(s) && Enabled(s, p, Unlink)
    ensures Valid(Do(s, p, Unlink))
  {
  }

  lemma InterruptKeeps(s: State, p: nat)
    requires Valid(s) && Enabled(s, p, Interrupt) && s.procs[p].file in s.marked
    ensures Valid(Do(s, p, Interrupt))
  {
  }

  lemma MarkKeeps(s: State, p: nat)
    requires Valid(s) && Enabled(s, p, Mark)
    ensures Valid(Do(s, p, Mark))
  {
  }

  lemma StepKeepsValid(s: State, p: nat, a: Act)
    requires Valid(s) && Enabled(s, p, a) && Orderly(s, p, a)
    ensures Valid(Do(s, p, a))
  {
    match a {
      case Open => if s.name.Some? { OpenOldKeeps(s, p); } else { OpenNewKeeps(s, p); }
      case GetLock => GetLockKeeps(s, p);
      case Interrupt => InterruptKeeps(s, p);
      case Look => LookKeeps(s, p);
      case Unlink => UnlinkKeeps(s, p);
      case Mark => MarkKeeps(s, p);
      case Close => LeaveKeeps(s, p, Outside);
      case Crash => LeaveKeeps(s, p, Gone);
    }
  }

  // ----- Runs -----

  /** Which steps may be taken. */
  type Steps = (State, nat, Act) -> bool

  ghost predicate IsRun(s0: State, steps: seq<(nat, Act)>, s: State, may: Steps) {
    if steps == [] then s == s0
    else
      var front, p, a := steps[..|steps| - 1], steps[|steps| - 1].0, steps[|steps| - 1].1;
      exists t :: IsRun(s0, front, t, may) && Enabled(t, p, a) && may(t, p, a) && s == Do(t, p, a)
  }

  lemma {:induction false} RunKeepsValid(s0: State, steps: seq<(nat, Act)>, s: State)
    requires Initial(s0) && IsRun(s0, steps, s, Orderly)
    ensures Valid(s)
  {
    if steps != [] {
      var front, p, a := steps[..|steps| - 1], steps[|steps| - 1].0, steps[|steps| - 1].1;
      var t :| IsRun(s0, front, t, Orderly) && Enabled(t, p, a) && Orderly(t, p, a) && s == Do(t, p, a);
      RunKeepsValid(s0, front, t);
      StepKeepsValid(t, p, a);
    }
  }

  /** At most one process is inside, and it holds the lock of the file that has the name. */
  lemma MutualExclusion(s0: State, steps: seq<(nat, Act)>, s: State, p: nat, q: nat)
    requires Initial(s0) && IsRun(s0, steps, s, Orderly) && p in s.procs && q in s.procs
    requires s.procs[p].Inside? && s.procs[q].Inside?
    ensures p == q && s.name == Some(s.procs[p].file) && s.procs[p].file in s.holder && s.holder[s.procs[p].file] == p
  {
    RunKeepsValid(s0, steps, s);
  }

  /** Two processes are inside. */
  ghost predicate TwoInside(s: State) {
    exists p, q :: p in s.procs && q in s.procs && p != q && s.procs[p].Inside? && s.procs[q].Inside?
  }
}
