/** Copying a template into a directory (`bsd flake init`): existing files are never overwritten. */
module Templates {
  import opened Basics
  import Channels

  /** A template: what the source accessor lists, directories with their entries in order. */
  datatype Node = Dir(entries: seq<Child>) | File(contents: string) | Link(target: string) | Special

  datatype Child = Child(name: string, node: Node)

  datatype Entry = Directory | Regular(contents: string) | Symlink(target: string)

  type Path = seq<string>

  /** The destination, by paths without symbolic links in front of the last name; `Entry` values are what is there,
      without following symbolic links. */
  type FileSystem = map<Path, Entry>

  /** What symbolic links are good for, by their path and target: `leads` is the path of what they lead to, and `read`
      is what reading through them gives, if it can be read. */
  datatype World = World(leads: (Path, string) -> Option<Path>, read: (Path, string) -> Option<string>)

  /** The destination while copying, the paths written and in conflict so far, and whether there was no error. */
  datatype Copy = Copy(fs: FileSystem, changed: seq<Path>, conflicted: seq<Path>, ok: bool)

  /** Where the entries of a directory go: a directory that is missing will be made, a symbolic link is followed if it
      leads to a directory, and anything else is in the way. */
  function DirAt(w: World, fs: FileSystem, at: Path): Option<Path> {
    if at !in fs then Some(at)
    else match fs[at]
      case Directory => Some(at)
      case Regular(_) => None
      case Symlink(target) =>
        var d := w.leads(at, target);
        if d.Some? && d.value in fs && fs[d.value].Directory? then d else None
  }

  /** Makes sure that a directory is there. */
  function Opened(c: Copy, at: Path): Copy {
    if at in c.fs then c else c.(fs := c.fs[at := Directory])
  }

  function ReadBack(w: World, at: Path, e: Entry): Option<string> {
    match e
    case Directory => None
    case Regular(contents) => Some(contents)
    case Symlink(target) => w.read(at, target)
  }

  /** Copies a file to the place `at`, which is called `to` in reports. */
  function CopyFile(w: World, c: Copy, contents: string, to: Path, at: Path): Copy {
    if at !in c.fs then c.(fs := c.fs[at := Regular(contents)], changed := c.changed + [to])
    else
      var present := ReadBack(w, at, c.fs[at]);
      if present.None? then c.(ok := false)
      else if present.value != contents then c.(conflicted := c.conflicted + [to])
      else c
  }

  predicate IsAbsolute(target: string) {
    target != "" && target[0] == '/'
  }

  /** The target names what is within a directory: it ends with a slash after a name. */
  predicate EndsOpen(target: string) {
    target != "" && target[|target| - 1] == '/' && Channels.Tokens(target, '/') != []
  }

  /** Link targets are compared as paths: repeated slashes count as one. */
  predicate SameTarget(a: string, b: string) {
    && Channels.Tokens(a, '/') == Channels.Tokens(b, '/')
    && IsAbsolute(a) == IsAbsolute(b) && EndsOpen(a) == EndsOpen(b)
  }

  function CopyLink(c: Copy, target: string, to: Path, at: Path): Copy {
    if at !in c.fs then c.(fs := c.fs[at := Symlink(target)], changed := c.changed + [to])
    else if !c.fs[at].Symlink? then c.(ok := false)
    else if !SameTarget(c.fs[at].target, target) then c.(conflicted := c.conflicted + [to])
    else c
  }

  /** Copies a directory: makes sure that it is there and copies its entries. */
  function CopyDirectory(w: World, c: Copy, entries: seq<Child>, to: Path, at: Path): Copy
    decreases entries, |entries| + 1
  {
    if !c.ok then c
    else match DirAt(w, c.fs, at)
      case None => c.(ok := false)
      case Some(d) => CopyEntries(w, Opened(c, at), entries, |entries|, to, d)
  }

  function Listed(c: Copy, to: Path): Copy {
    if c.ok then c.(changed := c.changed + [to]) else c
  }

  /** Copies one entry of a directory. Once an error has happened, nothing more is done. A subdirectory is listed as
      written after its entries, whether or not it was there already. */
  function CopyNode(w: World, c: Copy, n: Node, to: Path, at: Path): Copy
    decreases n, 0
  {
    if !c.ok then c
    else match n
      case Dir(entries) => Listed(CopyDirectory(w, c, entries, to, at), to)
      case File(contents) => CopyFile(w, c, contents, to, at)
      case Link(target) => CopyLink(c, target, to, at)
      case Special => c.(ok := false)
  }

  /** Copies the first k entries of a directory. */
  function CopyEntries(w: World, c: Copy, entries: seq<Child>, k: nat, to: Path, at: Path): Copy
    requires k <= |entries|
    decreases entries, k
  {
    if k == 0 then c
    else
      var e := entries[k - 1];
      CopyNode(w, CopyEntries(w, c, entries, k - 1, to, at), e.node, to + [e.name], at + [e.name])
  }

  // ----- Nothing that exists is changed -----

  /** Everything in a is in b, unchanged. */
  ghost predicate Includes(b: FileSystem, a: FileSystem) {
    forall p :: p in a ==> p in b && b[p] == a[p]
  }

  /** Everything that was there is still there, unchanged, and reports only grow. */
  ghost predicate Extends(a: Copy, b: Copy) {
    Includes(b.fs, a.fs)
    && a.changed <= b.changed && a.conflicted <= b.conflicted
    && (b.ok ==> a.ok)
  }

  /** Whether it succeeds, finds conflicts or stops at an error, copying changes nothing that existed. */
  lemma {:induction false} CopyExtends(w: World, c: Copy, entries: seq<Child>, to: Path, at: Path)
    ensures Extends(c, CopyDirectory(w, c, entries, to, at))
    decreases entries, |entries| + 1
  {
    var d := DirAt(w, c.fs, at);
    if c.ok && d.Some? { EntriesExtend(w, Opened(c, at), entries, |entries|, to, d.value); }
  }

  lemma {:induction false} NodeExtends(w: World, c: Copy, n: Node, to: Path, at: Path)
    ensures Extends(c, CopyNode(w, c, n, to, at))
    decreases n, 0
  {
    if n.Dir? { CopyExtends(w, c, n.entries, to, at); }
  }

  lemma {:induction false} EntriesExtend(w: World, c: Copy, entries: seq<Child>, k: nat, to: Path, at: Path)
    requires k <= |entries|
    ensures Extends(c, CopyEntries(w, c, entries, k, to, at))
    decreases entries, k
  {
    if k > 0 {
      var e := entries[k - 1];
      EntriesExtend(w, c, entries, k - 1, to, at);
      NodeExtends(w, CopyEntries(w, c, entries, k - 1, to, at), e.node, to + [e.name], at + [e.name]);
    }
  }

  lemma {:induction false} Stopped(w: World, c: Copy, entries: seq<Child>, k: nat, to: Path, at: Path)
    requires k <= |entries| && !c.ok
    ensures CopyEntries(w, c, entries, k, to, at) == c
    decreases k
  {
    if k > 0 { Stopped(w, c, entries, k - 1, to, at); }
  }

  lemma {:induction false} StopsThere(w: World, c: Copy, entries: seq<Child>, j: nat, k: nat, to: Path, at: Path)
    requires j <= k <= |entries| && !CopyEntries(w, c, entries, j, to, at).ok
    ensures CopyEntries(w, c, entries, k, to, at) == CopyEntries(w, c, entries, j, to, at)
    decreases k - j
  {
    if j < k { StopsThere(w, c, entries, j, k - 1, to, at); }
  }

  // ----- Directories stay where they are -----

  /** There is a directory, or a symbolic link that leads to one. */
  predicate HasDir(w: World, fs: FileSystem, at: Path) {
    at in fs && DirAt(w, fs, at).Some?
  }

  lemma DirStays(w: World, a: FileSystem, b: FileSystem, at: Path)
    requires Includes(b, a) && HasDir(w, a, at)
    ensures HasDir(w, b, at) && DirAt(w, b, at) == DirAt(w, a, at)
  {
  }

  lemma OpenedHasDir(w: World, c: Copy, at: Path)
    requires DirAt(w, c.fs, at).Some?
    ensures HasDir(w, Opened(c, at).fs, at) && DirAt(w, Opened(c, at).fs, at) == DirAt(w, c.fs, at)
  {
  }

  // ----- Everything of the template is there or is reported -----

  /** The leaf of the template agrees with what is there. */
  predicate Agrees(w: World, leaf: Node, at: Path, e: Entry) {
    match leaf
    case File(contents) => ReadBack(w, at, e) == Some(contents)
    case Link(target) => e.Symlink? && SameTarget(e.target, target)
    case _ => false
  }

  /** Every directory of the template is there, and every leaf agrees or is among the conflicts. */
  ghost predicate Covered(w: World, fs: FileSystem, conflicted: seq<Path>, n: Node, to: Path, at: Path)
    decreases n
  {
    match n
    case Dir(entries) =>
      HasDir(w, fs, at) && AllCovered(w, fs, conflicted, entries, |entries|, to, DirAt(w, fs, at).value)
    case Special => false
    case _ => at in fs && (Agrees(w, n, at, fs[at]) || to in conflicted)
  }

  ghost predicate AllCovered(w: World, fs: FileSystem, conflicted: seq<Path>, entries: seq<Child>, k: nat, to: Path,
                             at: Path)
    requires k <= |entries|
    decreases entries, k
  {
    forall i :: 0 <= i < k ==>
      Covered(w, fs, conflicted, entries[i].node, to + [entries[i].name], at + [entries[i].name])
  }

  lemma {:induction false} CoveredGrows(w: World, a: Copy, b: Copy, n: Node, to: Path, at: Path)
    requires Extends(a, b) && Covered(w, a.fs, a.conflicted, n, to, at)
    ensures Covered(w, b.fs, b.conflicted, n, to, at)
    decreases n, 0
  {
    if n.Dir? {
      DirStays(w, a.fs, b.fs, at);
      AllCoveredGrow(w, a, b, n.entries, |n.entries|, to, DirAt(w, a.fs, at).value);
    }
  }

  lemma {:induction false} AllCoveredGrow(w: World, a: Copy, b: Copy, entries: seq<Child>, k: nat, to: Path, at: Path)
    requires k <= |entries| && Extends(a, b) && AllCovered(w, a.fs, a.conflicted, entries, k, to, at)
    ensures AllCovered(w, b.fs, b.conflicted, entries, k, to, at)
    decreases entries, k
  {
    forall i | 0 <= i < k
      ensures Covered(w, b.fs, b.conflicted, entries[i].node, to + [entries[i].name], at + [entries[i].name])
    {
      CoveredGrows(w, a, b, entries[i].node, to + [entries[i].name], at + [entries[i].name]);
    }
  }

  /** After a copy without errors every directory of the template is there, or a symbolic link that leads to one, and
      every leaf is equal in the destination or listed as a conflict. */
  lemma {:induction false} CopyCovers(w: World, c: Copy, entries: seq<Child>, to: Path, at: Path)
    requires CopyDirectory(w, c, entries, to, at).ok
    ensures var r := CopyDirectory(w, c, entries, to, at); Covered(w, r.fs, r.conflicted, Dir(entries), to, at)
    decreases entries, |entries| + 1
  {
    CopyExtends(w, c, entries, to, at);
    var c0, d, r := Opened(c, at), DirAt(w, c.fs, at).value, CopyDirectory(w, c, entries, to, at);
    OpenedHasDir(w, c, at);
    EntriesExtend(w, c0, entries, |entries|, to, d);
    DirStays(w, c0.fs, r.fs, at);
    EntriesCover(w, c0, entries, |entries|, to, d);
  }

  lemma {:induction false} NodeCovers(w: World, c: Copy, n: Node, to: Path, at: Path)
    requires CopyNode(w, c, n, to, at).ok
    ensures Covered(w, CopyNode(w, c, n, to, at).fs, CopyNode(w, c, n, to, at).conflicted, n, to, at)
    decreases n, 0
  {
    NodeExtends(w, c, n, to, at);
    if n.Dir? { CopyCovers(w, c, n.entries, to, at); }
  }

  lemma {:induction false} EntriesCover(w: World, c: Copy, entries: seq<Child>, k: nat, to: Path, at: Path)
    requires k <= |entries| && CopyEntries(w, c, entries, k, to, at).ok
    ensures var r := CopyEntries(w, c, entries, k, to, at); AllCovered(w, r.fs, r.conflicted, entries, k, to, at)
    decreases entries, k
  {
    if k > 0 {
      var e := entries[k - 1];
      var a, r := CopyEntries(w, c, entries, k - 1, to, at), CopyEntries(w, c, entries, k, to, at);
      NodeExtends(w, a, e.node, to + [e.name], at + [e.name]);
      EntriesCover(w, c, entries, k - 1, to, at);
      AllCoveredGrow(w, a, r, entries, k - 1, to, at);
      NodeCovers(w, a, e.node, to + [e.name], at + [e.name]);
    }
  }

  // ----- What a copy reports -----

  /** The conflicts that b reports after a. */
  function NewConflicts(a: Copy, b: Copy): seq<Path> {
    if |a.conflicted| <= |b.conflicted| then b.conflicted[|a.conflicted|..] else []
  }

  /** The paths that b reports as written after a. */
  function NewChanges(a: Copy, b: Copy): seq<Path> {
    if |a.changed| <= |b.changed| then b.changed[|a.changed|..] else []
  }

  lemma ReportsAdd(a: Copy, b: Copy, c: Copy)
    requires Extends(a, b) && Extends(b, c)
    ensures Extends(a, c)
    ensures NewConflicts(a, c) == NewConflicts(a, b) + NewConflicts(b, c)
    ensures NewChanges(a, c) == NewChanges(a, b) + NewChanges(b, c)
  {
  }

  // ----- A second run -----

  /** The subdirectories among the first k entries and below them, each after those below it. */
  function SubDirs(entries: seq<Child>, k: nat, to: Path): seq<Path>
    requires k <= |entries|
    decreases entries, k
  {
    if k == 0 then []
    else SubDirs(entries, k - 1, to) + DirsIn(entries[k - 1].node, to + [entries[k - 1].name])
  }

  function DirsIn(n: Node, to: Path): seq<Path>
    decreases n, 0
  {
    if n.Dir? then SubDirs(n.entries, |n.entries|, to) + [to] else []
  }

  function Report(d: Copy, changes: seq<Path>, conflicts: seq<Path>): Copy {
    d.(changed := d.changed + changes, conflicted := d.conflicted + conflicts)
  }

  lemma {:induction false} RerunDirectory(w: World, c: Copy, entries: seq<Child>, to: Path, at: Path, d: Copy)
    requires c.ok && CopyDirectory(w, c, entries, to, at).ok
    requires d.ok && Includes(d.fs, CopyDirectory(w, c, entries, to, at).fs)
    ensures CopyDirectory(w, d, entries, to, at) ==
            Report(d, SubDirs(entries, |entries|, to), NewConflicts(c, CopyDirectory(w, c, entries, to, at)))
    decreases entries, |entries| + 1
  {
    var c0, dir, r := Opened(c, at), DirAt(w, c.fs, at).value, CopyDirectory(w, c, entries, to, at);
    OpenedHasDir(w, c, at);
    EntriesExtend(w, c0, entries, |entries|, to, dir);
    DirStays(w, c0.fs, r.fs, at);
    DirStays(w, r.fs, d.fs, at);
    RerunEntries(w, c0, entries, |entries|, to, dir, d);
  }

  lemma {:induction false} RerunNode(w: World, c: Copy, n: Node, to: Path, at: Path, d: Copy)
    requires c.ok && CopyNode(w, c, n, to, at).ok && d.ok && Includes(d.fs, CopyNode(w, c, n, to, at).fs)
    ensures CopyNode(w, d, n, to, at) == Report(d, DirsIn(n, to), NewConflicts(c, CopyNode(w, c, n, to, at)))
    decreases n, 0
  {
    NodeExtends(w, c, n, to, at);
    if n.Dir? {
      RerunDirectory(w, c, n.entries, to, at, d);
      var subs := SubDirs(n.entries, |n.entries|, to);
      assert d.changed + subs + [to] == d.changed + (subs + [to]);
    } else {
      assert d.conflicted + [] == d.conflicted && d.changed + [] == d.changed;
    }
  }

  lemma {:induction false} RerunEntries(w: World, c: Copy, entries: seq<Child>, k: nat, to: Path, at: Path, d: Copy)
    requires k <= |entries| && c.ok && CopyEntries(w, c, entries, k, to, at).ok
    requires d.ok && Includes(d.fs, CopyEntries(w, c, entries, k, to, at).fs)
    ensures CopyEntries(w, d, entries, k, to, at) ==
            Report(d, SubDirs(entries, k, to), NewConflicts(c, CopyEntries(w, c, entries, k, to, at)))
    decreases entries, k
  {
    if k == 0 {
      assert d.conflicted + [] == d.conflicted && d.changed + [] == d.changed;
    } else {
      var n, x := entries[k - 1].node, entries[k - 1].name;
      var a := CopyEntries(w, c, entries, k - 1, to, at);
      var r := CopyNode(w, a, n, to + [x], at + [x]);
      EntriesExtend(w, c, entries, k - 1, to, at);
      NodeExtends(w, a, n, to + [x], at + [x]);
      RerunEntries(w, c, entries, k - 1, to, at, d);
      var d' := Report(d, SubDirs(entries, k - 1, to), NewConflicts(c, a));
      RerunNode(w, a, n, to + [x], at + [x], d');
      ReportTwice(d, SubDirs(entries, k - 1, to), DirsIn(n, to + [x]), NewConflicts(c, a), NewConflicts(a, r));
      ReportsAdd(c, a, r);
    }
  }

  lemma ReportTwice(d: Copy, p: seq<Path>, q: seq<Path>, x: seq<Path>, y: seq<Path>)
    ensures Report(Report(d, p, x), q, y) == Report(d, p + q, x + y)
  {
    assert d.changed + p + q == d.changed + (p + q) && d.conflicted + x + y == d.conflicted + (x + y);
  }

  function Fresh(fs: FileSystem): Copy {
    Copy(fs, [], [], true)
  }

  /** A second run after one without errors writes nothing and reports the same conflicts, but lists every
      subdirectory of the template as written. */
  lemma SecondRun(w: World, fs: FileSystem, entries: seq<Child>, to: Path)
    requires CopyDirectory(w, Fresh(fs), entries, to, to).ok
    ensures var r := CopyDirectory(w, Fresh(fs), entries, to, to);
            CopyDirectory(w, Fresh(r.fs), entries, to, to)
            == Copy(r.fs, SubDirs(entries, |entries|, to), r.conflicted, true)
  {
    RerunDirectory(w, Fresh(fs), entries, to, to, Fresh(CopyDirectory(w, Fresh(fs), entries, to, to).fs));
  }

  lemma {:induction false} NoSubDirs(entries: seq<Child>, k: nat, to: Path)
    requires k <= |entries|
    ensures SubDirs(entries, k, to) == [] <==> forall i :: 0 <= i < k ==> !entries[i].node.Dir?
    decreases k
  {
    if k > 0 { NoSubDirs(entries, k - 1, to); }
  }

  /** A second run lists nothing as written if and only if the template has no subdirectory. */
  lemma SecondRunIsSilentIff(w: World, fs: FileSystem, entries: seq<Child>, to: Path)
    requires CopyDirectory(w, Fresh(fs), entries, to, to).ok
    ensures var r := CopyDirectory(w, Fresh(fs), entries, to, to);
            CopyDirectory(w, Fresh(r.fs), entries, to, to).changed == [] <==>
            forall i :: 0 <= i < |entries| ==> !entries[i].node.Dir?
  {
    SecondRun(w, fs, entries, to);
    NoSubDirs(entries, |entries|, to);
  }

  // ----- The command's own fields -----

  class Installer {
    const world: World
    var fs: FileSystem
    var changed: seq<Path>
    var conflicted: seq<Path>

    constructor (world: World, fs: FileSystem)
      ensures this.world == world && Now(true) == Fresh(fs)
    {
      this.world, this.fs, changed, conflicted := world, fs, [], [];
    }

    function Now(ok: bool): Copy
      reads this
    {
      Copy(fs, changed, conflicted, ok)
    }

    /** Copies a directory; returns false when an error stops the copy. */
    method CopyDir(entries: seq<Child>, to: Path, at: Path) returns (ok: bool)
      modifies this
      ensures Now(ok) == CopyDirectory(world, old(Now(true)), entries, to, at)
      decreases entries
    {
      var dir := DirAt(world, fs, at);
      if dir.None? { return false; }
      if at !in fs { fs := fs[at := Directory]; }
      ghost var c := Now(true);
      ok := true;
      for k := 0 to |entries|
        invariant ok && Now(true) == CopyEntries(world, c, entries, k, to, dir.value)
      {
        ok := CopyOne(entries[k].node, to + [entries[k].name], dir.value + [entries[k].name], entries);
        if !ok {
          StopsThere(world, c, entries, k + 1, |entries|, to, dir.value);
          return;
        }
      }
    }

    method CopyOne(n: Node, to: Path, at: Path, ghost within: seq<Child>) returns (ok: bool)
      requires exists i :: 0 <= i < |within| && within[i].node == n
      modifies this
      ensures Now(ok) == CopyNode(world, old(Now(true)), n, to, at)
      decreases within, 0
    {
      ok := true;
      match n {
        case Dir(entries) =>
          ok := CopyDir(entries, to, at);
          if !ok { return; }
        case File(contents) =>
          if at in fs {
            var present := ReadBack(world, at, fs[at]);
            if present.None? { return false; }
            if present.value != contents { conflicted := conflicted + [to]; }
            return;
          }
          fs := fs[at := Regular(contents)];
        case Link(target) =>
          if at in fs {
            if !fs[at].Symlink? { return false; }
            if !SameTarget(fs[at].target, target) { conflicted := conflicted + [to]; }
            return;
          }
          fs := fs[at := Symlink(target)];
        case Special => return false;
      }
      changed := changed + [to];
    }
  }
}
