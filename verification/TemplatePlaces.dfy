/** Where copying a template writes, what it reports, and when it succeeds. A symbolic link in the destination that
    leads to a directory is followed where the template has a directory, so that files may appear outside. */
module TemplatePlaces {
  import opened Basics
  import opened Templates

  // ----- The paths of a template -----

  /** Some node of the template has the path q. */
  ghost predicate IsAt(n: Node, to: Path, q: Path)
    decreases n
  {
    q == to || (n.Dir? && exists i :: 0 <= i < |n.entries| && IsAt(n.entries[i].node, to + [n.entries[i].name], q))
  }

  ghost predicate IsAtEntry(entries: seq<Child>, j: nat, to: Path, q: Path)
    requires j < |entries|
  {
    IsAt(entries[j].node, to + [entries[j].name], q)
  }

  /** No directory lists a name twice. */
  ghost predicate Listing(n: Node)
    decreases n
  {
    n.Dir? ==>
      && (forall i, j :: 0 <= i < j < |n.entries| ==> n.entries[i].name != n.entries[j].name)
      && forall i :: 0 <= i < |n.entries| ==> Listing(n.entries[i].node)
  }

  lemma {:induction false} AtIsBelow(n: Node, to: Path, q: Path)
    requires IsAt(n, to, q)
    ensures to <= q
    decreases n
  {
    if q != to {
      var i :| 0 <= i < |n.entries| && IsAt(n.entries[i].node, to + [n.entries[i].name], q);
      AtIsBelow(n.entries[i].node, to + [n.entries[i].name], q);
    }
  }

  /** With distinct names, what is below one entry is not below another. */
  lemma EntriesApart(entries: seq<Child>, i: nat, j: nat, to: Path, q: Path)
    requires i < |entries| && j < |entries| && entries[i].name != entries[j].name && IsAtEntry(entries, i, to, q)
    ensures !IsAtEntry(entries, j, to, q)
  {
    AtIsBelow(entries[i].node, to + [entries[i].name], q);
    assert q[|to|] == entries[i].name;
    if IsAtEntry(entries, j, to, q) { AtIsBelow(entries[j].node, to + [entries[j].name], q); }
  }

  lemma RootIsApart(entries: seq<Child>, j: nat, to: Path)
    requires j < |entries|
    ensures !IsAtEntry(entries, j, to, to)
  {
    if IsAtEntry(entries, j, to, to) { AtIsBelow(entries[j].node, to + [entries[j].name], to); }
  }

  // ----- What is reported -----

  /** Between a and b nothing is reported about q. */
  ghost predicate Silent(a: Copy, b: Copy, q: Path) {
    Extends(a, b) && q !in NewConflicts(a, b) && q !in NewChanges(a, b)
  }

  lemma SilentBoth(a: Copy, b: Copy, c: Copy, q: Path)
    requires Silent(a, b, q) && Silent(b, c, q)
    ensures Silent(a, c, q)
  {
    ReportsAdd(a, b, c);
  }

  /** Only paths of the template are reported, but not its own one, even if the copy stops at an error. */
  lemma {:induction false} CopyReportsOnlyTemplate(w: World, c: Copy, entries: seq<Child>, to: Path, at: Path, q: Path)
    requires forall j :: 0 <= j < |entries| ==> !IsAtEntry(entries, j, to, q)
    ensures Silent(c, CopyDirectory(w, c, entries, to, at), q)
    decreases entries, |entries| + 1
  {
    var d := DirAt(w, c.fs, at);
    if c.ok && d.Some? {
      EntriesReport(w, Opened(c, at), entries, |entries|, to, d.value, q);
      SilentBoth(c, Opened(c, at), CopyDirectory(w, c, entries, to, at), q);
    }
  }

  lemma {:induction false} NodeReports(w: World, c: Copy, n: Node, to: Path, at: Path, q: Path)
    requires !IsAt(n, to, q)
    ensures Silent(c, CopyNode(w, c, n, to, at), q)
    decreases n, 0
  {
    NodeExtends(w, c, n, to, at);
    if c.ok && n.Dir? {
      forall j | 0 <= j < |n.entries| ensures !IsAtEntry(n.entries, j, to, q) {}
      CopyReportsOnlyTemplate(w, c, n.entries, to, at, q);
      var r := CopyDirectory(w, c, n.entries, to, at);
      assert r.ok ==> NewChanges(c, Listed(r, to)) == NewChanges(c, r) + [to];
    }
  }

  lemma {:induction false} EntriesReport(w: World, c: Copy, entries: seq<Child>, k: nat, to: Path, at: Path, q: Path)
    requires k <= |entries| && forall j :: 0 <= j < k ==> !IsAtEntry(entries, j, to, q)
    ensures Silent(c, CopyEntries(w, c, entries, k, to, at), q)
    decreases entries, k
  {
    if k > 0 {
      var e, a := entries[k - 1], CopyEntries(w, c, entries, k - 1, to, at);
      EntriesReport(w, c, entries, k - 1, to, at, q);
      assert !IsAtEntry(entries, k - 1, to, q);
      NodeReports(w, a, e.node, to + [e.name], at + [e.name], q);
      SilentBoth(c, a, CopyEntries(w, c, entries, k, to, at), q);
    }
  }

  // ----- Where is written -----

  function Written(n: Node): Entry {
    match n
    case File(contents) => Regular(contents)
    case Link(target) => Symlink(target)
    case _ => Directory
  }

  /** Some node of the template goes to p, following the symbolic links of the destination. */
  ghost predicate PlaceAt(w: World, fs: FileSystem, n: Node, at: Path, p: Path)
    decreases n, 0
  {
    p == at || (n.Dir? && HasDir(w, fs, at) && PlaceIn(w, fs, n.entries, |n.entries|, DirAt(w, fs, at).value, p))
  }

  ghost predicate PlaceIn(w: World, fs: FileSystem, entries: seq<Child>, k: nat, at: Path, p: Path)
    requires k <= |entries|
    decreases entries, k
  {
    exists i :: 0 <= i < k && PlaceAt(w, fs, entries[i].node, at + [entries[i].name], p)
  }

  lemma {:induction false} PlaceGrows(w: World, a: FileSystem, b: FileSystem, n: Node, at: Path, p: Path)
    requires Includes(b, a) && PlaceAt(w, a, n, at, p)
    ensures PlaceAt(w, b, n, at, p)
    decreases n, 0
  {
    if p != at {
      DirStays(w, a, b, at);
      PlaceInGrows(w, a, b, n.entries, |n.entries|, DirAt(w, a, at).value, p);
    }
  }

  lemma {:induction false} PlaceInGrows(w: World, a: FileSystem, b: FileSystem, entries: seq<Child>, k: nat, at: Path,
                                        p: Path)
    requires k <= |entries| && Includes(b, a) && PlaceIn(w, a, entries, k, at, p)
    ensures PlaceIn(w, b, entries, k, at, p)
    decreases entries, k
  {
    var i :| 0 <= i < k && PlaceAt(w, a, entries[i].node, at + [entries[i].name], p);
    PlaceGrows(w, a, b, entries[i].node, at + [entries[i].name], p);
  }

  predicate Appears(a: Copy, b: Copy, p: Path) {
    p in b.fs && p !in a.fs
  }

  /** What is written is written at the places of the template, even if the copy stops at an error. */
  lemma {:induction false} CopyWritesAtPlaces(w: World, c: Copy, entries: seq<Child>, to: Path, at: Path, p: Path)
    requires Appears(c, CopyDirectory(w, c, entries, to, at), p)
    ensures PlaceAt(w, CopyDirectory(w, c, entries, to, at).fs, Dir(entries), at, p)
    decreases entries, |entries| + 1
  {
    var c0, r := Opened(c, at), CopyDirectory(w, c, entries, to, at);
    var d := DirAt(w, c.fs, at).value;
    OpenedHasDir(w, c, at);
    EntriesExtend(w, c0, entries, |entries|, to, d);
    DirStays(w, c0.fs, r.fs, at);
    if p != at { EntriesWrite(w, c0, entries, |entries|, to, d, p); }
  }

  lemma {:induction false} NodeWrites(w: World, c: Copy, n: Node, to: Path, at: Path, p: Path)
    requires Appears(c, CopyNode(w, c, n, to, at), p)
    ensures PlaceAt(w, CopyNode(w, c, n, to, at).fs, n, at, p)
    decreases n, 0
  {
    if n.Dir? { CopyWritesAtPlaces(w, c, n.entries, to, at, p); }
  }

  lemma {:induction false} EntriesWrite(w: World, c: Copy, entries: seq<Child>, k: nat, to: Path, at: Path, p: Path)
    requires k <= |entries| && Appears(c, CopyEntries(w, c, entries, k, to, at), p)
    ensures PlaceIn(w, CopyEntries(w, c, entries, k, to, at).fs, entries, k, at, p)
    decreases entries, k
  {
    if k > 0 {
      var e, a := entries[k - 1], CopyEntries(w, c, entries, k - 1, to, at);
      var r := CopyNode(w, a, e.node, to + [e.name], at + [e.name]);
      NodeExtends(w, a, e.node, to + [e.name], at + [e.name]);
      if p in a.fs {
        EntriesWrite(w, c, entries, k - 1, to, at, p);
        PlaceInGrows(w, a.fs, r.fs, entries, k - 1, at, p);
      } else {
        NodeWrites(w, a, e.node, to + [e.name], at + [e.name], p);
      }
    }
  }

  lemma {:induction false} PlacesAreThere(w: World, fs: FileSystem, conflicted: seq<Path>, n: Node, to: Path,
                                          at: Path, p: Path)
    requires Covered(w, fs, conflicted, n, to, at) && PlaceAt(w, fs, n, at, p)
    ensures p in fs
    decreases n
  {
    if p != at {
      var d := DirAt(w, fs, at).value;
      var i :| 0 <= i < |n.entries| && PlaceAt(w, fs, n.entries[i].node, d + [n.entries[i].name], p);
      PlacesAreThere(w, fs, conflicted, n.entries[i].node, to + [n.entries[i].name], d + [n.entries[i].name], p);
    }
  }

  /** For all destinations: after a copy without errors, exactly the places of the template are there that were not
      there before. */
  lemma CopyWritesPlaces(w: World, c: Copy, entries: seq<Child>, to: Path, at: Path)
    requires CopyDirectory(w, c, entries, to, at).ok
    ensures var r := CopyDirectory(w, c, entries, to, at);
            forall p :: Appears(c, r, p) <==> PlaceAt(w, r.fs, Dir(entries), at, p) && p !in c.fs
  {
    var r := CopyDirectory(w, c, entries, to, at);
    CopyCovers(w, c, entries, to, at);
    forall p ensures Appears(c, r, p) <==> PlaceAt(w, r.fs, Dir(entries), at, p) && p !in c.fs {
      if Appears(c, r, p) { CopyWritesAtPlaces(w, c, entries, to, at, p); }
      if PlaceAt(w, r.fs, Dir(entries), at, p) { PlacesAreThere(w, r.fs, r.conflicted, Dir(entries), to, at, p); }
    }
  }

  // ----- What happens to every node -----

  /** The node of the template with the path q goes to p. */
  ghost predicate Goes(w: World, fs: FileSystem, n: Node, to: Path, at: Path, q: Path, p: Path, node: Node)
    decreases n, 0
  {
    (q == to && p == at && node == n)
    || (n.Dir? && HasDir(w, fs, at) && GoesBelow(w, fs, n.entries, to, DirAt(w, fs, at).value, q, p, node))
  }

  ghost predicate GoesBelow(w: World, fs: FileSystem, entries: seq<Child>, to: Path, at: Path, q: Path, p: Path,
                            node: Node)
    decreases entries, |entries|
  {
    exists i :: 0 <= i < |entries| && GoesIn(w, fs, entries, i, to, at, q, p, node)
  }

  ghost predicate GoesIn(w: World, fs: FileSystem, entries: seq<Child>, i: nat, to: Path, at: Path, q: Path, p: Path,
                         node: Node)
    requires i < |entries|
    decreases entries, i
  {
    Goes(w, fs, entries[i].node, to + [entries[i].name], at + [entries[i].name], q, p, node)
  }

  lemma GoesOn(w: World, fs: FileSystem, n: Node, to: Path, at: Path, q: Path, p: Path, node: Node) returns (i: nat)
    requires Goes(w, fs, n, to, at, q, p, node) && !(q == to && p == at && node == n)
    ensures n.Dir? && HasDir(w, fs, at) && i < |n.entries|
    ensures GoesIn(w, fs, n.entries, i, to, DirAt(w, fs, at).value, q, p, node)
  {
    var d := DirAt(w, fs, at).value;
    assert GoesBelow(w, fs, n.entries, to, d, q, p, node);
    i :| 0 <= i < |n.entries| && GoesIn(w, fs, n.entries, i, to, d, q, p, node);
  }

  lemma {:induction false} GoesIsPlace(w: World, fs: FileSystem, n: Node, to: Path, at: Path, q: Path, p: Path,
                                       node: Node)
    requires Goes(w, fs, n, to, at, q, p, node)
    ensures PlaceAt(w, fs, n, at, p) && IsAt(n, to, q)
    decreases n
  {
    if !(q == to && p == at && node == n) {
      var i := GoesOn(w, fs, n, to, at, q, p, node);
      var d := DirAt(w, fs, at).value;
      GoesIsPlace(w, fs, n.entries[i].node, to + [n.entries[i].name], d + [n.entries[i].name], q, p, node);
    }
  }

  /** No two nodes of the template go to p. */
  ghost predicate Alone(w: World, fs: FileSystem, n: Node, at: Path, p: Path)
    decreases n, 0
  {
    n.Dir? && HasDir(w, fs, at) ==>
      && AloneIn(w, fs, n.entries, |n.entries|, DirAt(w, fs, at).value, p)
      && (p == at ==> !PlaceIn(w, fs, n.entries, |n.entries|, DirAt(w, fs, at).value, p))
  }

  ghost predicate AloneIn(w: World, fs: FileSystem, entries: seq<Child>, k: nat, at: Path, p: Path)
    requires k <= |entries|
    decreases entries, k
  {
    && (forall i :: 0 <= i < k ==> Alone(w, fs, entries[i].node, at + [entries[i].name], p))
    && (forall i, j :: 0 <= i < j < k ==>
          !(PlaceAt(w, fs, entries[i].node, at + [entries[i].name], p)
            && PlaceAt(w, fs, entries[j].node, at + [entries[j].name], p)))
  }

  /** Between a and b the node with the path q is copied to p: it is written if p was free, and then listed as written,
      as are all directories; and it is a conflict if and only if p was taken by something else. */
  ghost predicate Copied(w: World, a: Copy, b: Copy, q: Path, p: Path, node: Node) {
    && Extends(a, b)
    && (p !in a.fs ==> p in b.fs && b.fs[p] == Written(node))
    && (q in NewChanges(a, b) <==> p !in a.fs || node.Dir?)
    && (q in NewConflicts(a, b) <==> p in a.fs && !node.Dir? && !Agrees(w, node, p, a.fs[p]))
  }

  /** Between a and b nothing is reported about q, and nothing appears at p. */
  ghost predicate Unrelated(a: Copy, b: Copy, q: Path, p: Path) {
    Silent(a, b, q) && !Appears(a, b, p)
  }

  lemma CopiedAround(w: World, a: Copy, b: Copy, c: Copy, q: Path, p: Path, node: Node)
    requires (Unrelated(a, b, q, p) && Copied(w, b, c, q, p, node))
      || (Copied(w, a, b, q, p, node) && Unrelated(b, c, q, p))
    ensures Copied(w, a, c, q, p, node)
  {
    ReportsAdd(a, b, c);
  }

  /** What a copy does about its own directory: it is there, and nothing is reported. */
  ghost predicate MadeSilently(w: World, a: Copy, b: Copy, to: Path, at: Path) {
    HasDir(w, b.fs, at) && (at !in a.fs ==> b.fs[at].Directory?) && Silent(a, b, to)
  }

  lemma OwnDirectory(w: World, c: Copy, entries: seq<Child>, to: Path, at: Path)
    requires CopyDirectory(w, c, entries, to, at).ok
    ensures MadeSilently(w, c, CopyDirectory(w, c, entries, to, at), to, at)
    ensures DirAt(w, CopyDirectory(w, c, entries, to, at).fs, at) == DirAt(w, c.fs, at)
  {
    CopyExtends(w, c, entries, to, at);
    var c0, d, r := Opened(c, at), DirAt(w, c.fs, at).value, CopyDirectory(w, c, entries, to, at);
    OpenedHasDir(w, c, at);
    EntriesExtend(w, c0, entries, |entries|, to, d);
    DirStays(w, c0.fs, r.fs, at);
    forall j | 0 <= j < |entries| ensures !IsAtEntry(entries, j, to, to) { RootIsApart(entries, j, to); }
    CopyReportsOnlyTemplate(w, c, entries, to, at, to);
  }

  /** A copy without errors does to every node of the template that goes to a place of its own exactly what it should.
      `fs` is the destination then or later. */
  lemma {:induction false} CopyIsExact(w: World, c: Copy, entries: seq<Child>, to: Path, at: Path,
                                       q: Path, p: Path, node: Node, fs: FileSystem)
    requires Listing(Dir(entries)) && CopyDirectory(w, c, entries, to, at).ok
    requires Includes(fs, CopyDirectory(w, c, entries, to, at).fs)
    requires Goes(w, fs, Dir(entries), to, at, q, p, node) && Alone(w, fs, Dir(entries), at, p) && q != to
    ensures Copied(w, c, CopyDirectory(w, c, entries, to, at), q, p, node)
    decreases entries, |entries| + 1
  {
    var c0, d, r := Opened(c, at), DirAt(w, c.fs, at).value, CopyDirectory(w, c, entries, to, at);
    OwnDirectory(w, c, entries, to, at);
    DirStays(w, r.fs, fs, at);
    var i := GoesOn(w, fs, Dir(entries), to, at, q, p, node);
    NotTheRoot(w, fs, entries, i, to, at, d, q, p, node);
    EntriesAreExact(w, c0, entries, |entries|, to, d, i, q, p, node, fs);
    assert Unrelated(c, c0, q, p);
    CopiedAround(w, c, c0, r, q, p, node);
  }

  lemma NotTheRoot(w: World, fs: FileSystem, entries: seq<Child>, i: nat, to: Path, at: Path, d: Path,
                   q: Path, p: Path, node: Node)
    requires i < |entries| && HasDir(w, fs, at) && DirAt(w, fs, at) == Some(d) && Alone(w, fs, Dir(entries), at, p)
    requires GoesIn(w, fs, entries, i, to, d, q, p, node)
    ensures p != at && AloneIn(w, fs, entries, |entries|, d, p)
  {
    GoesIsPlace(w, fs, entries[i].node, to + [entries[i].name], d + [entries[i].name], q, p, node);
    assert PlaceIn(w, fs, entries, |entries|, d, p);
  }

  lemma {:induction false} NodeIsExact(w: World, c: Copy, n: Node, to: Path, at: Path,
                                       q: Path, p: Path, node: Node, fs: FileSystem)
    requires Listing(n) && CopyNode(w, c, n, to, at).ok && Includes(fs, CopyNode(w, c, n, to, at).fs)
    requires Goes(w, fs, n, to, at, q, p, node) && Alone(w, fs, n, at, p)
    ensures Copied(w, c, CopyNode(w, c, n, to, at), q, p, node)
    decreases n, 0
  {
    NodeExtends(w, c, n, to, at);
    if n.Dir? {
      var r := CopyDirectory(w, c, n.entries, to, at);
      OwnDirectory(w, c, n.entries, to, at);
      assert NewChanges(c, Listed(r, to)) == NewChanges(c, r) + [to];
      if q == to {
        GoesToRoot(w, fs, n, to, at, p, node);
      } else {
        CopyIsExact(w, c, n.entries, to, at, q, p, node, fs);
      }
    }
  }

  /** Only the directory itself has its path. */
  lemma GoesToRoot(w: World, fs: FileSystem, n: Node, to: Path, at: Path, p: Path, node: Node)
    requires n.Dir? && Goes(w, fs, n, to, at, to, p, node)
    ensures p == at && node == n
  {
    if !(p == at && node == n) {
      var i := GoesOn(w, fs, n, to, at, to, p, node);
      var d := DirAt(w, fs, at).value;
      GoesIsPlace(w, fs, n.entries[i].node, to + [n.entries[i].name], d + [n.entries[i].name], to, p, node);
      RootIsApart(n.entries, i, to);
    }
  }

  /** Entries to which neither the path nor the place belongs. */
  lemma OtherEntry(w: World, a: Copy, entries: seq<Child>, i: nat, j: nat, to: Path, at: Path,
                   q: Path, p: Path, r: Copy, fs: FileSystem)
    requires i < |entries| && j < |entries| && i != j && Listing(Dir(entries)) && IsAtEntry(entries, i, to, q)
    requires PlaceAt(w, fs, entries[i].node, at + [entries[i].name], p) && AloneIn(w, fs, entries, |entries|, at, p)
    requires r == CopyNode(w, a, entries[j].node, to + [entries[j].name], at + [entries[j].name]) && Includes(fs, r.fs)
    ensures Unrelated(a, r, q, p)
  {
    var e := entries[j];
    assert Dir(entries).entries[i].name != Dir(entries).entries[j].name;
    EntriesApart(entries, i, j, to, q);
    NodeReports(w, a, e.node, to + [e.name], at + [e.name], q);
    if Appears(a, r, p) {
      NodeWrites(w, a, e.node, to + [e.name], at + [e.name], p);
      PlaceGrows(w, r.fs, fs, e.node, at + [e.name], p);
    }
  }

  lemma {:induction false} EarlierEntries(w: World, c: Copy, entries: seq<Child>, i: nat, k: nat, to: Path, at: Path,
                                          q: Path, p: Path, fs: FileSystem)
    requires k <= i < |entries| && Listing(Dir(entries)) && IsAtEntry(entries, i, to, q)
    requires PlaceAt(w, fs, entries[i].node, at + [entries[i].name], p) && AloneIn(w, fs, entries, |entries|, at, p)
    requires Includes(fs, CopyEntries(w, c, entries, k, to, at).fs)
    ensures Unrelated(c, CopyEntries(w, c, entries, k, to, at), q, p)
    decreases k
  {
    if k > 0 {
      var e, a, r := entries[k - 1], CopyEntries(w, c, entries, k - 1, to, at), CopyEntries(w, c, entries, k, to, at);
      NodeExtends(w, a, e.node, to + [e.name], at + [e.name]);
      EarlierEntries(w, c, entries, i, k - 1, to, at, q, p, fs);
      OtherEntry(w, a, entries, i, k - 1, to, at, q, p, r, fs);
      SilentBoth(c, a, r, q);
    }
  }

  lemma {:induction false} EntriesAreExact(w: World, c: Copy, entries: seq<Child>, k: nat, to: Path, at: Path,
                                           i: nat, q: Path, p: Path, node: Node, fs: FileSystem)
    requires i < k <= |entries| && Listing(Dir(entries)) && CopyEntries(w, c, entries, k, to, at).ok
    requires Includes(fs, CopyEntries(w, c, entries, k, to, at).fs)
    requires GoesIn(w, fs, entries, i, to, at, q, p, node) && AloneIn(w, fs, entries, |entries|, at, p)
    ensures Copied(w, c, CopyEntries(w, c, entries, k, to, at), q, p, node)
    decreases entries, k
  {
    var e, a, r := entries[k - 1], CopyEntries(w, c, entries, k - 1, to, at), CopyEntries(w, c, entries, k, to, at);
    NodeExtends(w, a, e.node, to + [e.name], at + [e.name]);
    GoesIsPlace(w, fs, entries[i].node, to + [entries[i].name], at + [entries[i].name], q, p, node);
    if i == k - 1 {
      EarlierEntries(w, c, entries, i, k - 1, to, at, q, p, fs);
      assert Listing(Dir(entries).entries[i].node);
      NodeIsExact(w, a, e.node, to + [e.name], at + [e.name], q, p, node, fs);
    } else {
      EntriesAreExact(w, c, entries, k - 1, to, at, i, q, p, node, fs);
      OtherEntry(w, a, entries, i, k - 1, to, at, q, p, r, fs);
    }
    CopiedAround(w, c, a, r, q, p, node);
  }
}
