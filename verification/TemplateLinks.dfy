/** Copying a template to a destination in which no symbolic link leads to a directory where the template has one. */
module TemplateLinks {
  import opened Basics
  import opened Templates
  import opened TemplatePlaces

  /** No symbolic link is followed: where the template has a directory, there is none that leads anywhere. */
  ghost predicate LinkFree(w: World, fs: FileSystem, n: Node, at: Path)
    decreases n
  {
    n.Dir? ==>
      && (at in fs && fs[at].Symlink? ==> w.leads(at, fs[at].target).None?)
      && forall i :: 0 <= i < |n.entries| ==> LinkFree(w, fs, n.entries[i].node, at + [n.entries[i].name])
  }

  ghost predicate LinkFreeIn(w: World, fs: FileSystem, entries: seq<Child>, at: Path) {
    forall i :: 0 <= i < |entries| ==> LinkFree(w, fs, entries[i].node, at + [entries[i].name])
  }

  predicate SameAt(a: FileSystem, b: FileSystem, p: Path) {
    (p in a <==> p in b) && (p in a ==> a[p] == b[p])
  }

  /** The two agree at the paths of the template. */
  ghost predicate Alike(a: FileSystem, b: FileSystem, n: Node, at: Path) {
    forall p :: IsAt(n, at, p) ==> SameAt(a, b, p)
  }

  lemma AlikeBelow(a: FileSystem, b: FileSystem, n: Node, at: Path, i: nat)
    requires n.Dir? && i < |n.entries| && Alike(a, b, n, at)
    ensures Alike(a, b, n.entries[i].node, at + [n.entries[i].name])
  {
    forall p | IsAt(n.entries[i].node, at + [n.entries[i].name], p) ensures SameAt(a, b, p) { assert IsAt(n, at, p); }
  }

  lemma {:induction false} LinkFreeAlike(w: World, a: FileSystem, b: FileSystem, n: Node, at: Path)
    requires LinkFree(w, a, n, at) && Alike(a, b, n, at)
    ensures LinkFree(w, b, n, at)
    decreases n
  {
    if n.Dir? {
      assert IsAt(n, at, at) && SameAt(a, b, at);
      forall i | 0 <= i < |n.entries| ensures LinkFree(w, b, n.entries[i].node, at + [n.entries[i].name]) {
        AlikeBelow(a, b, n, at, i);
        LinkFreeAlike(w, a, b, n.entries[i].node, at + [n.entries[i].name]);
      }
    }
  }

  // ----- What a copy leaves alone -----

  /** Between a and b nothing appears outside the paths of the first k entries. */
  ghost predicate OnlyEntries(a: FileSystem, b: FileSystem, entries: seq<Child>, k: nat, at: Path)
    requires k <= |entries|
  {
    forall p :: (forall j :: 0 <= j < k ==> !IsAtEntry(entries, j, at, p)) ==> SameAt(a, b, p)
  }

  ghost predicate OnlyNode(a: FileSystem, b: FileSystem, n: Node, at: Path) {
    forall p :: !IsAt(n, at, p) ==> SameAt(a, b, p)
  }

  lemma OpenedAlike(c: Copy, entries: seq<Child>, i: nat, at: Path)
    requires i < |entries|
    ensures Alike(c.fs, Opened(c, at).fs, entries[i].node, at + [entries[i].name])
  {
    forall p | IsAt(entries[i].node, at + [entries[i].name], p) ensures SameAt(c.fs, Opened(c, at).fs, p) {
      assert IsAtEntry(entries, i, at, p);
      RootIsApart(entries, i, at);
    }
  }

  lemma OpenedLinkFree(w: World, c: Copy, entries: seq<Child>, at: Path)
    requires LinkFree(w, c.fs, Dir(entries), at)
    ensures LinkFreeIn(w, Opened(c, at).fs, entries, at)
  {
    forall i | 0 <= i < |entries| ensures LinkFree(w, Opened(c, at).fs, entries[i].node, at + [entries[i].name]) {
      assert LinkFree(w, c.fs, Dir(entries).entries[i].node, at + [Dir(entries).entries[i].name]);
      OpenedAlike(c, entries, i, at);
      LinkFreeAlike(w, c.fs, Opened(c, at).fs, entries[i].node, at + [entries[i].name]);
    }
  }

  lemma {:induction false} DirectoryLinkFree(w: World, c: Copy, entries: seq<Child>, to: Path, at: Path)
    requires Listing(Dir(entries)) && LinkFree(w, c.fs, Dir(entries), at)
    ensures var r := CopyDirectory(w, c, entries, to, at);
            LinkFree(w, r.fs, Dir(entries), at) && OnlyNode(c.fs, r.fs, Dir(entries), at)
    decreases entries, |entries| + 1
  {
    var c0, r := Opened(c, at), CopyDirectory(w, c, entries, to, at);
    if c.ok && DirAt(w, c.fs, at).Some? {
      OpenedLinkFree(w, c, entries, at);
      EntriesLinkFree(w, c0, entries, |entries|, to, at);
      forall p | !IsAt(Dir(entries), at, p) ensures SameAt(c.fs, r.fs, p) {
        forall j | 0 <= j < |entries|
          ensures !IsAtEntry(entries, j, at, p)
        {
          assert entries[j] == Dir(entries).entries[j];
        }
        assert SameAt(c0.fs, r.fs, p);
      }
      forall j | 0 <= j < |entries| ensures !IsAtEntry(entries, j, at, at) { RootIsApart(entries, j, at); }
      assert SameAt(c0.fs, r.fs, at);
    }
  }

  lemma {:induction false} NodeLinkFree(w: World, c: Copy, n: Node, to: Path, at: Path)
    requires Listing(n) && LinkFree(w, c.fs, n, at)
    ensures var r := CopyNode(w, c, n, to, at); LinkFree(w, r.fs, n, at) && OnlyNode(c.fs, r.fs, n, at)
    decreases n, 0
  {
    if n.Dir? { DirectoryLinkFree(w, c, n.entries, to, at); }
  }

  /** Copying entry j leaves the other entries alone. */
  lemma OtherAlike(a: FileSystem, r: FileSystem, entries: seq<Child>, i: nat, j: nat, at: Path)
    requires i < |entries| && j < |entries| && i != j && Listing(Dir(entries))
    requires OnlyNode(a, r, entries[j].node, at + [entries[j].name])
    ensures Alike(a, r, entries[i].node, at + [entries[i].name])
  {
    assert Dir(entries).entries[i].name != Dir(entries).entries[j].name;
    forall p | IsAt(entries[i].node, at + [entries[i].name], p) ensures SameAt(a, r, p) {
      assert IsAtEntry(entries, i, at, p);
      EntriesApart(entries, i, j, at, p);
    }
  }

  lemma {:induction false} EntriesLinkFree(w: World, c: Copy, entries: seq<Child>, k: nat, to: Path, at: Path)
    requires k <= |entries| && Listing(Dir(entries)) && LinkFreeIn(w, c.fs, entries, at)
    ensures var r := CopyEntries(w, c, entries, k, to, at);
            LinkFreeIn(w, r.fs, entries, at) && OnlyEntries(c.fs, r.fs, entries, k, at)
    decreases entries, k
  {
    if k > 0 {
      var e, a, r := entries[k - 1], CopyEntries(w, c, entries, k - 1, to, at), CopyEntries(w, c, entries, k, to, at);
      EntriesLinkFree(w, c, entries, k - 1, to, at);
      assert Listing(Dir(entries).entries[k - 1].node);
      NodeLinkFree(w, a, e.node, to + [e.name], at + [e.name]);
      forall i | 0 <= i < |entries| ensures LinkFree(w, r.fs, entries[i].node, at + [entries[i].name]) {
        if i != k - 1 {
          OtherAlike(a.fs, r.fs, entries, i, k - 1, at);
          LinkFreeAlike(w, a.fs, r.fs, entries[i].node, at + [entries[i].name]);
        }
      }
      OnlyOneMore(c.fs, a.fs, r.fs, entries, k, at);
    }
  }

  lemma OnlyOneMore(c: FileSystem, a: FileSystem, r: FileSystem, entries: seq<Child>, k: nat, at: Path)
    requires 0 < k <= |entries| && OnlyEntries(c, a, entries, k - 1, at)
    requires OnlyNode(a, r, entries[k - 1].node, at + [entries[k - 1].name])
    ensures OnlyEntries(c, r, entries, k, at)
  {
    forall p | (forall j :: 0 <= j < k ==> !IsAtEntry(entries, j, at, p)) ensures SameAt(c, r, p) {
      assert !IsAtEntry(entries, k - 1, at, p);
      assert SameAt(c, a, p) && SameAt(a, r, p);
    }
  }

  /** If no symbolic link is followed: where the template has nothing, nothing is written or reported, even if the copy
      stops at an error. */
  lemma CopyTouchesOnlyTemplate(w: World, c: Copy, entries: seq<Child>, to: Path, p: Path)
    requires Listing(Dir(entries)) && LinkFree(w, c.fs, Dir(entries), to) && !IsAt(Dir(entries), to, p)
    ensures var r := CopyDirectory(w, c, entries, to, to); SameAt(c.fs, r.fs, p) && Silent(c, r, p)
  {
    DirectoryLinkFree(w, c, entries, to, to);
    forall j | 0 <= j < |entries|
      ensures !IsAtEntry(entries, j, to, p)
    {
      assert entries[j] == Dir(entries).entries[j];
    }
    CopyReportsOnlyTemplate(w, c, entries, to, to, p);
  }

  // ----- Every node goes to its own path -----

  /** The node of the template with the path q. */
  ghost predicate NodeAt(n: Node, to: Path, q: Path, node: Node)
    decreases n
  {
    (q == to && node == n)
    || (n.Dir? && exists i :: 0 <= i < |n.entries| && NodeAt(n.entries[i].node, to + [n.entries[i].name], q, node))
  }

  lemma LinkFreeDir(w: World, fs: FileSystem, n: Node, at: Path)
    requires n.Dir? && LinkFree(w, fs, n, at) && HasDir(w, fs, at)
    ensures DirAt(w, fs, at) == Some(at)
  {
  }

  lemma {:induction false} PlaceIsPath(w: World, fs: FileSystem, n: Node, at: Path, p: Path)
    requires LinkFree(w, fs, n, at) && PlaceAt(w, fs, n, at, p)
    ensures IsAt(n, at, p)
    decreases n
  {
    if p != at {
      LinkFreeDir(w, fs, n, at);
      var i :| 0 <= i < |n.entries| && PlaceAt(w, fs, n.entries[i].node, at + [n.entries[i].name], p);
      PlaceIsPath(w, fs, n.entries[i].node, at + [n.entries[i].name], p);
    }
  }

  lemma NotInTwo(w: World, fs: FileSystem, entries: seq<Child>, i: nat, j: nat, at: Path, p: Path)
    requires i < j < |entries| && Listing(Dir(entries)) && LinkFreeIn(w, fs, entries, at)
    ensures !(PlaceAt(w, fs, entries[i].node, at + [entries[i].name], p)
              && PlaceAt(w, fs, entries[j].node, at + [entries[j].name], p))
  {
    assert Dir(entries).entries[i].name != Dir(entries).entries[j].name;
    if PlaceAt(w, fs, entries[i].node, at + [entries[i].name], p)
       && PlaceAt(w, fs, entries[j].node, at + [entries[j].name], p)
    {
      PlaceIsPath(w, fs, entries[i].node, at + [entries[i].name], p);
      PlaceIsPath(w, fs, entries[j].node, at + [entries[j].name], p);
      assert IsAtEntry(entries, i, at, p) && IsAtEntry(entries, j, at, p);
      EntriesApart(entries, i, j, at, p);
    }
  }

  lemma {:induction false} PathsAreAlone(w: World, fs: FileSystem, n: Node, at: Path, p: Path)
    requires Listing(n) && LinkFree(w, fs, n, at)
    ensures Alone(w, fs, n, at, p)
    decreases n
  {
    if n.Dir? && HasDir(w, fs, at) {
      LinkFreeDir(w, fs, n, at);
      assert Dir(n.entries) == n;
      forall i | 0 <= i < |n.entries| ensures Alone(w, fs, n.entries[i].node, at + [n.entries[i].name], p) {
        PathsAreAlone(w, fs, n.entries[i].node, at + [n.entries[i].name], p);
      }
      forall i, j | 0 <= i < j < |n.entries|
        ensures !(PlaceAt(w, fs, n.entries[i].node, at + [n.entries[i].name], p)
                  && PlaceAt(w, fs, n.entries[j].node, at + [n.entries[j].name], p))
      {
        NotInTwo(w, fs, n.entries, i, j, at, p);
      }
      RootIsNoPlace(w, fs, n.entries, at);
    }
  }

  lemma RootIsNoPlace(w: World, fs: FileSystem, entries: seq<Child>, at: Path)
    requires LinkFreeIn(w, fs, entries, at)
    ensures !PlaceIn(w, fs, entries, |entries|, at, at)
  {
    forall i | 0 <= i < |entries| ensures !PlaceAt(w, fs, entries[i].node, at + [entries[i].name], at) {
      if PlaceAt(w, fs, entries[i].node, at + [entries[i].name], at) {
        PlaceIsPath(w, fs, entries[i].node, at + [entries[i].name], at);
        assert IsAtEntry(entries, i, at, at);
        RootIsApart(entries, i, at);
      }
    }
  }

  lemma {:induction false} PathsAreReached(w: World, fs: FileSystem, conflicted: seq<Path>, n: Node, to: Path,
                                           q: Path, node: Node)
    requires LinkFree(w, fs, n, to) && Covered(w, fs, conflicted, n, to, to) && NodeAt(n, to, q, node)
    ensures Goes(w, fs, n, to, to, q, q, node)
    decreases n
  {
    if !(q == to && node == n) {
      LinkFreeDir(w, fs, n, to);
      var i :| 0 <= i < |n.entries| && NodeAt(n.entries[i].node, to + [n.entries[i].name], q, node);
      PathsAreReached(w, fs, conflicted, n.entries[i].node, to + [n.entries[i].name], q, node);
      assert GoesIn(w, fs, n.entries, i, to, to, q, q, node);
    }
  }

  /** If no symbolic link is followed, a copy without errors does to every node of the template exactly what it should,
      at the path of the node. */
  lemma PathsAreExact(w: World, c: Copy, entries: seq<Child>, to: Path, q: Path, node: Node)
    requires Listing(Dir(entries)) && LinkFree(w, c.fs, Dir(entries), to) && CopyDirectory(w, c, entries, to, to).ok
    requires NodeAt(Dir(entries), to, q, node) && q != to
    ensures Copied(w, c, CopyDirectory(w, c, entries, to, to), q, q, node)
  {
    var r := CopyDirectory(w, c, entries, to, to);
    DirectoryLinkFree(w, c, entries, to, to);
    CopyCovers(w, c, entries, to, to);
    PathsAreReached(w, r.fs, r.conflicted, Dir(entries), to, q, node);
    PathsAreAlone(w, r.fs, Dir(entries), to, q);
    CopyIsExact(w, c, entries, to, to, q, q, node, r.fs);
  }

  // ----- When a copy succeeds -----

  /** Nothing in the destination is in the way: where the template has a directory there is nothing else, where it
      has a file there is nothing that cannot be read, and where it has a symbolic link there is no other entry. */
  ghost predicate Fits(w: World, fs: FileSystem, n: Node, at: Path)
    decreases n
  {
    match n
    case Dir(entries) =>
      && (at in fs ==> fs[at].Directory?)
      && forall i :: 0 <= i < |entries| ==> Fits(w, fs, entries[i].node, at + [entries[i].name])
    case File(_) => at in fs ==> ReadBack(w, at, fs[at]).Some?
    case Link(_) => at in fs ==> fs[at].Symlink?
    case Special => false
  }

  lemma {:induction false} FitsAlike(w: World, a: FileSystem, b: FileSystem, n: Node, at: Path)
    requires Alike(a, b, n, at)
    ensures Fits(w, a, n, at) <==> Fits(w, b, n, at)
    decreases n
  {
    assert IsAt(n, at, at) && SameAt(a, b, at);
    if n.Dir? {
      forall i | 0 <= i < |n.entries|
        ensures Fits(w, a, n.entries[i].node, at + [n.entries[i].name]) <==>
                Fits(w, b, n.entries[i].node, at + [n.entries[i].name])
      {
        AlikeBelow(a, b, n, at, i);
        FitsAlike(w, a, b, n.entries[i].node, at + [n.entries[i].name]);
      }
    }
  }

  /** If no symbolic link is followed, a copy stops at an error if and only if something is in the way before it
      begins. */
  lemma {:induction false} CopySucceedsIff(w: World, c: Copy, entries: seq<Child>, to: Path, at: Path)
    requires c.ok && Listing(Dir(entries)) && LinkFree(w, c.fs, Dir(entries), at)
    ensures CopyDirectory(w, c, entries, to, at).ok <==> Fits(w, c.fs, Dir(entries), at)
    decreases entries, |entries| + 1
  {
    var c0 := Opened(c, at);
    if DirAt(w, c.fs, at).Some? {
      OpenedLinkFree(w, c, entries, at);
      EntriesSucceedIff(w, c0, entries, |entries|, to, at);
      forall i | 0 <= i < |entries|
        ensures Fits(w, c.fs, entries[i].node, at + [entries[i].name]) <==>
                Fits(w, c0.fs, entries[i].node, at + [entries[i].name])
      {
        OpenedAlike(c, entries, i, at);
        FitsAlike(w, c.fs, c0.fs, entries[i].node, at + [entries[i].name]);
      }
    }
  }

  lemma {:induction false} NodeSucceedsIff(w: World, c: Copy, n: Node, to: Path, at: Path)
    requires c.ok && Listing(n) && LinkFree(w, c.fs, n, at)
    ensures CopyNode(w, c, n, to, at).ok <==> Fits(w, c.fs, n, at)
    decreases n, 0
  {
    if n.Dir? { CopySucceedsIff(w, c, n.entries, to, at); }
  }

  lemma {:induction false} EntriesSucceedIff(w: World, c: Copy, entries: seq<Child>, k: nat, to: Path, at: Path)
    requires k <= |entries| && c.ok && Listing(Dir(entries)) && LinkFreeIn(w, c.fs, entries, at)
    ensures CopyEntries(w, c, entries, k, to, at).ok <==>
            forall i :: 0 <= i < k ==> Fits(w, c.fs, entries[i].node, at + [entries[i].name])
    decreases entries, k
  {
    if k > 0 {
      EntriesSucceedIff(w, c, entries, k - 1, to, at);
      var e, a := entries[k - 1], CopyEntries(w, c, entries, k - 1, to, at);
      if a.ok {
        assert Listing(Dir(entries).entries[k - 1].node);
        EntriesLinkFree(w, c, entries, k - 1, to, at);
        NodeSucceedsIff(w, a, e.node, to + [e.name], at + [e.name]);
        EntryAlike(c.fs, a.fs, entries, k, at);
        FitsAlike(w, c.fs, a.fs, e.node, at + [e.name]);
      }
    }
  }

  /** Copying the entries before it leaves the paths of an entry as they were. */
  lemma EntryAlike(c: FileSystem, a: FileSystem, entries: seq<Child>, k: nat, at: Path)
    requires 0 < k <= |entries| && Listing(Dir(entries)) && OnlyEntries(c, a, entries, k - 1, at)
    ensures Alike(c, a, entries[k - 1].node, at + [entries[k - 1].name])
  {
    forall p | IsAt(entries[k - 1].node, at + [entries[k - 1].name], p) ensures SameAt(c, a, p) {
      assert IsAtEntry(entries, k - 1, at, p);
      forall j | 0 <= j < k - 1 ensures !IsAtEntry(entries, j, at, p) {
        assert Dir(entries).entries[j].name != Dir(entries).entries[k - 1].name;
        EntriesApart(entries, k - 1, j, at, p);
      }
    }
  }
}
