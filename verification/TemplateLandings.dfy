/** Where a template lands, told from the destination before the copy. */
module TemplateLandings {
  import opened Basics
  import opened Templates
  import opened TemplatePlaces

  /** Some node of the template that is written as e lands at p: symbolic links of the destination are followed where
      the template has a directory, and directories that are missing will be made. */
  ghost predicate LandsAs(w: World, fs: FileSystem, n: Node, at: Path, p: Path, e: Entry)
    decreases n, 0
  {
    (p == at && !n.Special? && e == Written(n))
    || (n.Dir? && DirAt(w, fs, at).Some? && LandsBelow(w, fs, n.entries, DirAt(w, fs, at).value, p, e))
  }

  ghost predicate LandsBelow(w: World, fs: FileSystem, entries: seq<Child>, at: Path, p: Path, e: Entry)
    decreases entries, |entries|
  {
    exists i :: 0 <= i < |entries| && LandsAs(w, fs, entries[i].node, at + [entries[i].name], p, e)
  }

  ghost predicate Lands(w: World, fs: FileSystem, n: Node, at: Path, p: Path) {
    exists e :: LandsAs(w, fs, n, at, p, e)
  }

  /** What is written where, and what was there before. */
  type Landings = (Path, Entry) -> bool

  ghost function LandingsOf(w: World, fs: FileSystem, n: Node, at: Path): Landings {
    (p: Path, e: Entry) => LandsAs(w, fs, n, at, p, e)
  }

  /** Where a directory lands, a symbolic link leads nowhere or to a directory that is there already, and no symbolic
      link of the template lands. So it does not depend on the order of the copy where anything lands. */
  ghost predicate Steady(w: World, fs: FileSystem, lands: Landings) {
    && (forall p :: lands(p, Directory) && p in fs && fs[p].Symlink? ==>
          var d := w.leads(p, fs[p].target); d.None? || (d.value in fs && fs[d.value].Directory?))
    && (forall p, target :: lands(p, Directory) ==> !lands(p, Symlink(target)))
  }

  ghost predicate Within(lands: Landings, w: World, fs: FileSystem, n: Node, at: Path) {
    forall p, e :: LandsAs(w, fs, n, at, p, e) ==> lands(p, e)
  }

  /** Everything that has been added has landed there. */
  ghost predicate Landed(before: FileSystem, lands: Landings, fs: FileSystem) {
    Includes(fs, before) && forall p :: p in fs && p !in before ==> lands(p, fs[p])
  }

  lemma SameDir(w: World, before: FileSystem, lands: Landings, fs: FileSystem, at: Path)
    requires Steady(w, before, lands) && Landed(before, lands, fs) && lands(at, Directory) && DirAt(w, fs, at).Some?
    ensures DirAt(w, before, at) == DirAt(w, fs, at)
  {
    assert at in fs && at !in before ==> lands(at, fs[at]);
  }

  lemma RootLands(lands: Landings, w: World, before: FileSystem, n: Node, at: Path)
    requires Within(lands, w, before, n, at) && !n.Special?
    ensures lands(at, Written(n))
  {
    assert LandsAs(w, before, n, at, at, Written(n));
  }

  lemma WithinEntry(lands: Landings, w: World, before: FileSystem, entries: seq<Child>, at: Path, d: Path, i: nat)
    requires Within(lands, w, before, Dir(entries), at) && DirAt(w, before, at) == Some(d) && i < |entries|
    ensures Within(lands, w, before, entries[i].node, d + [entries[i].name])
  {
    forall p, e | LandsAs(w, before, entries[i].node, d + [entries[i].name], p, e) ensures lands(p, e) {
      assert LandsBelow(w, before, entries, d, p, e);
      assert LandsAs(w, before, Dir(entries), at, p, e);
    }
  }

  lemma {:induction false} DirectoryLands(w: World, before: FileSystem, lands: Landings, c: Copy, entries: seq<Child>,
                                          to: Path, at: Path)
    requires Steady(w, before, lands) && Landed(before, lands, c.fs) && Within(lands, w, before, Dir(entries), at)
    ensures Landed(before, lands, CopyDirectory(w, c, entries, to, at).fs)
    decreases entries, |entries| + 1
  {
    var d := DirAt(w, c.fs, at);
    if c.ok && d.Some? {
      RootLands(lands, w, before, Dir(entries), at);
      SameDir(w, before, lands, c.fs, at);
      EntriesLand(w, before, lands, Opened(c, at), entries, |entries|, to, at, d.value);
    }
  }

  lemma {:induction false} NodeLands(w: World, before: FileSystem, lands: Landings, c: Copy, n: Node, to: Path,
                                     at: Path)
    requires Steady(w, before, lands) && Landed(before, lands, c.fs) && Within(lands, w, before, n, at)
    ensures Landed(before, lands, CopyNode(w, c, n, to, at).fs)
    decreases n, 0
  {
    if n.Dir? {
      DirectoryLands(w, before, lands, c, n.entries, to, at);
    } else if !n.Special? {
      RootLands(lands, w, before, n, at);
    }
  }

  lemma {:induction false} EntriesLand(w: World, before: FileSystem, lands: Landings, c: Copy, entries: seq<Child>,
                                       k: nat, to: Path, at: Path, d: Path)
    requires Steady(w, before, lands) && Landed(before, lands, c.fs) && Within(lands, w, before, Dir(entries), at)
    requires k <= |entries| && DirAt(w, before, at) == Some(d)
    ensures Landed(before, lands, CopyEntries(w, c, entries, k, to, d).fs)
    decreases entries, k
  {
    if k > 0 {
      var e, a := entries[k - 1], CopyEntries(w, c, entries, k - 1, to, d);
      EntriesLand(w, before, lands, c, entries, k - 1, to, at, d);
      WithinEntry(lands, w, before, entries, at, d, k - 1);
      NodeLands(w, before, lands, a, e.node, to + [e.name], d + [e.name]);
    }
  }

  lemma {:induction false} LandedIsThere(w: World, before: FileSystem, lands: Landings, r: Copy, n: Node, to: Path,
                                         at: Path, p: Path, e: Entry)
    requires Steady(w, before, lands) && Landed(before, lands, r.fs) && Within(lands, w, before, n, at)
    requires Covered(w, r.fs, r.conflicted, n, to, at) && LandsAs(w, before, n, at, p, e)
    ensures p in r.fs
    decreases n
  {
    if !(p == at && e == Written(n)) {
      RootLands(lands, w, before, n, at);
      SameDir(w, before, lands, r.fs, at);
      var d := DirAt(w, before, at).value;
      assert LandsBelow(w, before, n.entries, d, p, e);
      var i :| 0 <= i < |n.entries| && LandsAs(w, before, n.entries[i].node, d + [n.entries[i].name], p, e);
      assert Dir(n.entries) == n;
      WithinEntry(lands, w, before, n.entries, at, d, i);
      LandedIsThere(w, before, lands, r, n.entries[i].node, to + [n.entries[i].name], d + [n.entries[i].name], p, e);
    }
  }

  /** Told from the destination before the copy: what is written lands there, even if the copy stops at an error, and
      without errors everything that lands on a free place is written. */
  lemma WritesWhatLands(w: World, c: Copy, entries: seq<Child>, to: Path)
    requires Steady(w, c.fs, LandingsOf(w, c.fs, Dir(entries), to))
    ensures var r := CopyDirectory(w, c, entries, to, to);
            && (forall p :: Appears(c, r, p) ==> LandsAs(w, c.fs, Dir(entries), to, p, r.fs[p]))
            && (r.ok ==> forall p :: Appears(c, r, p) <==> Lands(w, c.fs, Dir(entries), to, p) && p !in c.fs)
  {
    var r, lands := CopyDirectory(w, c, entries, to, to), LandingsOf(w, c.fs, Dir(entries), to);
    DirectoryLands(w, c.fs, lands, c, entries, to, to);
    forall p | Appears(c, r, p) ensures LandsAs(w, c.fs, Dir(entries), to, p, r.fs[p]) { assert lands(p, r.fs[p]); }
    if r.ok {
      CopyCovers(w, c, entries, to, to);
      forall p | Lands(w, c.fs, Dir(entries), to, p) ensures p in r.fs {
        var e :| LandsAs(w, c.fs, Dir(entries), to, p, e);
        LandedIsThere(w, c.fs, lands, r, Dir(entries), to, to, p, e);
      }
    }
  }

  /** A copy without errors stays within the paths of the template if and only if everything that lands on a free place
      before it begins, lands on one of these. */
  lemma StaysInsideIff(w: World, c: Copy, entries: seq<Child>, to: Path)
    requires Steady(w, c.fs, LandingsOf(w, c.fs, Dir(entries), to)) && CopyDirectory(w, c, entries, to, to).ok
    ensures var r := CopyDirectory(w, c, entries, to, to);
            (forall p :: Appears(c, r, p) ==> IsAt(Dir(entries), to, p)) <==>
            (forall p :: Lands(w, c.fs, Dir(entries), to, p) && p !in c.fs ==> IsAt(Dir(entries), to, p))
  {
    WritesWhatLands(w, c, entries, to);
  }

  // ----- A link that is followed -----

  /** A template with one directory, which has one file. */
  function OneFile(sub: string, x: string, text: string): seq<Child> {
    [Child(sub, Dir([Child(x, File(text))]))]
  }

  lemma OneEntry(w: World, c: Copy, name: string, n: Node, to: Path, at: Path)
    ensures CopyEntries(w, c, [Child(name, n)], 1, to, at) == CopyNode(w, c, n, to + [name], at + [name])
  {
    assert CopyEntries(w, c, [Child(name, n)], 0, to, at) == c;
  }

  lemma PathsOfOneFile(sub: string, x: string, text: string, to: Path, p: Path)
    requires IsAt(Dir(OneFile(sub, x, text)), to, p)
    ensures p == to || p == to + [sub] || p == to + [sub] + [x]
  {
    var n := Dir([Child(x, File(text))]);
    if p != to {
      assert IsAt(n, to + [sub], p);
      assert p != to + [sub] ==> IsAt(File(text), to + [sub] + [x], p);
    }
  }

  lemma FileIsPut(w: World, c: Copy, x: string, text: string, to: Path, at: Path, d: Path)
    requires c.ok && at in c.fs && DirAt(w, c.fs, at) == Some(d) && d + [x] !in c.fs
    ensures CopyDirectory(w, c, [Child(x, File(text))], to, at)
            == c.(fs := c.fs[d + [x] := Regular(text)], changed := c.changed + [to + [x]])
  {
    OneEntry(w, c, x, File(text), to, d);
  }

  /** Any destination with a symbolic link to a directory in the place of a directory of the template: if the name of
      the file is free in that other directory, the copy succeeds, and the file appears there, where the template has
      nothing. */
  lemma LinkIsFollowed(w: World, fs: FileSystem, to: Path, sub: string, x: string, text: string, d: Path)
    requires to in fs && fs[to].Directory? && to + [sub] in fs && fs[to + [sub]].Symlink?
    requires w.leads(to + [sub], fs[to + [sub]].target) == Some(d) && d in fs && fs[d].Directory? && d + [x] !in fs
    ensures var r := CopyDirectory(w, Fresh(fs), OneFile(sub, x, text), to, to);
            && r == Copy(fs[d + [x] := Regular(text)], [to + [sub] + [x], to + [sub]], [], true)
            && !IsAt(Dir(OneFile(sub, x, text)), to, d + [x])
  {
    FileIsPut(w, Fresh(fs), x, text, to + [sub], to + [sub], d);
    OneEntry(w, Fresh(fs), sub, Dir([Child(x, File(text))]), to, to);
    assert (d + [x])[..|d|] == d && (to + [sub] + [x])[..|to| + 1] == to + [sub];
    if IsAt(Dir(OneFile(sub, x, text)), to, d + [x]) { PathsOfOneFile(sub, x, text, to, d + [x]); }
  }
}
