/** Comparing two manifests for display (`printDiff`): a merge of the two lists of names. */
module ManifestDiff {
  import opened Basics
  import opened ProfileManifest
  import Selectors

  /** One line: an element that is new, is gone or has other versions. */
  datatype Line = Line(name: string, before: Option<Element>, after: Option<Element>)

  type Elements = map<string, Element>

  function Lookup(m: Elements, x: string): Option<Element> {
    if x in m then Some(m[x]) else None
  }

  /** An element is shown unless both manifests have it with the same versions. */
  predicate Differs(versions: Element -> string, prev: Elements, cur: Elements, x: string) {
    (x in prev || x in cur) && !(x in prev && x in cur && versions(prev[x]) == versions(cur[x]))
  }

  function NamesOf(lines: seq<Line>): seq<string> {
    seq(|lines|, i requires 0 <= i < |lines| => lines[i].name)
  }

  /** Everything in the first list comes before everything in the second one. */
  ghost predicate Before(a: seq<string>, b: seq<string>) {
    forall x, y :: x in a && y in b ==> StringLess(x, y)
  }

  /** The lines say what has become of the names. */
  ghost predicate Tells(versions: Element -> string, prev: Elements, cur: Elements, names: seq<string>,
                        lines: seq<Line>)
  {
    && (forall i :: 0 <= i < |lines| ==>
        lines[i] == Line(lines[i].name, Lookup(prev, lines[i].name), Lookup(cur, lines[i].name)))
    && (forall x :: x in NamesOf(lines) <==> x in names && Differs(versions, prev, cur, x))
    && Increasing(NamesOf(lines))
  }

  lemma NamesMore(lines: seq<Line>, l: Line)
    ensures NamesOf(lines + [l]) == NamesOf(lines) + [l.name]
  {
  }

  lemma IncreasingMore(names: seq<string>, x: string)
    requires Increasing(names) && Before(names, [x])
    ensures Increasing(names + [x])
  {
    forall i, j | 0 <= i < j < |names + [x]| ensures StringLess((names + [x])[i], (names + [x])[j]) {
      if j == |names| { assert names[i] in names && x in [x]; }
    }
  }

  /** One more name is dealt with. */
  lemma TellMore(versions: Element -> string, prev: Elements, cur: Elements, names: seq<string>, lines: seq<Line>,
                 x: string, lines': seq<Line>)
    requires Tells(versions, prev, cur, names, lines) && Before(names, [x])
    requires lines' == if Differs(versions, prev, cur, x) then lines + [Line(x, Lookup(prev, x), Lookup(cur, x))]
      else lines
    ensures Tells(versions, prev, cur, names + [x], lines')
  {
    if Differs(versions, prev, cur, x) {
      NamesMore(lines, Line(x, Lookup(prev, x), Lookup(cur, x)));
      assert Before(NamesOf(lines), [x]);
      IncreasingMore(NamesOf(lines), x);
    }
  }

  /** `done` are the names dealt with; what is left of the two lists comes after them, in order. */
  ghost predicate Merging(prev: Elements, cur: Elements, done: seq<string>, ks: seq<string>, ls: seq<string>) {
    && Increasing(ks) && Increasing(ls) && Before(done, ks) && Before(done, ls)
    && (forall x :: x in prev <==> x in ks || (x in done && x in prev))
    && (forall x :: x in cur <==> x in ls || (x in done && x in cur))
    && (forall x :: x in ks ==> x in prev) && (forall x :: x in ls ==> x in cur)
    && (forall x :: x in done ==> x in prev || x in cur)
  }

  lemma {:induction false} NotBelowItself(x: string)
    ensures !StringLess(x, x)
  {
    StringLessStrict(x, x);
  }

  lemma TailAfter(ks: seq<string>)
    requires Increasing(ks) && ks != []
    ensures Before([ks[0]], ks[1..]) && Increasing(ks[1..])
  {
    forall x, y | x in [ks[0]] && y in ks[1..] ensures StringLess(x, y) {
      var j :| 0 <= j < |ks| - 1 && ks[1..][j] == y;
      assert ks[j + 1] == y;
    }
  }

  /** x comes before the whole list if it comes before its first name. */
  lemma FirstIsLeast(x: string, ls: seq<string>)
    requires Increasing(ls) && (ls != [] ==> StringLess(x, ls[0]))
    ensures Before([x], ls)
  {
    forall a, y | a in [x] && y in ls ensures StringLess(a, y) {
      var j :| 0 <= j < |ls| && ls[j] == y;
      if j > 0 { StringLessTransitive(x, ls[0], y); }
    }
  }

  lemma BeforeMore(done: seq<string>, x: string, ks: seq<string>)
    requires Before(done, ks) && Before([x], ks)
    ensures Before(done + [x], ks)
  {
    forall a, y | a in done + [x] && y in ks ensures StringLess(a, y) {
      if a !in done { assert a in [x]; }
    }
  }

  lemma BeforeTail(done: seq<string>, ks: seq<string>)
    requires Before(done, ks) && ks != []
    ensures Before(done, ks[1..]) && Before(done, [ks[0]])
  {
    forall a, y | a in done && y in ks[1..] ensures StringLess(a, y) { assert y in ks; }
    forall a, y | a in done && y in [ks[0]] ensures StringLess(a, y) { assert y in ks; }
  }

  lemma NotInBefore(x: string, ls: seq<string>)
    requires Before([x], ls)
    ensures x !in ls
  {
    if x in ls {
      assert x in [x];
      NotBelowItself(x);
    }
  }

  /** The first name of the first list comes before the second list. */
  lemma TakeLeft(prev: Elements, cur: Elements, done: seq<string>, ks: seq<string>, ls: seq<string>)
    requires Merging(prev, cur, done, ks, ls) && ks != [] && (ls != [] ==> StringLess(ks[0], ls[0]))
    ensures Merging(prev, cur, done + [ks[0]], ks[1..], ls) && Before(done, [ks[0]]) && ks[0] in prev && ks[0] !in cur
  {
    var x := ks[0];
    TailAfter(ks);
    FirstIsLeast(x, ls);
    BeforeTail(done, ks);
    BeforeMore(done, x, ks[1..]);
    BeforeMore(done, x, ls);
    NotInBefore(x, ls);
    assert ks == [x] + ks[1..];
    if x in done { assert x in [x]; NotBelowItself(x); }
  }

  lemma TakeRight(prev: Elements, cur: Elements, done: seq<string>, ks: seq<string>, ls: seq<string>)
    requires Merging(prev, cur, done, ks, ls) && ls != [] && (ks != [] ==> StringLess(ls[0], ks[0]))
    ensures Merging(prev, cur, done + [ls[0]], ks, ls[1..]) && Before(done, [ls[0]]) && ls[0] in cur && ls[0] !in prev
  {
    TakeLeft(cur, prev, done, ls, ks);
  }

  lemma TakeBoth(prev: Elements, cur: Elements, done: seq<string>, ks: seq<string>, ls: seq<string>)
    requires Merging(prev, cur, done, ks, ls) && ks != [] && ls != [] && ks[0] == ls[0]
    ensures Merging(prev, cur, done + [ks[0]], ks[1..], ls[1..]) && Before(done, [ks[0]]) && ks[0] in prev
      && ks[0] in cur
  {
    var x := ks[0];
    TailAfter(ks);
    TailAfter(ls);
    BeforeTail(done, ks);
    BeforeTail(done, ls);
    BeforeMore(done, x, ks[1..]);
    BeforeMore(done, x, ls[1..]);
    assert ks == [x] + ks[1..] && ls == [x] + ls[1..];
  }

  /** Lists exactly the elements that are new, gone or changed, in the order of their names; there are no changes
      exactly if nothing is listed. */
  method PrintDiff(versions: Element -> string, prev: Elements, cur: Elements) returns (lines: seq<Line>, changes: bool)
    ensures Increasing(NamesOf(lines)) && (changes <==> lines != [])
    ensures forall x :: x in NamesOf(lines) <==> Differs(versions, prev, cur, x)
    ensures forall l :: l in lines ==> l == Line(l.name, Lookup(prev, l.name), Lookup(cur, l.name))
  {
    var ks := Selectors.SortedKeys(prev.Keys);
    var ls := Selectors.SortedKeys(cur.Keys);
    ghost var done: seq<string> := [];
    lines, changes := [], false;
    while ks != [] || ls != []
      invariant Merging(prev, cur, done, ks, ls) && Tells(versions, prev, cur, done, lines)
          && (changes <==> lines != [])
      decreases |ks| + |ls|
    {
      ghost var lines0 := lines;
      if ls != [] && (ks == [] || StringLess(ls[0], ks[0])) {
        TakeRight(prev, cur, done, ks, ls);
        lines, changes := lines + [Line(ls[0], None, Some(cur[ls[0]]))], true;
        TellMore(versions, prev, cur, done, lines0, ls[0], lines);
        done, ls := done + [ls[0]], ls[1..];
      } else if ks != [] && (ls == [] || StringLess(ks[0], ls[0])) {
        TakeLeft(prev, cur, done, ks, ls);
        lines, changes := lines + [Line(ks[0], Some(prev[ks[0]]), None)], true;
        TellMore(versions, prev, cur, done, lines0, ks[0], lines);
        done, ks := done + [ks[0]], ks[1..];
      } else {
        StringLessStrict(ks[0], ls[0]);
        TakeBoth(prev, cur, done, ks, ls);
        if versions(prev[ks[0]]) != versions(cur[ls[0]]) {
          lines, changes := lines + [Line(ks[0], Some(prev[ks[0]]), Some(cur[ls[0]]))], true;
        }
        TellMore(versions, prev, cur, done, lines0, ks[0], lines);
        done, ks, ls := done + [ks[0]], ks[1..], ls[1..];
      }
    }
  }
}
