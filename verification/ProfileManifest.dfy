/** The manifest of a profile (`bsd profile`): named elements, and the JSON document they are kept in. */
module ProfileManifest {
  import opened Basics
  import LockNames
  import Selectors

  datatype StorePath = StorePath(base: string)

  datatype FlakeRef = FlakeRef(spec: string)

  /** `outputs` is None for the default outputs. */
  datatype Source = Source(originalRef: FlakeRef, lockedRef: FlakeRef, attrPath: string, outputs: Option<string>)

  datatype Element = Element(storePaths: set<StorePath>, source: Option<Source>, active: bool, priority: int)

  const DEFAULT_PRIORITY := 5

  /** The version that is written; versions 1 to 3 are read. */
  const VERSION := 3

  /** How store paths and flake references are printed and parsed. */
  datatype Codec = Codec(
    printPath: StorePath -> string, parsePath: string -> StorePath,
    printRef: FlakeRef -> string, parseRef: string -> FlakeRef)

  ghost predicate Inverse(k: Codec) {
    (forall p :: k.parsePath(k.printPath(p)) == p) && forall r :: k.parseRef(k.printRef(r)) == r
  }

  /** One element of the document; a missing key is None. Version 1 has its own names for the two URLs. The value of
      `outputs` may be null, which is None within Some. */
  datatype JsonElement = JsonElement(
    storePaths: seq<string>, active: Option<bool>, priority: Option<int>,
    originalUri: Option<string>, uri: Option<string>, originalUrl: Option<string>, url: Option<string>,
    attrPath: Option<string>, outputs: Option<Option<string>>)

  datatype Members = NoElements | ObjectOf(members: map<string, JsonElement>) | ArrayOf(items: seq<JsonElement>)

  datatype Document = Document(version: int, elements: Members)

  // ----- Adding an element under a fresh name -----

  function Candidate(name: string, i: nat): string {
    if i == 0 then name else name + "-" + LockNames.Decimal(i)
  }

  lemma CandidatesDiffer(name: string, i: nat, j: nat)
    requires i != j
    ensures Candidate(name, i) != Candidate(name, j)
  {
    var a, b := Candidate(name, i), Candidate(name, j);
    if i > 0 { assert a[|name| + 1..] == LockNames.Decimal(i); }
    if j > 0 { assert b[|name| + 1..] == LockNames.Decimal(j); }
  }

  function Candidates(name: string, i: nat): set<string> {
    if i == 0 then {} else Candidates(name, i - 1) + {Candidate(name, i - 1)}
  }

  lemma {:induction false} NotAmong(name: string, i: nat, j: nat)
    requires i <= j
    ensures Candidate(name, j) !in Candidates(name, i)
    decreases i
  {
    if i > 0 {
      NotAmong(name, i - 1, j);
      CandidatesDiffer(name, i - 1, j);
    }
  }

  lemma {:induction false} CandidatesSize(name: string, i: nat)
    ensures |Candidates(name, i)| == i
  {
    if i > 0 {
      CandidatesSize(name, i - 1);
      NotAmong(name, i - 1, i - 1);
    }
  }

  /** The first candidate that is not in use. */
  ghost predicate IsFresh(keys: set<string>, name: string, finalName: string) {
    exists i: nat :: finalName == Candidate(name, i) && finalName !in keys && Candidates(name, i) <= keys
  }

  /** There are more candidates than names in use, so one of them is free. */
  method FreshName(keys: set<string>, name: string) returns (finalName: string)
    ensures IsFresh(keys, name, finalName)
  {
    finalName := name;
    var i := 0;
    while finalName in keys
      invariant finalName == Candidate(name, i) && Candidates(name, i) <= keys
      decreases |keys| - i
    {
      CandidatesSize(name, i + 1);
      SubsetSize(Candidates(name, i + 1), keys);
      i := i + 1;
      finalName := name + "-" + LockNames.Decimal(i);
    }
  }

  // ----- Printing and loading -----

  function PrintPaths(k: Codec, paths: seq<StorePath>): seq<string> {
    seq(|paths|, i requires 0 <= i < |paths| => k.printPath(paths[i]))
  }

  function ParsePaths(k: Codec, texts: seq<string>): set<StorePath> {
    set t | t in texts :: k.parsePath(t)
  }

  /** j is what the element is written as; the paths of a set come in some order. */
  ghost predicate PrintedAs(k: Codec, e: Element, j: JsonElement) {
    && (exists paths: seq<StorePath> ::
          (forall p :: p in paths <==> p in e.storePaths) && j.storePaths == PrintPaths(k, paths))
    && j.active == Some(e.active) && j.priority == Some(e.priority) && j.originalUri.None? && j.uri.None?
    && match e.source
       case None => j.originalUrl.None? && j.url.None? && j.attrPath.None? && j.outputs.None?
       case Some(s) => j.originalUrl == Some(k.printRef(s.originalRef)) && j.url == Some(k.printRef(s.lockedRef))
                       && j.attrPath == Some(s.attrPath) && j.outputs == Some(s.outputs)
  }

  function UrlOf(version: int, j: JsonElement): Option<string> {
    if version == 1 then j.uri else j.url
  }

  function OriginalUrlOf(version: int, j: JsonElement): Option<string> {
    if version == 1 then j.originalUri else j.originalUrl
  }

  /** The locked URL is there and is not empty. */
  predicate HasUrl(version: int, j: JsonElement) {
    UrlOf(version, j).Some? && UrlOf(version, j).value != ""
  }

  /** A missing key is an error, apart from the priority and the outputs, and from the keys of a source if there is no
      locked URL. */
  predicate Loadable(version: int, j: JsonElement) {
    j.active.Some? && (HasUrl(version, j) ==> OriginalUrlOf(version, j).Some? && j.attrPath.Some?)
  }

  /** Null, and so a missing key, stands for the default outputs. */
  function OutputsOf(j: JsonElement): Option<string> {
    if j.outputs.Some? then j.outputs.value else None
  }

  function LoadElement(k: Codec, version: int, j: JsonElement): Element
    requires Loadable(version, j)
  {
    Element(ParsePaths(k, j.storePaths),
            if HasUrl(version, j)
            then Some(Source(k.parseRef(OriginalUrlOf(version, j).value), k.parseRef(UrlOf(version, j).value),
                             j.attrPath.value, OutputsOf(j)))
            else None,
            j.active.value,
            if j.priority.Some? then j.priority.value else DEFAULT_PRIORITY)
  }

  predicate Recorded(k: Codec, e: Element) {
    e.source.Some? ==> k.printRef(e.source.value.lockedRef) != ""
  }

  lemma PathsRoundTrip(k: Codec, e: Element, j: JsonElement)
    requires Inverse(k) && PrintedAs(k, e, j)
    ensures ParsePaths(k, j.storePaths) == e.storePaths
  {
    var paths: seq<StorePath> :|
      (forall p :: p in paths <==> p in e.storePaths) && j.storePaths == PrintPaths(k, paths);
    forall p ensures p in ParsePaths(k, j.storePaths) <==> p in e.storePaths {
      if p in e.storePaths {
        var i :| 0 <= i < |paths| && paths[i] == p;
        assert j.storePaths[i] == k.printPath(p);
        assert k.printPath(p) in j.storePaths;
      }
      if t :| t in j.storePaths && k.parsePath(t) == p {
        var i :| 0 <= i < |paths| && j.storePaths[i] == t;
        assert t == k.printPath(paths[i]) && paths[i] in paths;
      }
    }
  }

  /** An element comes back exactly if its source, if it has one, is not locked to an empty URL. */
  lemma ElementRoundTripIff(k: Codec, e: Element, j: JsonElement)
    requires Inverse(k) && PrintedAs(k, e, j)
    ensures Loadable(VERSION, j) && (LoadElement(k, VERSION, j) == e <==> Recorded(k, e))
  {
    PathsRoundTrip(k, e, j);
  }

  method PrintElement(k: Codec, e: Element) returns (j: JsonElement)
    ensures PrintedAs(k, e, j)
  {
    var todo := e.storePaths;
    var texts: seq<string> := [];
    ghost var paths: seq<StorePath> := [];
    while todo != {}
      invariant todo <= e.storePaths && texts == PrintPaths(k, paths)
      invariant forall p :: p in paths <==> p in e.storePaths - todo
      decreases todo
    {
      var p :| p in todo;
      texts := texts + [k.printPath(p)];
      paths := paths + [p];
      todo := todo - {p};
    }
    if e.source.Some? {
      var s := e.source.value;
      j := JsonElement(texts, Some(e.active), Some(e.priority), None, None,
                       Some(k.printRef(s.originalRef)), Some(k.printRef(s.lockedRef)), Some(s.attrPath),
                       Some(s.outputs));
    } else {
      j := JsonElement(texts, Some(e.active), Some(e.priority), None, None, None, None, None, None);
    }
  }

  // ----- The manifest itself -----

  class Manifest {
    var elements: map<string, Element>

    constructor ()
      ensures elements == map[]
    {
      elements := map[];
    }

    /** Never overwrites: exactly one element is added, under a name that was not in use. */
    method AddElement(name: string, e: Element) returns (finalName: string)
      modifies this
      ensures IsFresh(old(elements).Keys, name, finalName)
      ensures elements == old(elements)[finalName := e]
    {
      finalName := FreshName(elements.Keys, name);
      elements := elements[finalName := e];
    }

    method ToJson(k: Codec) returns (doc: Document)
      ensures WrittenAs(k, elements, doc)
    {
      var members: map<string, JsonElement> := map[];
      var todo := elements.Keys;
      while todo != {}
        invariant todo <= elements.Keys && members.Keys == elements.Keys - todo
        invariant forall x :: x in members ==> PrintedAs(k, elements[x], members[x])
        decreases todo
      {
        var name :| name in todo;
        var j := PrintElement(k, elements[name]);
        members := members[name := j];
        todo := todo - {name};
      }
      doc := Document(VERSION, ObjectOf(members));
    }

    /** Loads a document. Fails exactly if the version is unknown or some element lacks a key that it needs. */
    method Load(k: Codec, doc: Document, nameOf: Element -> string) returns (ok: bool)
      requires elements == map[]
      modifies this
      ensures ok <==> 1 <= doc.version <= 3 && AllLoadable(doc)
      ensures ok && doc.elements.NoElements? ==> elements == map[]
      ensures ok && doc.elements.ObjectOf? ==> elements == LoadAll(k, doc.version, doc.elements.members)
      ensures ok && doc.elements.ArrayOf? ==>
        NamedInOrder(nameOf, LoadItems(k, doc.version, doc.elements.items), elements)
    {
      if doc.version < 1 || doc.version > 3 { return false; }
      match doc.elements {
        case NoElements => ok := true;
        case ObjectOf(members) => ok := LoadObject(k, doc.version, members);
        case ArrayOf(items) => ok := LoadArray(k, doc.version, items, nameOf);
      }
    }

    /** Elements kept in an object keep their names. */
    method LoadObject(k: Codec, version: int, members: map<string, JsonElement>) returns (ok: bool)
      requires elements == map[]
      modifies this
      ensures ok <==> forall x :: x in members ==> Loadable(version, members[x])
      ensures ok ==> elements == LoadAll(k, version, members)
    {
      var names := Selectors.SortedKeys(members.Keys);
      for n := 0 to |names|
        invariant LoadedFrom(k, version, members, NameSet(names[..n]), elements)
      {
        if !Loadable(version, members[names[n]]) { return false; }
        NextName(names, n);
        var e := LoadElement(k, version, members[names[n]]);
        ghost var before := elements;
        AddUnder(names[n], e);
        LoadedMore(k, version, members, NameSet(names[..n]), before, names[n], e);
      }
      assert names[..|names|] == names;
      ok := true;
    }

    method AddUnder(name: string, e: Element)
      requires name !in elements
      modifies this
      ensures elements == old(elements)[name := e]
    {
      ghost var before := elements;
      var finalName := AddElement(name, e);
      FreshIsItself(before.Keys, name, finalName);
    }

    /** For elements kept in an array names are derived by `nameOf` and made distinct; no element is lost. */
    method LoadArray(k: Codec, version: int, items: seq<JsonElement>, nameOf: Element -> string) returns (ok: bool)
      requires elements == map[]
      modifies this
      ensures ok <==> forall i :: 0 <= i < |items| ==> Loadable(version, items[i])
      ensures ok ==> NamedInOrder(nameOf, LoadItems(k, version, items), elements)
    {
      ghost var es: seq<Element> := [];
      NamedNone(nameOf, elements);
      for n := 0 to |items|
        invariant LoadedAs(k, version, items[..n], es)
        invariant NamedInOrder(nameOf, es, elements)
      {
        if !Loadable(version, items[n]) { return false; }
        var e := LoadElement(k, version, items[n]);
        AddNamed(nameOf, e, es);
        LoadedOneMore(k, version, items, n, es, e);
        es := es + [e];
      }
      ok := true;
      assert items[..|items|] == items;
    }

    method AddNamed(nameOf: Element -> string, e: Element, ghost es: seq<Element>)
      requires NamedInOrder(nameOf, es, elements)
      modifies this
      ensures NamedInOrder(nameOf, es + [e], elements)
    {
      ghost var before := elements;
      ghost var names :| NamedAs(nameOf, es, names, elements);
      var finalName := AddElement(nameOf(e), e);
      NamedOneMore(nameOf, es, names, before, e, finalName, elements);
    }
  }

  function LoadItems(k: Codec, version: int, items: seq<JsonElement>): seq<Element>
    requires forall i :: 0 <= i < |items| ==> Loadable(version, items[i])
  {
    seq(|items|, i requires 0 <= i < |items| => LoadElement(k, version, items[i]))
  }

  /** The elements are the members with the given names. */
  ghost predicate LoadedFrom(k: Codec, version: int, members: map<string, JsonElement>, keys: set<string>,
                             elements: map<string, Element>)
  {
    keys <= members.Keys && elements.Keys == keys
    && forall x :: x in keys ==> Loadable(version, members[x]) && elements[x] == LoadElement(k, version, members[x])
  }

  lemma LoadedMore(k: Codec, version: int, members: map<string, JsonElement>, keys: set<string>,
                   elements: map<string, Element>, name: string, e: Element)
    requires LoadedFrom(k, version, members, keys, elements) && name in members
    requires Loadable(version, members[name]) && e == LoadElement(k, version, members[name])
    ensures LoadedFrom(k, version, members, keys + {name}, elements[name := e])
  {
  }

  lemma NextName(names: seq<string>, n: nat)
    requires Increasing(names) && n < |names|
    ensures names[n] !in NameSet(names[..n]) && NameSet(names[..n + 1]) == NameSet(names[..n]) + {names[n]}
  {
    assert names[..n + 1] == names[..n] + [names[n]];
    NameSetGrows(names[..n], names[n]);
    forall i | 0 <= i < n ensures names[i] != names[n] { StringLessStrict(names[i], names[n]); }
  }

  ghost predicate LoadedAs(k: Codec, version: int, items: seq<JsonElement>, es: seq<Element>) {
    (forall i :: 0 <= i < |items| ==> Loadable(version, items[i])) && es == LoadItems(k, version, items)
  }

  lemma LoadedOneMore(k: Codec, version: int, items: seq<JsonElement>, n: nat, es: seq<Element>, e: Element)
    requires n < |items| && LoadedAs(k, version, items[..n], es) && Loadable(version, items[n])
      && e == LoadElement(k, version, items[n])
    ensures LoadedAs(k, version, items[..n + 1], es + [e])
  {
    assert items[..n + 1] == items[..n] + [items[n]];
  }

  function NameSet(names: seq<string>): set<string> {
    set x | x in names
  }

  /** The i-th element is kept under names[i], the first of its candidates that was not in use by those before it. */
  ghost predicate NamedAs(nameOf: Element -> string, es: seq<Element>, names: seq<string>,
                          elements: map<string, Element>)
  {
    && |names| == |es| == |elements| && elements.Keys == NameSet(names)
    && forall i: nat :: i < |es| ==> KeptUnder(es[i], nameOf(es[i]), NameSet(names[..i]), names[i], elements)
  }

  ghost predicate KeptUnder(e: Element, wanted: string, used: set<string>, name: string,
                            elements: map<string, Element>)
  {
    name in elements && elements[name] == e && IsFresh(used, wanted, name)
  }

  ghost predicate NamedInOrder(nameOf: Element -> string, es: seq<Element>, elements: map<string, Element>) {
    exists names :: NamedAs(nameOf, es, names, elements)
  }

  lemma NamedNone(nameOf: Element -> string, elements: map<string, Element>)
    requires elements == map[]
    ensures NamedInOrder(nameOf, [], elements)
  {
    assert NamedAs(nameOf, [], [], elements);
  }

  lemma NameSetGrows(names: seq<string>, name: string)
    ensures NameSet(names + [name]) == NameSet(names) + {name}
  {
    assert forall x :: x in names + [name] <==> x in names || x == name;
  }

  lemma StillKept(x: Element, wanted: string, used: set<string>, under: string, elements: map<string, Element>,
                  name: string, e: Element, elements': map<string, Element>)
    requires KeptUnder(x, wanted, used, under, elements) && name !in elements && elements' == elements[name := e]
    ensures KeptUnder(x, wanted, used, under, elements')
  {
  }

  lemma EachKept(nameOf: Element -> string, es: seq<Element>, names: seq<string>, elements: map<string, Element>,
                 e: Element, name: string, elements': map<string, Element>, i: nat)
    requires NamedAs(nameOf, es, names, elements) && IsFresh(elements.Keys, nameOf(e), name)
    requires elements' == elements[name := e] && i <= |es|
    ensures KeptUnder((es + [e])[i], nameOf((es + [e])[i]), NameSet((names + [name])[..i]), (names + [name])[i],
                      elements')
  {
    if i < |es| {
      assert (names + [name])[..i] == names[..i];
      StillKept(es[i], nameOf(es[i]), NameSet(names[..i]), names[i], elements, name, e, elements');
    } else {
      assert (names + [name])[..i] == names;
    }
  }

  lemma NamedOneMore(nameOf: Element -> string, es: seq<Element>, names: seq<string>, elements: map<string, Element>,
                     e: Element, name: string, elements': map<string, Element>)
    requires NamedAs(nameOf, es, names, elements) && IsFresh(elements.Keys, nameOf(e), name)
      && elements' == elements[name := e]
    ensures NamedAs(nameOf, es + [e], names + [name], elements')
  {
    NameSetGrows(names, name);
    assert elements'.Keys == elements.Keys + {name} && name !in elements;
    forall i: nat | i < |es + [e]|
      ensures KeptUnder((es + [e])[i], nameOf((es + [e])[i]), NameSet((names + [name])[..i]), (names + [name])[i],
                        elements')
    {
      EachKept(nameOf, es, names, elements, e, name, elements', i);
    }
  }

  lemma FreshIsItself(keys: set<string>, name: string, finalName: string)
    requires IsFresh(keys, name, finalName) && name !in keys
    ensures finalName == name
  {
    var i: nat :| finalName == Candidate(name, i) && finalName !in keys && Candidates(name, i) <= keys;
    if i > 0 { EarlierAmong(name, 0, i); }
  }

  /** A document written for a manifest: every element under its name. */
  ghost predicate WrittenAs(k: Codec, elements: map<string, Element>, doc: Document) {
    && doc.version == VERSION && doc.elements.ObjectOf? && doc.elements.members.Keys == elements.Keys
    && forall x :: x in elements ==> PrintedAs(k, elements[x], doc.elements.members[x])
  }

  predicate AllLoadable(doc: Document) {
    match doc.elements
    case NoElements => true
    case ObjectOf(members) => forall x :: x in members ==> Loadable(doc.version, members[x])
    case ArrayOf(items) => forall i :: 0 <= i < |items| ==> Loadable(doc.version, items[i])
  }

  function LoadAll(k: Codec, version: int, members: map<string, JsonElement>): map<string, Element>
    requires forall x :: x in members ==> Loadable(version, members[x])
  {
    map x | x in members :: LoadElement(k, version, members[x])
  }

  /** A manifest that was written can be loaded, and gives the same manifest exactly if no source is locked to an
      empty URL. */
  lemma ManifestRoundTripIff(k: Codec, elements: map<string, Element>, doc: Document)
    requires Inverse(k) && WrittenAs(k, elements, doc)
    ensures AllLoadable(doc)
    ensures LoadAll(k, VERSION, doc.elements.members) == elements
            <==> forall x :: x in elements ==> Recorded(k, elements[x])
  {
    var members := doc.elements.members;
    forall x | x in elements
      ensures Loadable(VERSION, members[x])
      ensures LoadElement(k, VERSION, members[x]) == elements[x] <==> Recorded(k, elements[x])
    {
      ElementRoundTripIff(k, elements[x], members[x]);
    }
    var loaded := LoadAll(k, VERSION, members);
    if loaded == elements {
      forall x | x in elements ensures Recorded(k, elements[x]) { assert loaded[x] == elements[x]; }
    }
  }

  /** A candidate is chosen in one way only. */
  lemma FreshIsUnique(keys: set<string>, name: string, a: string, b: string)
    requires IsFresh(keys, name, a) && IsFresh(keys, name, b)
    ensures a == b
  {
    var i: nat :| a == Candidate(name, i) && a !in keys && Candidates(name, i) <= keys;
    var j: nat :| b == Candidate(name, j) && b !in keys && Candidates(name, j) <= keys;
    if i < j { EarlierAmong(name, i, j); } else if j < i { EarlierAmong(name, j, i); }
  }

  lemma {:induction false} EarlierAmong(name: string, i: nat, j: nat)
    requires i < j
    ensures Candidate(name, i) in Candidates(name, j)
    decreases j
  {
    assert Candidates(name, j) == Candidates(name, j - 1) + {Candidate(name, j - 1)};
    if i < j - 1 { EarlierAmong(name, i, j - 1); }
  }
}
