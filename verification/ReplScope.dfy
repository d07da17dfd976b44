/** The scope of the interactive evaluator: an append-only array of values, and a sorted index from names to
    positions in it. */
module ReplScope {
  import opened Basics

  /** An interned name, by its number in the symbol table, which is what names are ordered by. */
  type Symbol = nat

  datatype Entry = Entry(name: Symbol, displ: nat)

  const ENV_SIZE := 32768

  // ----- The index -----

  /** The positions recorded for a name, in the order of the index. */
  function PositionsOf(vars: seq<Entry>, x: Symbol): seq<nat> {
    if vars == [] then []
    else
      var rest, e := PositionsOf(vars[..|vars| - 1], x), vars[|vars| - 1];
      if e.name == x then rest + [e.displ] else rest
  }

  predicate Sorted(vars: seq<Entry>) {
    forall i, j :: 0 <= i < j < |vars| ==> vars[i].name <= vars[j].name
  }

  predicate Unique(vars: seq<Entry>) {
    forall i, j :: 0 <= i < j < |vars| ==> vars[i].name < vars[j].name
  }

  lemma {:induction false} PositionsConcat(a: seq<Entry>, b: seq<Entry>, x: Symbol)
    ensures PositionsOf(a + b, x) == PositionsOf(a, x) + PositionsOf(b, x)
  {
    if b == [] {
      assert a + b == a;
    } else {
      assert (a + b)[..|a + b| - 1] == a + b[..|b| - 1];
      PositionsConcat(a, b[..|b| - 1], x);
    }
  }

  lemma {:induction false} PositionsNone(vars: seq<Entry>, x: Symbol)
    requires forall e :: e in vars ==> e.name != x
    ensures PositionsOf(vars, x) == []
  {
    if vars != [] { PositionsNone(vars[..|vars| - 1], x); }
  }

  /** Position of the first entry whose name is greater than x. */
  method UpperBound(vars: seq<Entry>, x: Symbol) returns (k: nat)
    requires Sorted(vars)
    ensures k <= |vars|
    ensures forall i :: 0 <= i < k ==> vars[i].name <= x
    ensures forall i :: k <= i < |vars| ==> vars[i].name > x
  {
    k := |vars|;
    while k > 0 && vars[k - 1].name > x
      invariant 0 <= k <= |vars|
      invariant forall i :: k <= i < |vars| ==> vars[i].name > x
    {
      k := k - 1;
    }
  }

  lemma InsertPositions(a: seq<Entry>, b: seq<Entry>, e: Entry, x: Symbol)
    requires forall y :: y in b ==> y.name > e.name
    ensures PositionsOf(a + [e] + b, x) == PositionsOf(a + b + [e], x)
  {
    PositionsConcat(a + [e], b, x);
    PositionsConcat(a, [e], x);
    PositionsConcat(a + b, [e], x);
    PositionsConcat(a, b, x);
    assert PositionsOf([e], x) == if e.name == x then [e.displ] else [];
    if e.name == x { PositionsNone(b, x); }
  }

  lemma InsertSorted(vars: seq<Entry>, k: nat, e: Entry)
    requires Sorted(vars) && k <= |vars|
    requires forall i :: 0 <= i < k ==> vars[i].name <= e.name
    requires forall i :: k <= i < |vars| ==> vars[i].name > e.name
    ensures Sorted(vars[..k] + [e] + vars[k..])
  {
    var r := vars[..k] + [e] + vars[k..];
    forall i | 0 <= i < |r| ensures r[i] == if i < k then vars[i] else if i == k then e else vars[i - 1] {}
  }

  lemma InsertKeeps(vars: seq<Entry>, k: nat, e: Entry)
    requires Sorted(vars) && k <= |vars|
    requires forall i :: 0 <= i < k ==> vars[i].name <= e.name
    requires forall i :: k <= i < |vars| ==> vars[i].name > e.name
    ensures Sorted(vars[..k] + [e] + vars[k..])
    ensures forall x :: PositionsOf(vars[..k] + [e] + vars[k..], x) == PositionsOf(vars + [e], x)
  {
    InsertSorted(vars, k, e);
    assert vars[..k] + vars[k..] == vars;
    forall x ensures PositionsOf(vars[..k] + [e] + vars[k..], x) == PositionsOf(vars + [e], x) {
      InsertPositions(vars[..k], vars[k..], e, x);
    }
  }

  /** A stable sort: sorted by name, and the entries of every name in the order they had before. */
  method StableSort(vars: seq<Entry>) returns (r: seq<Entry>)
    ensures Sorted(r) && forall x :: PositionsOf(r, x) == PositionsOf(vars, x)
  {
    r := [];
    for n := 0 to |vars|
      invariant Sorted(r) && forall x :: PositionsOf(r, x) == PositionsOf(vars[..n], x)
    {
      var k := UpperBound(r, vars[n].name);
      InsertKeeps(r, k, vars[n]);
      forall x ensures PositionsOf(r + [vars[n]], x) == PositionsOf(vars[..n + 1], x) {
        assert vars[..n + 1] == vars[..n] + [vars[n]];
        PositionsConcat(r, [vars[n]], x);
        PositionsConcat(vars[..n], [vars[n]], x);
      }
      r := r[..k] + [vars[n]] + r[k..];
    }
    assert vars[..|vars|] == vars;
  }

  function LastOf(ps: seq<nat>): seq<nat> {
    if ps == [] then [] else [ps[|ps| - 1]]
  }

  /** Keeps the last entry of every run of equal names. */
  method Deduplicate(vars: seq<Entry>) returns (r: seq<Entry>)
    requires Sorted(vars)
    ensures Unique(r) && forall x :: PositionsOf(r, x) == LastOf(PositionsOf(vars, x))
  {
    r := [];
    var j := 0;
    while j < |vars|
      invariant 0 <= j <= |vars|
      invariant Unique(r)
      invariant forall x :: PositionsOf(r, x) == LastOf(PositionsOf(vars[..j], x))
      invariant forall e, i :: e in r && j <= i < |vars| ==> e.name < vars[i].name
    {
      var e := vars[j];
      j := j + 1;
      ghost var start := j - 1;
      while j < |vars| && e.name == vars[j].name
        invariant start < j <= |vars|
        invariant e == vars[j - 1] && forall i :: start <= i < j ==> vars[i].name == e.name
      {
        e := vars[j];
        j := j + 1;
      }
      RunKeepsLast(vars, start, j, r);
      r := r + [e];
    }
    assert vars[..|vars|] == vars;
  }

  lemma RunKeepsLast(vars: seq<Entry>, start: nat, j: nat, r: seq<Entry>)
    requires start < j <= |vars| && forall i :: start <= i < j ==> vars[i].name == vars[start].name
    requires forall x :: PositionsOf(r, x) == LastOf(PositionsOf(vars[..start], x))
    requires forall e :: e in r ==> e.name < vars[start].name
    ensures forall x :: PositionsOf(r + [vars[j - 1]], x) == LastOf(PositionsOf(vars[..j], x))
  {
    var e := vars[j - 1];
    forall x ensures PositionsOf(r + [e], x) == LastOf(PositionsOf(vars[..j], x)) {
      PositionsConcat(r, [e], x);
      assert PositionsOf([e], x) == if e.name == x then [e.displ] else [];
      if x == e.name {
        PositionsNone(r, x);
        assert vars[..j][..j - 1] == vars[..j - 1];
      } else {
        assert vars[..j] == vars[..start] + vars[start..j];
        PositionsConcat(vars[..start], vars[start..j], x);
        PositionsNone(vars[start..j], x);
      }
    }
  }

  /** Binary search for a name. */
  method Find(vars: seq<Entry>, x: Symbol) returns (r: Option<nat>)
    requires Unique(vars)
    ensures r.None? ==> forall e :: e in vars ==> e.name != x
    ensures r.Some? ==> r.value < |vars| && vars[r.value].name == x
  {
    var lo, hi := 0, |vars|;
    while lo < hi
      invariant 0 <= lo <= hi <= |vars|
      invariant forall i :: 0 <= i < lo ==> vars[i].name < x
      invariant forall i :: hi <= i < |vars| ==> vars[i].name >= x
    {
      var mid := (lo + hi) / 2;
      if vars[mid].name < x { lo := mid + 1; } else { hi := mid; }
    }
    r := if lo < |vars| && vars[lo].name == x then Some(lo) else None;
  }

  // ----- The scope as a value, and what it means -----

  /** The values stored so far, and the index. */
  datatype Scope<V> = Scope(values: seq<V>, vars: seq<Entry>)

  datatype Binding<V> = Binding(name: Symbol, value: V)

  datatype Command<V> = Init | AddVar(name: Symbol, value: V) | AddAttrs(attrs: seq<Binding<V>>)

  /** What a name denotes: the value at the position the index gives. */
  function Denotes<V>(s: Scope<V>, x: Symbol): Option<V> {
    var ps := PositionsOf(s.vars, x);
    if ps == [] || ps[|ps| - 1] >= |s.values| then None else Some(s.values[ps[|ps| - 1]])
  }

  /** Whether a command is refused because the environment is full. */
  predicate Refused<V>(size: nat, c: Command<V>) {
    match c
    case Init => false
    case AddVar(_, _) => size >= ENV_SIZE
    case AddAttrs(attrs) => size + |attrs| >= ENV_SIZE
  }

  /** The simple form: the last binding of a name wins. */
  function BindAll<V>(m: map<Symbol, V>, attrs: seq<Binding<V>>): map<Symbol, V> {
    if attrs == [] then m
    else BindAll(m, attrs[..|attrs| - 1])[attrs[|attrs| - 1].name := attrs[|attrs| - 1].value]
  }

  datatype Simple<V> = Simple(size: nat, bound: map<Symbol, V>)

  function SimpleStep<V>(m: Simple<V>, c: Command<V>): Simple<V> {
    if Refused(m.size, c) then m
    else match c
      case Init => Simple(0, map[])
      case AddVar(x, v) => Simple(m.size + 1, m.bound[x := v])
      case AddAttrs(attrs) => Simple(m.size + |attrs|, BindAll(m.bound, attrs))
  }

  function RunSimple<V>(m: Simple<V>, commands: seq<Command<V>>): Simple<V> {
    if commands == [] then m
    else SimpleStep(RunSimple(m, commands[..|commands| - 1]), commands[|commands| - 1])
  }

  /** Every name denotes what the map says. */
  ghost predicate Agrees<V>(s: Scope<V>, bound: map<Symbol, V>) {
    (forall e :: e in s.vars ==> e.displ < |s.values|)
    && forall x :: Denotes(s, x) == if x in bound then Some(bound[x]) else None
  }

  /** The scope stands for the map: as many slots are used, and every name denotes what the map says. */
  ghost predicate StandsFor<V>(s: Scope<V>, m: Simple<V>) {
    |s.values| <= ENV_SIZE && Unique(s.vars) && |s.values| == m.size && Agrees(s, m.bound)
  }

  // ----- Lemmas about changes of the index -----

  lemma {:induction false} PositionsMember(vars: seq<Entry>, e: Entry)
    ensures e in vars <==> e.displ in PositionsOf(vars, e.name)
  {
    if vars != [] {
      PositionsMember(vars[..|vars| - 1], e);
      assert vars == vars[..|vars| - 1] + [vars[|vars| - 1]];
    }
  }

  lemma {:induction false} TwoPositions(vars: seq<Entry>, i: nat, j: nat)
    requires i < j < |vars| && vars[i].name == vars[j].name
    ensures |PositionsOf(vars, vars[i].name)| >= 2
  {
    var x := vars[i].name;
    assert vars == vars[..j] + vars[j..];
    PositionsConcat(vars[..j], vars[j..], x);
    assert vars[..j][i] == vars[i] && vars[j..][0] == vars[j];
    assert vars[i] in vars[..j] && vars[j] in vars[j..];
    PositionsMember(vars[..j], vars[i]);
    PositionsMember(vars[j..], vars[j]);
  }

  lemma SortedIsUnique(vars: seq<Entry>)
    requires Sorted(vars) && forall x :: |PositionsOf(vars, x)| <= 1
    ensures Unique(vars)
  {
    forall i, j | 0 <= i < j < |vars| ensures vars[i].name < vars[j].name {
      if vars[i].name == vars[j].name { TwoPositions(vars, i, j); }
    }
  }

  lemma {:induction false} UniqueHasOne(vars: seq<Entry>, x: Symbol)
    requires Unique(vars)
    ensures |PositionsOf(vars, x)| <= 1
  {
    if vars != [] {
      var front := vars[..|vars| - 1];
      UniqueHasOne(front, x);
      if vars[|vars| - 1].name == x { PositionsNone(front, x); }
    }
  }

  lemma WithoutEntry(vars: seq<Entry>, k: nat, x: Symbol)
    requires Unique(vars) && k < |vars|
    ensures PositionsOf(vars[..k] + vars[k + 1..], x) == if x == vars[k].name then [] else PositionsOf(vars, x)
  {
    var a, b := vars[..k], vars[k + 1..];
    assert vars == a + [vars[k]] + b;
    PositionsConcat(a, b, x);
    PositionsConcat(a + [vars[k]], b, x);
    PositionsConcat(a, [vars[k]], x);
    assert PositionsOf([vars[k]], x) == if vars[k].name == x then [vars[k].displ] else [];
    if x == vars[k].name {
      PositionsNone(a, x);
      PositionsNone(b, x);
    }
  }

  /** Storing one more value under a name changes what that name denotes, and nothing else. */
  lemma AppendOne<V>(s: Scope<V>, bound: map<Symbol, V>, x: Symbol, v: V)
    requires Agrees(s, bound)
    ensures Agrees(Scope(s.values + [v], s.vars + [Entry(x, |s.values|)]), bound[x := v])
  {
    var e := Entry(x, |s.values|);
    var s' := Scope(s.values + [v], s.vars + [e]);
    forall y ensures Denotes(s', y) == if y == x then Some(v) else Denotes(s, y) {
      PositionsConcat(s.vars, [e], y);
      assert PositionsOf([e], y) == if x == y then [e.displ] else [];
      var ps := PositionsOf(s.vars, y);
      if y != x && ps != [] {
        PositionsMember(s.vars, Entry(y, ps[|ps| - 1]));
      }
    }
  }

  /** The index may be rearranged as long as the last position of every name stays. */
  lemma Rearranged<V>(s: Scope<V>, bound: map<Symbol, V>, vars: seq<Entry>)
    requires Agrees(s, bound)
    requires forall x ::
               PositionsOf(vars, x) == PositionsOf(s.vars, x) || PositionsOf(vars, x) == LastOf(PositionsOf(s.vars, x))
    ensures Agrees(s.(vars := vars), bound)
  {
    forall e | e in vars ensures e.displ < |s.values| {
      PositionsMember(vars, e);
      PositionsMember(s.vars, e);
    }
  }

  lemma Forgotten<V>(s: Scope<V>, bound: map<Symbol, V>, k: nat)
    requires Agrees(s, bound) && Unique(s.vars) && k < |s.vars|
    ensures Agrees(s.(vars := s.vars[..k] + s.vars[k + 1..]), bound - {s.vars[k].name})
  {
    var vars := s.vars[..k] + s.vars[k + 1..];
    forall x ensures PositionsOf(vars, x) == if x == s.vars[k].name then [] else PositionsOf(s.vars, x) {
      WithoutEntry(s.vars, k, x);
    }
  }

  lemma AddedIsUnique(others: seq<Entry>, e: Entry, r: seq<Entry>)
    requires Unique(others) && (forall o :: o in others ==> o.name != e.name)
    requires Sorted(r) && forall x :: PositionsOf(r, x) == PositionsOf(others + [e], x)
    ensures Unique(r)
  {
    forall x ensures |PositionsOf(r, x)| <= 1 {
      PositionsConcat(others, [e], x);
      UniqueHasOne(others, x);
      if x == e.name { PositionsNone(others, x); }
      assert PositionsOf([e], x) == if x == e.name then [e.displ] else [];
    }
    SortedIsUnique(r);
  }

  /** The index after binding one name: its old entry is erased, a new one is appended, and the index is sorted. */
  method Rebind<V>(vars: seq<Entry>, name: Symbol, displ: nat, ghost values: seq<V>, ghost v: V,
                   ghost bound: map<Symbol, V>)
    returns (r: seq<Entry>)
    requires Unique(vars) && displ == |values| && Agrees(Scope(values, vars), bound)
    ensures Unique(r) && Agrees(Scope(values + [v], r), bound[name := v])
  {
    var others := Erase(vars, name, values, bound);
    var e := Entry(name, displ);
    r := StableSort(others + [e]);
    AppendOne(Scope(values, others), bound - {name}, name, v);
    assert (bound - {name})[name := v] == bound[name := v];
    Rearranged(Scope(values + [v], others + [e]), bound[name := v], r);
    AddedIsUnique(others, e, r);
  }

  method Erase<V>(vars: seq<Entry>, name: Symbol, ghost values: seq<V>, ghost bound: map<Symbol, V>)
    returns (r: seq<Entry>)
    requires Unique(vars) && Agrees(Scope(values, vars), bound)
    ensures Unique(r) && (forall e :: e in r ==> e.name != name) && Agrees(Scope(values, r), bound - {name})
  {
    var oldVar := Find(vars, name);
    r := vars;
    if oldVar.Some? {
      r := vars[..oldVar.value] + vars[oldVar.value + 1..];
      Forgotten(Scope(values, vars), bound, oldVar.value);
      UniqueWithout(vars, oldVar.value);
    } else {
      NotBound(Scope(values, vars), bound, name);
    }
  }

  lemma UniqueWithout(vars: seq<Entry>, k: nat)
    requires Unique(vars) && k < |vars|
    ensures var r := vars[..k] + vars[k + 1..]; Unique(r) && forall e :: e in r ==> e.name != vars[k].name
  {
    var r := vars[..k] + vars[k + 1..];
    forall i | 0 <= i < |r| ensures r[i] == if i < k then vars[i] else vars[i + 1] {}
  }

  lemma NotBound<V>(s: Scope<V>, bound: map<Symbol, V>, name: Symbol)
    requires Agrees(s, bound) && forall e :: e in s.vars ==> e.name != name
    ensures name !in bound && bound - {name} == bound
  {
    PositionsNone(s.vars, name);
    assert Denotes(s, name) == None;
  }

  // ----- The evaluator's own fields -----

  class Repl<V(0)> {
    const baseNames: set<Symbol>
    var env: array<V>
    var displ: nat
    var vars: seq<Entry>
    var varNames: set<Symbol>
    ghost var meaning: Simple<V>

    ghost predicate Valid()
      reads this, env
    {
      env.Length == ENV_SIZE && displ <= ENV_SIZE
      && StandsFor(Scope(env[..displ], vars), meaning)
      && varNames == baseNames + meaning.bound.Keys
    }

    constructor (baseNames: set<Symbol>)
      ensures Valid() && fresh(env) && meaning == Simple(0, map[]) && this.baseNames == baseNames
    {
      this.baseNames := baseNames;
      env := new V[ENV_SIZE];
      displ, vars, varNames := 0, [], baseNames;
      meaning := Simple(0, map[]);
    }

    /** A new environment; the old one stays as it is for whatever still refers to it. */
    method InitEnv()
      requires Valid()
      modifies this
      ensures Valid() && fresh(env) && meaning == SimpleStep(old(meaning), Init)
    {
      env := new V[ENV_SIZE];
      displ, vars, varNames := 0, [], baseNames;
      meaning := Simple(0, map[]);
    }

    /** Binds one name. Refused, without any change, when all slots are used. */
    method AddVarToScope(name: Symbol, v: V) returns (ok: bool)
      requires Valid()
      modifies this, env
      ensures Valid() && env == old(env)
      ensures meaning == SimpleStep(old(meaning), AddVar(name, v))
      ensures ok <==> !Refused(old(displ), AddVar(name, v))
      ensures old(env[..displ]) <= env[..displ]
    {
      if displ >= ENV_SIZE { return false; }
      ghost var values := env[..displ];
      vars := Rebind(vars, name, displ, values, v, meaning.bound);
      env[displ] := v;
      displ := displ + 1;
      assert env[..displ] == values + [v];
      varNames := varNames + {name};
      meaning := SimpleStep(meaning, AddVar(name, v));
      return true;
    }

    /** Binds all attributes of a set. Refused, without any change, when they would not leave a slot unused. */
    method AddAttrsToScope(attrs: seq<Binding<V>>) returns (ok: bool)
      requires Valid()
      modifies this, env
      ensures Valid() && env == old(env)
      ensures meaning == SimpleStep(old(meaning), AddAttrs(attrs))
      ensures ok <==> !Refused(old(displ), AddAttrs(attrs))
      ensures old(env[..displ]) <= env[..displ]
    {
      if displ + |attrs| >= ENV_SIZE { return false; }
      ghost var values, bound := env[..displ], meaning.bound;
      StoreAttrs(attrs);
      var sorted := StableSort(vars);
      var unique := Deduplicate(sorted);
      Rearranged(Scope(env[..displ], vars), BindAll(bound, attrs), unique);
      vars := unique;
      meaning := SimpleStep(meaning, AddAttrs(attrs));
      return true;
    }

    /** Stores the values and appends their entries, leaving the index unsorted and with old entries in it. */
    method StoreAttrs(attrs: seq<Binding<V>>)
      requires Valid() && displ + |attrs| <= ENV_SIZE
      modifies `displ, `vars, `varNames, env
      ensures displ == old(displ) + |attrs| && old(env[..displ]) <= env[..displ]
      ensures Agrees(Scope(env[..displ], vars), BindAll(meaning.bound, attrs))
      ensures varNames == baseNames + BindAll(meaning.bound, attrs).Keys
    {
      ghost var values, bound := env[..displ], meaning.bound;
      for i := 0 to |attrs|
        invariant displ == |values| + i && values <= env[..displ]
        invariant Agrees(Scope(env[..displ], vars), BindAll(bound, attrs[..i]))
        invariant varNames == baseNames + BindAll(bound, attrs[..i]).Keys
      {
        ghost var before := env[..displ];
        AppendOne(Scope(before, vars), BindAll(bound, attrs[..i]), attrs[i].name, attrs[i].value);
        vars := vars + [Entry(attrs[i].name, displ)];
        env[displ] := attrs[i].value;
        displ := displ + 1;
        varNames := varNames + {attrs[i].name};
        assert env[..displ] == before + [attrs[i].value];
        assert attrs[..i + 1][..i] == attrs[..i];
      }
      assert attrs[..|attrs|] == attrs;
    }

    method RunCommand(c: Command<V>)
      requires Valid()
      modifies this, env
      ensures Valid() && meaning == SimpleStep(old(meaning), c)
      ensures old(env)[..old(displ)] == old(env[..displ])
      ensures fresh(env) || (env == old(env) && old(displ) <= displ)
    {
      match c {
        case Init => InitEnv();
        case AddVar(name, v) => var _ := AddVarToScope(name, v);
        case AddAttrs(attrs) => var _ := AddAttrsToScope(attrs);
      }
    }

    /** Any sequence of commands. The scope ends up standing for the simple map, and the slots used at the start
        keep their values, so that whatever was resolved before still denotes the same values. */
    method RunCommands(commands: seq<Command<V>>)
      requires Valid()
      modifies this, env
      ensures Valid() && meaning == RunSimple(old(meaning), commands)
      ensures old(env)[..old(displ)] == old(env[..displ])
    {
      ghost var e0, d0 := env, displ;
      for i := 0 to |commands|
        invariant Valid() && meaning == RunSimple(old(meaning), commands[..i])
        invariant (env == e0 && displ >= d0) || fresh(env)
        invariant e0[..d0] == old(env[..displ])
      {
        assert commands[..i + 1][..i] == commands[..i];
        RunCommand(commands[i]);
      }
      assert commands[..|commands|] == commands;
    }

    /** What an expression parsed now would see: the position of a name in the current environment. */
    method Resolve(name: Symbol) returns (r: Option<nat>)
      requires Valid()
      ensures r.None? <==> name !in meaning.bound
      ensures r.Some? ==> r.value < displ && env[r.value] == meaning.bound[name]
    {
      var k := Find(vars, name);
      if k.None? {
        NotBound(Scope(env[..displ], vars), meaning.bound, name);
        return None;
      }
      ResolveFound(Scope(env[..displ], vars), meaning.bound, k.value);
      return Some(vars[k.value].displ);
    }
  }

  lemma ResolveFound<V>(s: Scope<V>, bound: map<Symbol, V>, k: nat)
    requires Agrees(s, bound) && Unique(s.vars) && k < |s.vars|
    ensures s.vars[k].name in bound && s.vars[k].displ < |s.values|
      && s.values[s.vars[k].displ] == bound[s.vars[k].name]
  {
    var e := s.vars[k];
    PositionsMember(s.vars, e);
    UniqueHasOne(s.vars, e.name);
    assert Denotes(s, e.name) == Some(s.values[e.displ]);
  }
}
