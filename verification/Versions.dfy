/** Package names and version strings: how a derivation name splits into a package name
    and a version, and the order that upgrades are decided by.
    Strings are sequences of bytes; `char` stands for one byte and only ASCII is classified. */
module Versions {
  import opened Basics

  // ----- Splitting a derivation name -----

  predicate IsAlpha(c: char) {
    'a' <= c <= 'z' || 'A' <= c <= 'Z'
  }

  /** A derivation name splits at the first dash that is followed by a character other than a letter. */
  predicate SplitsAt(s: string, i: nat) {
    i + 1 < |s| && s[i] == '-' && !IsAlpha(s[i + 1])
  }

  function SplitIndex(s: string, i: nat): (r: nat)
    requires i <= |s|
    ensures i <= r <= |s|
    ensures r < |s| ==> SplitsAt(s, r)
    ensures forall k :: i <= k < r ==> !SplitsAt(s, k)
    decreases |s| - i
  {
    if i == |s| then |s| else if SplitsAt(s, i) then i else SplitIndex(s, i + 1)
  }

  function PackageName(s: string): string {
    s[..SplitIndex(s, 0)]
  }

  function VersionPart(s: string): string {
    var i := SplitIndex(s, 0);
    if i < |s| then s[i + 1..] else ""
  }

  method ParseDrvName(s: string) returns (name: string, version: string)
    ensures name == PackageName(s) && version == VersionPart(s)
  {
    name, version := s, "";
    var i := 0;
    while i < |s|
      invariant 0 <= i <= |s|
      invariant name == s && version == ""
      invariant forall k :: 0 <= k < i ==> !SplitsAt(s, k)
    {
      if s[i] == '-' && i + 1 < |s| && !IsAlpha(s[i + 1]) {
        assert SplitsAt(s, i) && SplitIndex(s, 0) == i;
        name, version := s[..i], s[i + 1..];
        return;
      }
      i := i + 1;
    }
  }

  // ----- Components of a version -----

  predicate IsSeparator(c: char) {
    c == '.' || c == '-'
  }

  function SkipSeparators(v: string, p: nat): (r: nat)
    requires p <= |v|
    ensures p <= r <= |v|
    ensures r < |v| ==> !IsSeparator(v[r])
    decreases |v| - p
  {
    if p < |v| && IsSeparator(v[p]) then SkipSeparators(v, p + 1) else p
  }

  /** End of the longest run of digits, or of characters that are neither digits nor separators. */
  function RunEnd(v: string, p: nat, digits: bool): (r: nat)
    requires p <= |v|
    ensures p <= r <= |v|
    decreases |v| - p
  {
    if p < |v| && (if digits then IsDigit(v[p]) else !IsDigit(v[p]) && !IsSeparator(v[p]))
    then RunEnd(v, p + 1, digits) else p
  }

  /** The components found from position p on; trailing separators yield one empty component. */
  function Components(v: string, p: nat): seq<string>
    requires p <= |v|
    decreases |v| - p
  {
    if p == |v| then []
    else
      var s := SkipSeparators(v, p);
      if s == |v| then [""]
      else
        var e := RunEnd(v, s, IsDigit(v[s]));
        [v[s..e]] + Components(v, e)
  }

  /** Reads one component at p and the position after it. Past the end there is only the empty component. */
  method NextComponent(v: string, p: nat) returns (c: string, q: nat)
    requires p <= |v|
    ensures p <= q <= |v|
    ensures p < |v| ==> p < q
    ensures p == |v| ==> c == ""
    ensures p < |v| ==> Components(v, p) == [c] + Components(v, q)
  {
    q := p;
    while q < |v| && IsSeparator(v[q])
      invariant p <= q <= |v|
      invariant SkipSeparators(v, q) == SkipSeparators(v, p)
    {
      q := q + 1;
    }
    if q == |v| {
      return "", q;
    }
    var s := q;
    if IsDigit(v[q]) {
      while q < |v| && IsDigit(v[q])
        invariant s <= q <= |v|
        invariant RunEnd(v, q, true) == RunEnd(v, s, true)
      {
        q := q + 1;
      }
    } else {
      while q < |v| && !IsDigit(v[q]) && !IsSeparator(v[q])
        invariant s <= q <= |v|
        invariant RunEnd(v, q, false) == RunEnd(v, s, false)
      {
        q := q + 1;
      }
    }
    c := v[s..q];
  }

  // ----- Ordering one component -----

  const MIN_INT := -2147483648
  const MAX_INT := 2147483647

  /** The comparison as the program writes it, branch by branch. */
  predicate ComponentsLT(c1: string, c2: string) {
    var n1 := ParseInt(c1, MIN_INT, MAX_INT);
    var n2 := ParseInt(c2, MIN_INT, MAX_INT);
    if n1.Some? && n2.Some? then n1.value < n2.value
    else if c1 == "" && n2.Some? then true
    else if c1 == "pre" && c2 != "pre" then true
    else if c2 == "pre" then false
    else if n2.Some? then true
    else if n1.Some? then false
    else StringLess(c1, c2)
  }

  /** What a component means: `pre` sorts before the end of a version, which sorts before text,
      which sorts before numbers. A run of digits too large for a 32-bit int is text. */
  datatype Key = Pre | End | Text(s: string) | Number(n: int)

  function Rank(k: Key): nat {
    match k
    case Pre => 0
    case End => 1
    case Text(_) => 2
    case Number(_) => 3
  }

  predicate KeyLess(a: Key, b: Key) {
    Rank(a) < Rank(b)
    || (a.Text? && b.Text? && StringLess(a.s, b.s))
    || (a.Number? && b.Number? && a.n < b.n)
  }

  function KeyOf(c: string): Key {
    var n := ParseInt(c, MIN_INT, MAX_INT);
    if c == "pre" then Pre else if c == "" then End
    else if n.Some? then Number(n.value) else Text(c)
  }

  lemma ComponentsLTIsKeyOrder(c1: string, c2: string)
    ensures ComponentsLT(c1, c2) <==> KeyLess(KeyOf(c1), KeyOf(c2))
  {
  }

  lemma KeyOrder(a: Key, b: Key, c: Key)
    ensures !(KeyLess(a, b) && KeyLess(b, a))
    ensures !KeyLess(a, b) && !KeyLess(b, a) ==> a == b
    ensures KeyLess(a, b) && KeyLess(b, c) ==> KeyLess(a, c)
  {
    if a.Text? && b.Text? { StringLessStrict(a.s, b.s); }
    if a.Text? && b.Text? && c.Text? { StringLessTransitive(a.s, b.s, c.s); }
  }

  // ----- Ordering two versions -----

  function HeadKey(a: seq<string>): Key {
    if a == [] then End else KeyOf(a[0])
  }

  function Rest(a: seq<string>): seq<string> {
    if a == [] then [] else a[1..]
  }

  /** Component by component, the shorter list continued with empty components. */
  function CompareComponents(a: seq<string>, b: seq<string>): Ordering
    decreases |a| + |b|
  {
    if a == [] && b == [] then Equal
    else if KeyLess(HeadKey(a), HeadKey(b)) then Less
    else if KeyLess(HeadKey(b), HeadKey(a)) then Greater
    else CompareComponents(Rest(a), Rest(b))
  }

  function Compare(v1: string, v2: string): Ordering {
    CompareComponents(Components(v1, 0), Components(v2, 0))
  }

  method CompareVersions(v1: string, v2: string) returns (r: Ordering)
    ensures r == Compare(v1, v2)
  {
    var p1, p2 := 0, 0;
    while p1 < |v1| || p2 < |v2|
      invariant 0 <= p1 <= |v1| && 0 <= p2 <= |v2|
      invariant CompareComponents(Components(v1, p1), Components(v2, p2)) == Compare(v1, v2)
      decreases |v1| - p1 + |v2| - p2
    {
      ghost var a, b := Components(v1, p1), Components(v2, p2);
      var c1, q1 := NextComponent(v1, p1);
      var c2, q2 := NextComponent(v2, p2);
      assert KeyOf(c1) == HeadKey(a) && KeyOf(c2) == HeadKey(b);
      assert Rest(a) == Components(v1, q1) && Rest(b) == Components(v2, q2);
      ComponentsLTIsKeyOrder(c1, c2);
      ComponentsLTIsKeyOrder(c2, c1);
      if ComponentsLT(c1, c2) { return Less; }
      if ComponentsLT(c2, c1) { return Greater; }
      p1, p2 := q1, q2;
    }
    return Equal;
  }

  // ----- The order is a total preorder on all strings -----

  lemma {:induction false} ComponentsFlip(a: seq<string>, b: seq<string>)
    ensures CompareComponents(b, a) == CompareComponents(a, b).Flip()
    decreases |a| + |b|
  {
    KeyOrder(HeadKey(a), HeadKey(b), HeadKey(a));
    if a != [] || b != [] { ComponentsFlip(Rest(a), Rest(b)); }
  }

  lemma {:induction false} ComponentsTransitive(a: seq<string>, b: seq<string>, c: seq<string>)
    requires CompareComponents(a, b) != Greater && CompareComponents(b, c) != Greater
    ensures CompareComponents(a, c) != Greater
    ensures CompareComponents(a, c) == Equal ==>
              CompareComponents(a, b) == Equal && CompareComponents(b, c) == Equal
    decreases |a| + |b| + |c|
  {
    var x, y, z := HeadKey(a), HeadKey(b), HeadKey(c);
    KeyOrder(x, y, z);
    KeyOrder(y, z, x);
    KeyOrder(z, x, y);
    if a == [] && b == [] && c == [] {
    } else if x == y && y == z {
      ComponentsTransitive(Rest(a), Rest(b), Rest(c));
    }
  }

  /** Comparing in the other direction gives the opposite answer. */
  lemma CompareFlips(v: string, w: string)
    ensures Compare(w, v) == Compare(v, w).Flip()
  {
    ComponentsFlip(Components(v, 0), Components(w, 0));
  }

  /** "Not newer than" is transitive, and strict as soon as one of the two steps is. */
  lemma CompareTransitive(u: string, v: string, w: string)
    requires Compare(u, v) != Greater && Compare(v, w) != Greater
    ensures Compare(u, w) != Greater
    ensures Compare(u, w) == Equal ==> Compare(u, v) == Equal && Compare(v, w) == Equal
  {
    ComponentsTransitive(Components(u, 0), Components(v, 0), Components(w, 0));
  }

  // ----- What the order means -----

  /** The i-th component of a version, continued for ever with "end of version". */
  function KeyAt(a: seq<string>, i: nat): Key {
    if i < |a| then KeyOf(a[i]) else End
  }

  /** The first i components agree and the next one is smaller. */
  predicate FirstDifference(a: seq<string>, b: seq<string>, i: nat) {
    (forall j: nat :: j < i ==> Agree(a, b, j)) && KeyLess(KeyAt(a, i), KeyAt(b, i))
  }

  predicate Agree(a: seq<string>, b: seq<string>, i: nat) {
    KeyAt(a, i) == KeyAt(b, i)
  }

  lemma NextKey(a: seq<string>, i: nat)
    ensures KeyAt(a, i + 1) == KeyAt(Rest(a), i) && KeyAt(a, 0) == HeadKey(a)
  {
  }

  lemma EqualHeads(a: seq<string>, b: seq<string>)
    requires CompareComponents(a, b) == Equal
    ensures KeyAt(a, 0) == KeyAt(b, 0) && CompareComponents(Rest(a), Rest(b)) == Equal
  {
    KeyOrder(HeadKey(a), HeadKey(b), End);
  }

  lemma {:induction false} EqualAgrees(a: seq<string>, b: seq<string>, i: nat)
    requires CompareComponents(a, b) == Equal
    ensures Agree(a, b, i)
    decreases i
  {
    EqualHeads(a, b);
    if i > 0 {
      EqualAgrees(Rest(a), Rest(b), i - 1);
      NextKey(a, i - 1);
      NextKey(b, i - 1);
    }
  }

  lemma {:induction false} DifferenceDecides(a: seq<string>, b: seq<string>, i: nat)
    requires FirstDifference(a, b, i)
    ensures CompareComponents(a, b) == Less
    decreases i
  {
    KeyOrder(HeadKey(a), HeadKey(b), End);
    if i > 0 {
      assert Agree(a, b, 0);
      forall j: nat | j < i - 1 ensures Agree(Rest(a), Rest(b), j) { assert Agree(a, b, j + 1); }
      DifferenceDecides(Rest(a), Rest(b), i - 1);
    }
  }

  lemma {:induction false} LessHasDifference(a: seq<string>, b: seq<string>) returns (i: nat)
    requires CompareComponents(a, b) == Less
    ensures FirstDifference(a, b, i)
    decreases |a| + |b|
  {
    if KeyLess(HeadKey(a), HeadKey(b)) {
      i := 0;
    } else {
      KeyOrder(HeadKey(a), HeadKey(b), End);
      var k := LessHasDifference(Rest(a), Rest(b));
      i := k + 1;
      forall j: nat | j < i ensures Agree(a, b, j) {
        if j > 0 { assert Agree(Rest(a), Rest(b), j - 1); }
      }
    }
  }

  ghost predicate SameMeaning(a: seq<string>, b: seq<string>) {
    forall i: nat :: Agree(a, b, i)
  }

  ghost predicate SmallerAtFirstDifference(a: seq<string>, b: seq<string>) {
    exists i: nat :: FirstDifference(a, b, i)
  }

  lemma ComponentsMeaning(a: seq<string>, b: seq<string>)
    ensures CompareComponents(a, b) == Equal <==> SameMeaning(a, b)
    ensures CompareComponents(a, b) == Less <==> SmallerAtFirstDifference(a, b)
  {
    if CompareComponents(a, b) == Equal {
      forall i: nat ensures Agree(a, b, i) { EqualAgrees(a, b, i); }
    } else if CompareComponents(a, b) == Less {
      var i := LessHasDifference(a, b);
      KeyOrder(KeyAt(a, i), KeyAt(b, i), End);
      assert !Agree(a, b, i);
    } else {
      ComponentsFlip(a, b);
      var i := LessHasDifference(b, a);
      KeyOrder(KeyAt(a, i), KeyAt(b, i), End);
      assert !Agree(a, b, i);
    }
    forall i: nat | FirstDifference(a, b, i) ensures CompareComponents(a, b) == Less { DifferenceDecides(a, b, i); }
  }

  /** Two versions tie exactly when all their components mean the same, so a tie is insensitive to
      separators and leading zeros; otherwise the first component that differs decides. */
  lemma CompareMeaning(v: string, w: string)
    ensures Compare(v, w) == Equal <==> SameMeaning(Components(v, 0), Components(w, 0))
    ensures Compare(v, w) == Less <==> SmallerAtFirstDifference(Components(v, 0), Components(w, 0))
  {
    ComponentsMeaning(Components(v, 0), Components(w, 0));
  }
}
