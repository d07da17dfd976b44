/** Picking the earliest best element of a list under a three-way comparison. */
module Selection {
  import opened Basics

  ghost predicate Flips<T(!new)>(cmp: (T, T) -> Ordering) {
    forall a, b :: cmp(b, a) == cmp(a, b).Flip()
  }

  ghost predicate Chains<T(!new)>(cmp: (T, T) -> Ordering) {
    forall a, b, c :: cmp(a, b) != Greater && cmp(b, c) != Greater ==>
      cmp(a, c) != Greater && (cmp(a, c) == Equal ==> cmp(a, b) == Equal && cmp(b, c) == Equal)
  }

  ghost predicate TotalPreorder<T(!new)>(cmp: (T, T) -> Ordering) {
    Flips(cmp) && Chains(cmp)
  }

  /** Among the first n elements, k is the earliest of the greatest ones that suit i. */
  ghost predicate EarliestBest<I, T>(xs: seq<T>, suits: (I, T) -> bool, i: I, cmp: (T, T) -> Ordering, n: nat, k: nat)
    requires n <= |xs|
  {
    k < n && suits(i, xs[k])
    && (forall m: nat :: m < n && suits(i, xs[m]) ==> cmp(xs[m], xs[k]) != Greater)
    && (forall m: nat :: m < k && suits(i, xs[m]) ==> cmp(xs[m], xs[k]) == Less)
  }

  ghost predicate IsChoice<I, T>(xs: seq<T>, suits: (I, T) -> bool, i: I, cmp: (T, T) -> Ordering, n: nat,
                                 best: Option<nat>)
    requires n <= |xs|
  {
    match best
    case None => forall m: nat :: m < n ==> !suits(i, xs[m])
    case Some(k) => EarliestBest(xs, suits, i, cmp, n, k)
  }

  /** There is exactly one earliest best element, or none that suits. */
  lemma ChoiceUnique<I, T(!new)>(xs: seq<T>, suits: (I, T) -> bool, i: I, cmp: (T, T) -> Ordering,
                                 a: Option<nat>, b: Option<nat>)
    requires Flips(cmp)
    requires IsChoice(xs, suits, i, cmp, |xs|, a) && IsChoice(xs, suits, i, cmp, |xs|, b)
    ensures a == b
  {
  }

  /** The element chosen so far is only displaced by a strictly greater one. */
  function Choose<I, T(!new)>(xs: seq<T>, suits: (I, T) -> bool, i: I, cmp: (T, T) -> Ordering, n: nat)
    : (best: Option<nat>)
    requires n <= |xs| && TotalPreorder(cmp)
    ensures IsChoice(xs, suits, i, cmp, n, best)
  {
    if n == 0 then None
    else
      var b := Choose(xs, suits, i, cmp, n - 1);
      if suits(i, xs[n - 1]) && (b.None? || cmp(xs[b.value], xs[n - 1]) == Less)
      then
        assert EarliestBest(xs, suits, i, cmp, n, n - 1) by { NewBest(xs, suits, i, cmp, n, b); }
        Some(n - 1)
      else
        assert IsChoice(xs, suits, i, cmp, n, b) by { OldBest(xs, suits, i, cmp, n, b); }
        b
  }

  lemma NewBest<I, T(!new)>(xs: seq<T>, suits: (I, T) -> bool, i: I, cmp: (T, T) -> Ordering, n: nat, b: Option<nat>)
    requires 0 < n <= |xs| && TotalPreorder(cmp) && IsChoice(xs, suits, i, cmp, n - 1, b)
    requires suits(i, xs[n - 1]) && (b.None? || cmp(xs[b.value], xs[n - 1]) == Less)
    ensures EarliestBest(xs, suits, i, cmp, n, n - 1)
  {
    var x := xs[n - 1];
    assert cmp(x, x) == cmp(x, x).Flip();
    forall m: nat | m < n - 1 && suits(i, xs[m]) ensures cmp(xs[m], x) == Less {
      var y := xs[b.value];
      assert cmp(xs[m], y) != Greater && cmp(y, x) != Greater;
    }
  }

  lemma OldBest<I, T(!new)>(xs: seq<T>, suits: (I, T) -> bool, i: I, cmp: (T, T) -> Ordering, n: nat, b: Option<nat>)
    requires 0 < n <= |xs| && TotalPreorder(cmp) && IsChoice(xs, suits, i, cmp, n - 1, b)
    requires suits(i, xs[n - 1]) ==> b.Some? && cmp(xs[b.value], xs[n - 1]) != Less
    ensures IsChoice(xs, suits, i, cmp, n, b)
  {
    if b.Some? { assert cmp(xs[n - 1], xs[b.value]) == cmp(xs[b.value], xs[n - 1]).Flip(); }
  }

  /** If suiting is transitive, and an element that some no greater element suits also suits itself,
      then a chosen element can only be replaced by itself. */
  lemma BestStays<T(!new)>(xs: seq<T>, suits: (T, T) -> bool, i: T, cmp: (T, T) -> Ordering, k: nat)
    requires TotalPreorder(cmp) && EarliestBest(xs, suits, i, cmp, |xs|, k)
    requires forall c :: suits(xs[k], c) ==> suits(i, c)
    requires forall c :: suits(xs[k], c) && cmp(xs[k], c) != Less ==> suits(xs[k], xs[k])
    ensures Choose(xs, suits, xs[k], cmp, |xs|) in {None, Some(k)}
  {
  }

  /** A choice among the first elements does not depend on the others. */
  lemma {:induction false} ChoosePrefix<I, T(!new)>(xs: seq<T>, ys: seq<T>, suits: (I, T) -> bool, i: I,
                                                    cmp: (T, T) -> Ordering, n: nat)
    requires n <= |xs| && n <= |ys| && TotalPreorder(cmp) && forall k :: 0 <= k < n ==> xs[k] == ys[k]
    ensures Choose(xs, suits, i, cmp, n) == Choose(ys, suits, i, cmp, n)
  {
    if n > 0 { ChoosePrefix(xs, ys, suits, i, cmp, n - 1); }
  }
}
