/** Completing a variable name in the interactive evaluator. */
module Completion {
  import opened Basics

  predicate HasPrefix(s: string, p: string) {
    |p| <= |s| && s[..|p|] == p
  }

  /** Everything with a prefix is at least the prefix. */
  lemma {:induction false} PrefixNotLess(s: string, p: string)
    requires HasPrefix(s, p)
    ensures !StringLess(s, p)
  {
    if p != "" {
      assert s[1..][..|p| - 1] == s[..|p|][1..] == p[1..];
      assert s[0] == s[..|p|][0] == p[0];
      PrefixNotLess(s[1..], p[1..]);
    }
  }

  /** Between a prefix and something that has it, everything has it. */
  lemma {:induction false} PrefixConvex(p: string, y: string, z: string)
    requires !StringLess(y, p) && StringLess(y, z) && HasPrefix(z, p)
    ensures HasPrefix(y, p)
  {
    if p != "" {
      assert z[0] == z[..|p|][0] == p[0];
      assert z[1..][..|p| - 1] == z[..|p|][1..] == p[1..];
      assert y[0] == p[0];
      PrefixConvex(p[1..], y[1..], z[1..]);
      assert y[..|p|] == [y[0]] + y[1..][..|p| - 1];
      assert p == [p[0]] + p[1..];
    }
  }

  /** Starts at the first name that is not less than the prefix and stops at the first name without it. */
  method CompleteVariable(names: seq<string>, cur: string) returns (completions: seq<string>)
    requires Increasing(names)
    ensures forall x :: x in completions <==> x in names && HasPrefix(x, cur)
    ensures Increasing(completions)
  {
    var i := 0;
    while i < |names| && StringLess(names[i], cur)
      invariant 0 <= i <= |names|
      invariant forall k :: 0 <= k < i ==> StringLess(names[k], cur)
    {
      i := i + 1;
    }
    var start := i;
    completions := [];
    while i < |names|
      invariant start <= i <= |names|
      invariant completions == names[start..i]
      invariant forall k :: start <= k < i ==> HasPrefix(names[k], cur)
    {
      if !HasPrefix(names[i], cur) { break; }
      completions := completions + [names[i]];
      i := i + 1;
    }
    forall k | 0 <= k < |names| && HasPrefix(names[k], cur) ensures start <= k < i {
      PrefixNotLess(names[k], cur);
      if i < k { NotBefore(names, cur, start, i); PrefixConvex(cur, names[i], names[k]); }
    }
  }

  lemma {:induction false} NotBefore(names: seq<string>, cur: string, start: nat, i: nat)
    requires Increasing(names) && start <= i < |names| && !StringLess(names[start], cur)
    ensures !StringLess(names[i], cur)
  {
    if start < i {
      StringLessTransitive(names[start], names[i], cur);
    }
  }
}
