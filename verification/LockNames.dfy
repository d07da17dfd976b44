/** The files that build hooks lock: one per job slot of a remote machine, next to the main lock. */
module LockNames {
  import opened Basics

  /** Store URIs become file names by replacing every slash. */
  function EscapeUri(uri: string): string {
    seq(|uri|, i requires 0 <= i < |uri| => if uri[i] == '/' then '_' else uri[i])
  }

  function DigitChar(d: nat): (c: char)
    requires d < 10
    ensures IsDigit(c) && DigitValue(c) == d
  {
    ('0' as int + d) as char
  }

  function Decimal(n: nat): (s: string)
    ensures s != "" && AllDigits(s) && DigitsValue(s) == n
  {
    if n < 10 then
      assert DigitsValue([DigitChar(n)][..0]) == 0;
      [DigitChar(n)]
    else
      var front := Decimal(n / 10);
      var s := front + [DigitChar(n % 10)];
      assert s[..|s| - 1] == front;
      s
  }

  function SlotLockName(uri: string, slot: nat): string {
    EscapeUri(uri) + "-" + Decimal(slot)
  }

  const MAIN_LOCK := "main-lock"

  lemma SplitsOnce(a: string, b: string, d: string, e: string)
    requires AllDigits(d) && AllDigits(e) && a + "-" + d == b + "-" + e
    ensures |d| <= |e|
  {
    assert (b + "-" + e)[|b|] == '-';
    assert forall i :: 0 <= i < |d| ==> (a + "-" + d)[|a| + 1 + i] == d[i] != '-';
    assert forall i :: |a| < i < |a + "-" + d| ==> (a + "-" + d)[i] == d[i - |a| - 1];
  }

  /** Two slots share a lock file exactly if their numbers and their escaped URIs are the same, and no slot
      shares the main lock. So distinct slots of one machine never do, and slots of two machines do exactly
      when their URIs differ at most in slashes against underscores. */
  lemma SlotLockNames(uri1: string, slot1: nat, uri2: string, slot2: nat)
    ensures SlotLockName(uri1, slot1) == SlotLockName(uri2, slot2) <==>
            EscapeUri(uri1) == EscapeUri(uri2) && slot1 == slot2
    ensures SlotLockName(uri1, slot1) != MAIN_LOCK
  {
    var a, b, d, e := EscapeUri(uri1), EscapeUri(uri2), Decimal(slot1), Decimal(slot2);
    if a + "-" + d == b + "-" + e {
      SplitsOnce(a, b, d, e);
      SplitsOnce(b, a, e, d);
      assert a == (a + "-" + d)[..|a|] && b == (b + "-" + e)[..|b|];
      assert d == (a + "-" + d)[|a| + 1..] && e == (b + "-" + e)[|b| + 1..];
    }
    var s := SlotLockName(uri1, slot1);
    assert s[|s| - 1] == d[|d| - 1];
  }
}
