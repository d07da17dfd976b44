/** Whether a store path is trusted (`bsd store verify`): enough distinct valid signatures, looked for in this
    store and then in the substituters, one after the other, until there are enough. */
module Trust {
  import opened Basics

  /** The largest number of signatures: what a content-addressed path counts as. */
  const MAX_SIGS := 18446744073709551615

  datatype Signature = Signature(text: string)

  datatype Info = Info(contentAddressed: bool, sigs: set<Signature>)

  /** What is asked: the path's own information and, for every substituter, its information or no response. */
  datatype Query = Query(
    ultimate: bool, info: Info, sigsNeeded: nat, substituters: seq<Option<Info>>, valid: Signature -> bool)

  predicate Responds(q: Query, r: Info) {
    r == q.info || Some(r) in q.substituters
  }

  /** All signatures in this store and in the first n substituters. */
  function Signatures(q: Query, n: nat): set<Signature>
    requires n <= |q.substituters|
  {
    if n == 0 then q.info.sigs
    else Signatures(q, n - 1) + if q.substituters[n - 1].Some? then q.substituters[n - 1].value.sigs else {}
  }

  predicate ContentAddressed(q: Query, n: nat)
    requires n <= |q.substituters|
  {
    if n == 0 then q.info.contentAddressed
    else ContentAddressed(q, n - 1) || (q.substituters[n - 1].Some? && q.substituters[n - 1].value.contentAddressed)
  }

  function ValidOnes(q: Query, sigs: set<Signature>): set<Signature> {
    set x | x in sigs && q.valid(x)
  }

  function Min(a: nat, b: nat): nat {
    if a < b then a else b
  }

  function Max(a: nat, b: nat): nat {
    if a < b then b else a
  }

  /** The count kept by the program when it has looked at the given signatures. */
  function Count(q: Query, ca: bool, seen: set<Signature>): nat {
    if ca then MAX_SIGS else Min(|ValidOnes(q, seen)|, MAX_SIGS)
  }

  lemma CountOne(q: Query, ca: bool, seen: set<Signature>, sig: Signature)
    requires sig !in seen
    ensures var c := Count(q, ca, seen);
            Count(q, ca, seen + {sig}) == if c < MAX_SIGS && q.valid(sig) then c + 1 else c
  {
    assert ValidOnes(q, seen + {sig}) == ValidOnes(q, seen) + if q.valid(sig) then {sig} else {};
  }

  /** Adds the signatures of one store that were not seen before. */
  method DoSigs(q: Query, sigs: set<Signature>, seen0: set<Signature>, count0: nat, ghost ca: bool)
    returns (seen: set<Signature>, count: nat)
    requires count0 == Count(q, ca, seen0)
    ensures seen == seen0 + sigs && count == Count(q, ca, seen)
  {
    seen, count := seen0, count0;
    var todo := sigs;
    while todo != {}
      invariant todo <= sigs && seen == seen0 + (sigs - todo) && count == Count(q, ca, seen)
      decreases todo
    {
      var sig :| sig in todo;
      todo := todo - {sig};
      if sig !in seen {
        CountOne(q, ca, seen, sig);
        seen := seen + {sig};
        if count < MAX_SIGS && q.valid(sig) { count := count + 1; }
      } else {
        assert seen + {sig} == seen;
      }
    }
  }

  lemma {:induction false} MoreSignatures(q: Query, n: nat, m: nat)
    requires n <= m <= |q.substituters|
    ensures Signatures(q, n) <= Signatures(q, m) && (ContentAddressed(q, n) ==> ContentAddressed(q, m))
    decreases m - n
  {
    if n < m { MoreSignatures(q, n + 1, m); }
  }

  /** Looking at more stores never lowers the count. */
  lemma CountGrows(q: Query, n: nat)
    requires n <= |q.substituters|
    ensures Count(q, ContentAddressed(q, n), Signatures(q, n))
            <= FullCount(q)
  {
    MoreSignatures(q, n, |q.substituters|);
    SubsetSize(ValidOnes(q, Signatures(q, n)), ValidOnes(q, Signatures(q, |q.substituters|)));
  }

  /** The exhaustive answer, in which the order of the substituters plays no role. */
  ghost predicate Trusted(q: Query) {
    || (q.ultimate && q.sigsNeeded == 0)
    || (exists r :: Responds(q, r) && r.contentAddressed)
    || |set x | x in Signatures(q, |q.substituters|) && q.valid(x)| >= Max(q.sigsNeeded, 1)
  }

  lemma {:induction false} ContentAddressedMeaning(q: Query, n: nat)
    requires n <= |q.substituters|
    ensures ContentAddressed(q, n) <==>
            q.info.contentAddressed
            || exists i :: 0 <= i < n && q.substituters[i].Some? && q.substituters[i].value.contentAddressed
  {
    if n > 0 { ContentAddressedMeaning(q, n - 1); }
  }

  lemma {:induction false} SignaturesMeaning(q: Query, n: nat, x: Signature)
    requires n <= |q.substituters|
    ensures x in Signatures(q, n) <==>
            x in q.info.sigs || exists i :: 0 <= i < n && q.substituters[i].Some? && x in q.substituters[i].value.sigs
  {
    if n > 0 { SignaturesMeaning(q, n - 1, x); }
  }

  function FullCount(q: Query): nat {
    Count(q, ContentAddressed(q, |q.substituters|), Signatures(q, |q.substituters|))
  }

  method OwnSignatures(q: Query) returns (seen: set<Signature>, validSigs: nat)
    ensures seen == Signatures(q, 0) && validSigs == Count(q, ContentAddressed(q, 0), seen)
  {
    validSigs := 0;
    assert ValidOnes(q, {}) == {};
    if q.info.contentAddressed { validSigs := MAX_SIGS; }
    seen, validSigs := DoSigs(q, q.info.sigs, {}, validSigs, q.info.contentAddressed);
    assert seen == q.info.sigs;
  }

  method AskSubstituter(q: Query, k: nat, seen0: set<Signature>, validSigs0: nat)
    returns (seen: set<Signature>, validSigs: nat)
    requires k < |q.substituters| && seen0 == Signatures(q, k) && validSigs0 == Count(q, ContentAddressed(q, k), seen0)
    ensures seen == Signatures(q, k + 1) && validSigs == Count(q, ContentAddressed(q, k + 1), seen)
  {
    seen, validSigs := seen0, validSigs0;
    if q.substituters[k].Some? {
      var info := q.substituters[k].value;
      if info.contentAddressed { validSigs := MAX_SIGS; }
      seen, validSigs := DoSigs(q, info.sigs, seen, validSigs, ContentAddressed(q, k + 1));
    }
  }

  /** Stops as soon as there are enough, which decides like looking everywhere. */
  method EnoughSignatures(q: Query, needed: nat) returns (enough: bool)
    ensures enough <==> FullCount(q) >= needed
  {
    var seen, validSigs := OwnSignatures(q);
    var k := 0;
    while k < |q.substituters| && validSigs < needed
      invariant 0 <= k <= |q.substituters|
      invariant seen == Signatures(q, k) && validSigs == Count(q, ContentAddressed(q, k), seen)
    {
      seen, validSigs := AskSubstituter(q, k, seen, validSigs);
      k := k + 1;
    }
    CountGrows(q, k);
    return validSigs >= needed;
  }

  /** Early exit and the bound on the count change nothing. */
  method CheckTrust(q: Query) returns (good: bool)
    requires q.sigsNeeded <= MAX_SIGS
    ensures good <==> Trusted(q)
  {
    if q.ultimate && q.sigsNeeded == 0 { return true; }
    good := EnoughSignatures(q, Max(q.sigsNeeded, 1));
    CountDecides(q);
  }

  lemma CountDecides(q: Query)
    requires q.sigsNeeded <= MAX_SIGS && !(q.ultimate && q.sigsNeeded == 0)
    ensures Trusted(q) <==> FullCount(q) >= Max(q.sigsNeeded, 1)
  {
    var n := |q.substituters|;
    ContentAddressedMeaning(q, n);
    assert ContentAddressed(q, n) <==> exists r :: Responds(q, r) && r.contentAddressed by {
      if i :| 0 <= i < n && q.substituters[i].Some? && q.substituters[i].value.contentAddressed {
        assert Responds(q, q.substituters[i].value);
      }
      assert Responds(q, q.info);
    }
    assert ValidOnes(q, Signatures(q, n)) == set x | x in Signatures(q, n) && q.valid(x);
  }

  ghost predicate Offered(q: Query, x: Signature) {
    exists r :: Responds(q, r) && x in r.sigs
  }

  lemma SignaturesOffered(q: Query, x: Signature)
    ensures x in Signatures(q, |q.substituters|) <==> Offered(q, x)
  {
    SignaturesMeaning(q, |q.substituters|, x);
    if x in q.info.sigs {
      assert Responds(q, q.info);
    } else if x in Signatures(q, |q.substituters|) {
      var i :| 0 <= i < |q.substituters| && q.substituters[i].Some? && x in q.substituters[i].value.sigs;
      assert Responds(q, q.substituters[i].value);
    }
  }

  /** Substituters may be asked in any order. */
  lemma OrderIrrelevant(q: Query, r: Query)
    requires r == q.(substituters := r.substituters)
    requires forall x :: x in q.substituters <==> x in r.substituters
    ensures Trusted(q) <==> Trusted(r)
  {
    assert forall i :: Responds(q, i) <==> Responds(r, i);
    forall x ensures x in Signatures(q, |q.substituters|) <==> x in Signatures(r, |r.substituters|) {
      SignaturesOffered(q, x);
      SignaturesOffered(r, x);
    }
    assert Signatures(q, |q.substituters|) == Signatures(r, |r.substituters|);
  }
}
