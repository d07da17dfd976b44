/** One build hook process: answering the requests of its parent, and giving up machines it cannot reach. */
module BuildHook {
  import opened Basics
  import opened MachineChoice

  datatype Answer = Accept(machine: nat) | Decline | Postpone | DeclinePermanently

  function EnabledCount(enabled: seq<bool>): nat {
    if enabled == [] then 0 else EnabledCount(enabled[1..]) + if enabled[0] then 1 else 0
  }

  lemma {:induction false} DisableOne(enabled: seq<bool>, i: nat)
    requires i < |enabled| && enabled[i]
    ensures EnabledCount(enabled[i := false]) == EnabledCount(enabled) - 1
  {
    if i == 0 {
      assert enabled[i := false][1..] == enabled[1..];
    } else {
      assert enabled[i := false][1..] == enabled[1..][i - 1 := false];
      DisableOne(enabled[1..], i - 1);
    }
  }

  ghost predicate SomeRight(machines: seq<Machine>, enabled: seq<bool>, q: Request)
    requires |enabled| == |machines|
  {
    exists i :: 0 <= i < |machines| && Considered(machines[i], enabled[i], q)
  }

  /** The rounds of one request: `trail[r]` are the enabled machines of round r. In every round but the last the
      earliest best machine was chosen, could not be reached, and is not enabled any more in the next round. */
  ghost predicate RoundsValid(machines: seq<Machine>, q: Request, got: nat -> nat -> nat -> bool,
                              connects: nat -> bool, trail: seq<seq<bool>>)
  {
    (forall r :: 0 <= r < |trail| ==> |trail[r]| == |machines|)
    && forall r: nat :: r + 1 < |trail| ==> RoundFails(machines, q, got, connects, trail[r], r, trail[r + 1])
  }

  ghost predicate RoundFails(machines: seq<Machine>, q: Request, got: nat -> nat -> nat -> bool, connects: nat -> bool,
                             before: seq<bool>, r: nat, after: seq<bool>)
    requires |before| == |machines|
  {
    var best := Best(Probes(machines, before, q, got(r)), |machines|);
    best.Some? && !connects(r) && after == before[best.value := false]
  }

  /** What the answer means in the round it was given in. */
  ghost predicate AnswerValid(machines: seq<Machine>, q: Request, got: nat -> nat -> bool, connected: bool,
                              enabled: seq<bool>, answer: Answer)
    requires |enabled| == |machines|
  {
    var best := Best(Probes(machines, enabled, q, got), |machines|);
    match answer
    case Accept(m) => best == Some(m) && connected
    case Postpone => best.None? && SomeRight(machines, enabled, q) && !q.canBuildLocally
    case Decline => best.None? && (!SomeRight(machines, enabled, q) || q.canBuildLocally)
    case DeclinePermanently => false
  }

  class Hook {
    const machines: seq<Machine>
    var enabled: seq<bool>

    predicate Valid()
      reads this
    {
      |enabled| == |machines|
    }

    constructor (machines: seq<Machine>)
      ensures Valid() && this.machines == machines && forall i :: 0 <= i < |enabled| ==> enabled[i]
    {
      this.machines := machines;
      enabled := seq(|machines|, _ => true);
    }

    /** One "try" request. It gets exactly one answer after at most one failed connection per enabled machine. */
    method HandleTry(q: Request, got: nat -> nat -> nat -> bool, connects: nat -> bool)
      returns (answer: Answer, ghost trail: seq<seq<bool>>)
      requires Valid()
      modifies this
      ensures Valid()
      ensures trail != [] && trail[0] == old(enabled) && trail[|trail| - 1] == enabled
      ensures RoundsValid(machines, q, got, connects, trail)
      ensures AnswerValid(machines, q, got(|trail| - 1), connects(|trail| - 1), enabled, answer)
      ensures EnabledCount(enabled) + |trail| - 1 == EnabledCount(old(enabled))
    {
      trail := [enabled];
      ghost var before := EnabledCount(enabled);
      var r := 0;
      while true
        invariant Valid() && trail != [] && trail[0] == old(enabled) && trail[|trail| - 1] == enabled
        invariant r == |trail| - 1 && RoundsValid(machines, q, got, connects, trail)
        invariant EnabledCount(enabled) + |trail| - 1 == before
        decreases EnabledCount(enabled)
      {
        var best, rightType := ChooseMachine(machines, enabled, q, got(r));
        if best.None? {
          answer := if rightType && !q.canBuildLocally then Postpone else Decline;
          return;
        }
        if connects(r) {
          answer := Accept(best.value);
          return;
        }
        DisableOne(enabled, best.value);
        enabled := enabled[best.value := false];
        trail := trail + [enabled];
        r := r + 1;
      }
    }

    /** A session: requests are answered until one is accepted or the input ends. `got` and `connects` are what the
        locks and the connections give, by request and round; `states[k]` are the enabled machines after k answers. */
    method Serve(requests: seq<Request>, got: nat -> nat -> nat -> nat -> bool, connects: nat -> nat -> bool)
      returns (answers: seq<Answer>, ghost states: seq<seq<bool>>)
      requires Valid()
      modifies this
      ensures machines == [] ==> answers == [DeclinePermanently]
      ensures machines != [] ==>
                SessionValid(machines, requests, got, connects, answers, states) && states[0] == old(enabled)
    {
      answers, states := [], [enabled];
      if machines == [] {
        return [DeclinePermanently], states;
      }
      for k := 0 to |requests|
        invariant Valid() && |answers| == k && |states| == k + 1 && states[0] == old(enabled) && states[k] == enabled
        invariant forall j: nat :: j < k ==>
                    AnsweredOnce(machines, requests[j], got(j), connects(j), states[j], states[j + 1], answers[j])
        invariant forall j :: 0 <= j < k ==> !answers[j].Accept?
      {
        var answer: Answer;
        ghost var trail;
        answer, trail := HandleTry(requests[k], got(k), connects(k));
        RoundsAnswer(machines, requests[k], got(k), connects(k), trail, answer);
        answers := answers + [answer];
        states := states + [enabled];
        if answer.Accept? { return; }
      }
    }
  }

  /** One request: from the machines enabled before it, through some number of failed rounds, to its answer. */
  ghost predicate AnsweredOnce(machines: seq<Machine>, q: Request, got: nat -> nat -> nat -> bool,
                               connects: nat -> bool,
                               before: seq<bool>, after: seq<bool>, answer: Answer)
  {
    && |before| == |machines| && |after| == |machines|
    && (forall i :: 0 <= i < |machines| && after[i] ==> before[i])
    && (exists trail :: Answered(machines, q, got, connects, trail, before, after, answer))
  }

  ghost predicate Answered(machines: seq<Machine>, q: Request, got: nat -> nat -> nat -> bool, connects: nat -> bool,
                           trail: seq<seq<bool>>, before: seq<bool>, after: seq<bool>, answer: Answer)
  {
    && trail != [] && trail[0] == before && trail[|trail| - 1] == after && |after| == |machines|
    && RoundsValid(machines, q, got, connects, trail)
    && AnswerValid(machines, q, got(|trail| - 1), connects(|trail| - 1), after, answer)
  }

  ghost predicate SessionValid(machines: seq<Machine>, requests: seq<Request>, got: nat -> nat -> nat -> nat -> bool,
                               connects: nat -> nat -> bool, answers: seq<Answer>, states: seq<seq<bool>>)
  {
    && |answers| <= |requests| && |states| == |answers| + 1
    && (|answers| < |requests| ==> answers != [] && answers[|answers| - 1].Accept?)
    && (forall j :: 0 <= j < |answers| - 1 ==> !answers[j].Accept?)
    && (forall j: nat :: j < |answers| ==>
          AnsweredOnce(machines, requests[j], got(j), connects(j), states[j], states[j + 1], answers[j]))
  }

  lemma {:induction false} RoundsShrink(machines: seq<Machine>, q: Request, got: nat -> nat -> nat -> bool,
                                        connects: nat -> bool, trail: seq<seq<bool>>, r: nat, i: nat)
    requires RoundsValid(machines, q, got, connects, trail) && r < |trail| && i < |machines| && trail[r][i]
    ensures trail[0][i]
  {
    if r > 0 {
      assert RoundFails(machines, q, got, connects, trail[r - 1], r - 1, trail[r]);
      RoundsShrink(machines, q, got, connects, trail, r - 1, i);
    }
  }

  lemma RoundsAnswer(machines: seq<Machine>, q: Request, got: nat -> nat -> nat -> bool, connects: nat -> bool,
                     trail: seq<seq<bool>>, answer: Answer)
    requires trail != [] && RoundsValid(machines, q, got, connects, trail)
    requires AnswerValid(machines, q, got(|trail| - 1), connects(|trail| - 1), trail[|trail| - 1], answer)
    ensures AnsweredOnce(machines, q, got, connects, trail[0], trail[|trail| - 1], answer)
  {
    assert Answered(machines, q, got, connects, trail, trail[0], trail[|trail| - 1], answer);
    forall i | 0 <= i < |machines| && trail[|trail| - 1][i] ensures trail[0][i] {
      RoundsShrink(machines, q, got, connects, trail, |trail| - 1, i);
    }
  }

  // ----- What the answers mean -----

  ghost predicate AllHeld(m: Machine, got: nat -> bool) {
    forall s: nat :: s < m.maxJobs ==> !got(s)
  }

  /** A request is postponed only if it cannot be built locally now, some enabled machine is of the right type,
      and every slot of every such machine was held. */
  lemma PostponeMeans(machines: seq<Machine>, q: Request, got: nat -> nat -> bool, connected: bool, enabled: seq<bool>)
    requires |enabled| == |machines| && AnswerValid(machines, q, got, connected, enabled, Postpone)
    ensures !q.canBuildLocally && SomeRight(machines, enabled, q)
    ensures forall i: nat :: i < |machines| && Considered(machines[i], enabled[i], q) ==> AllHeld(machines[i], got(i))
  {
    var probes := Probes(machines, enabled, q, got);
    forall i: nat | i < |machines| && Considered(machines[i], enabled[i], q) ensures AllHeld(machines[i], got(i)) {
      assert !Offers()((), probes[i]);
    }
  }

  /** The machine accepted is enabled and of the right type and had a free slot; no other such machine is less
      loaded for its speed, those that are equally loaded for their speed are no faster, those that are also equally
      fast have no less load, and of equals it is the first. */
  lemma AcceptMeans(machines: seq<Machine>, q: Request, got: nat -> nat -> bool, connected: bool, enabled: seq<bool>,
                    m: nat)
    requires |enabled| == |machines| && AnswerValid(machines, q, got, connected, enabled, Accept(m))
    ensures m < |machines| && Considered(machines[m], enabled[m], q) && !AllHeld(machines[m], got(m))
    ensures forall i: nat ::
              i < |machines| && Considered(machines[i], enabled[i], q) && !AllHeld(machines[i], got(i)) ==>
              var load, least := HeldCount(got(i), machines[i].maxJobs), HeldCount(got(m), machines[m].maxJobs);
              var p, best := machines[i].pressure(load), machines[m].pressure(least);
              && best <= p
              && (best == p ==> machines[i].speed <= machines[m].speed)
              && (best == p && machines[i].speed == machines[m].speed ==> least <= load)
              && (best == p && machines[i].speed == machines[m].speed && least == load ==> m <= i)
  {
    var probes := Probes(machines, enabled, q, got);
    forall i: nat | i < |machines| && Considered(machines[i], enabled[i], q) && !AllHeld(machines[i], got(i))
      ensures Offers()((), probes[i])
    {
    }
  }

  ghost predicate AllDisabled(enabled: seq<bool>) {
    forall i :: 0 <= i < |enabled| ==> !enabled[i]
  }

  lemma DisabledDeclines(machines: seq<Machine>, q: Request, got: nat -> nat -> nat -> bool, connects: nat -> bool,
                         before: seq<bool>, after: seq<bool>, answer: Answer)
    requires AnsweredOnce(machines, q, got, connects, before, after, answer) && AllDisabled(before)
    ensures answer == Decline && AllDisabled(after)
  {
    var trail :| Answered(machines, q, got, connects, trail, before, after, answer);
    assert !SomeRight(machines, after, q);
  }

  /** Once all machines are disabled, every later request of the session is declined. */
  lemma {:induction false} DisabledForGood(machines: seq<Machine>, requests: seq<Request>,
                                           got: nat -> nat -> nat -> nat -> bool,
                                           connects: nat -> nat -> bool, answers: seq<Answer>,
                                           states: seq<seq<bool>>, k: nat, l: nat)
    requires SessionValid(machines, requests, got, connects, answers, states) && k <= l < |answers|
      && AllDisabled(states[k])
    ensures answers[l] == Decline && AllDisabled(states[l + 1])
    decreases l - k
  {
    DisabledDeclines(machines, requests[k], got(k), connects(k), states[k], states[k + 1], answers[k]);
    if k < l { DisabledForGood(machines, requests, got, connects, answers, states, k + 1, l); }
  }
}
