/**
 The quiescence check (`runtime/src/ev_quiescence_service.c`): may the runtime sleep now?
 Actor callbacks are modelled by the blocker bits they add to the report.
 */
module Quiescence {
  import opened Results
  import opened Bits
  import opened Timers

  datatype Severity = Info | Warning | Err | Critical

  datatype ActorView = ActorView(enabled: bool, pendingMail: nat, instance: Option<set<nat>>,
                                 descriptor: Option<set<nat>>)

  /** What the check reads from the runtime graph; `logs` is what the log port reports, if it can. */
  datatype Graph = Graph(
    actors: seq<ActorView>, ingressWrite: Word32, ingressRead: Word32, timers: seq<Timer>,
    traces: nat, faults: seq<Severity>, logs: Option<nat>)

  datatype BufferPolicy = Never | UntilDrained | CriticalOnly

  datatype Policy = Policy(
    trace: BufferPolicy, fault: BufferPolicy, log: BufferPolicy,
    minWindow: nat, nearGuard: nat, blockDueTimers: bool, blockActors: bool)

  datatype Block = DueTimer | ActorBlock | TraceBlock | FaultBlock | LogBlock | NearDeadline

  datatype Reason = AllClear | MessagesPending | IngressPending | PolicyBlocker

  datatype Report = Report(
    pendingMail: nat, ingress: nat, due: nat, blockers: set<nat>, traces: nat, faults: nat, logs: nat,
    nextDeadline: Option<int>, blocks: set<Block>, reason: Reason)

  const DefaultPolicy: Policy := Policy(Never, CriticalOnly, Never, 0, 0, true, true)

  /** The bits an actor's callback adds: the instance's callback, else the descriptor's. */
  function Blockers(a: ActorView): set<nat> {
    if !a.enabled then {}
    else if a.instance.Some? then a.instance.value
    else if a.descriptor.Some? then a.descriptor.value
    else {}
  }

  predicate NoMail(g: Graph) {
    forall i :: 0 <= i < |g.actors| && g.actors[i].enabled ==> g.actors[i].pendingMail == 0
  }

  predicate NoDueTimer(g: Graph, now: nat) {
    forall i :: 0 <= i < |g.timers| && g.timers[i].active ==> !Due(Wrapping, now, g.timers[i].deadline)
  }

  predicate NoBlockingActor(g: Graph) {
    forall i :: 0 <= i < |g.actors| ==> Blockers(g.actors[i]) == {}
  }

  predicate NoCritical(g: Graph) {
    forall i :: 0 <= i < |g.faults| ==> g.faults[i] != Critical
  }

  /** The next deadline leaves the window the policy asks for. */
  predicate FarEnough(g: Graph, now: nat, p: Policy) {
    var d := Earliest(Wrapping, g.timers, |g.timers|);
    d.Some? ==> && (p.nearGuard > 0 ==> Word(d.value - now) > p.nearGuard)
                && (p.minWindow > 0 ==> Word(d.value - now) >= p.minWindow)
  }

  /** Nothing the policy holds against sleeping. */
  predicate PolicyClear(g: Graph, now: nat, p: Policy) {
    && (p.blockDueTimers ==> NoDueTimer(g, now))
    && (p.blockActors ==> NoBlockingActor(g))
    && (p.trace == UntilDrained ==> g.traces == 0)
    && (p.fault == UntilDrained ==> g.faults == [])
    && (p.fault == CriticalOnly ==> NoCritical(g))
    && (p.log == UntilDrained ==> g.logs.None? || g.logs.value == 0)
    && FarEnough(g, now, p)
  }

  /** The runtime may sleep: no mail, no ingress, and nothing the policy holds against it. */
  predicate Quiescent(g: Graph, now: nat, p: Policy) {
    NoMail(g) && g.ingressWrite == g.ingressRead && PolicyClear(g, now, p)
  }

  /** Mail of the enabled actors among the first `n`. */
  function MailOf(g: Graph, n: nat): nat
    requires n <= |g.actors|
  {
    if n == 0 then 0 else MailOf(g, n - 1) + if g.actors[n - 1].enabled then g.actors[n - 1].pendingMail else 0
  }

  /** Due timers among the first `n`. */
  function DueAmong(g: Graph, now: nat, n: nat): nat
    requires n <= |g.timers|
  {
    if n == 0 then 0
    else DueAmong(g, now, n - 1) + if g.timers[n - 1].active && Due(Wrapping, now, g.timers[n - 1].deadline) then 1
        else 0
  }

  /** The report the check hands out, apart from its verdict. */
  ghost predicate Accurate(g: Graph, now: nat, r: Report) {
    && r.pendingMail == MailOf(g, |g.actors|)
    && r.ingress == (g.ingressWrite - g.ingressRead) % WORD
    && r.due == DueAmong(g, now, |g.timers|)
    && r.blockers == (set i, b | 0 <= i < |g.actors| && b in Blockers(g.actors[i]) :: b)
    && r.traces == g.traces && r.faults == |g.faults| && r.logs == (if g.logs.Some? then g.logs.value else 0)
    && r.nextDeadline == Earliest(Wrapping, g.timers, |g.timers|)
  }

  /** Which conditions of the policy block. */
  ghost predicate BlocksAre(g: Graph, now: nat, p: Policy, blocks: set<Block>) {
    && (DueTimer in blocks <==> p.blockDueTimers && !NoDueTimer(g, now))
    && (ActorBlock in blocks <==> p.blockActors && !NoBlockingActor(g))
    && (TraceBlock in blocks <==> p.trace == UntilDrained && g.traces > 0)
    && (FaultBlock in blocks <==>
          || (p.fault == UntilDrained && g.faults != [])
          || (p.fault == CriticalOnly && !NoCritical(g)))
    && (LogBlock in blocks <==> p.log == UntilDrained && g.logs.Some? && g.logs.value > 0)
    && (NearDeadline in blocks <==> !FarEnough(g, now, p))
  }

  // ----- what the deadline block means in true time -----

  /** On true time every pending timer leaves what the policy asks for. */
  ghost predicate LeavesWindow(s: seq<Timer>, now: int, p: Policy) {
    forall i :: 0 <= i < |s| && s[i].active ==>
                  && s[i].deadline > now
                  && (p.nearGuard > 0 ==> s[i].deadline - now > p.nearGuard)
                  && (p.minWindow > 0 ==> s[i].deadline - now >= p.minWindow)
  }

  /** Deadlines within half a word of now and of each other. */
  ghost predicate AllNear(s: seq<Timer>, now: int) {
    && (forall i :: 0 <= i < |s| && s[i].active ==> Near(now, s[i].deadline))
    && (forall i, j :: 0 <= i < |s| && 0 <= j < |s| && s[i].active && s[j].active ==>
                         Near(s[i].deadline, s[j].deadline))
  }

  lemma WordDistance(d: int, now: int)
    requires 0 <= d - now < WORD
    ensures Word(Word(d) - Word(now)) == d - now
  {
  }

  lemma NoDueIsTrue(g: Graph, s: seq<Timer>, now: int)
    requires g.timers == Represent(s) && AllNear(s, now)
    ensures NoDueTimer(g, Word(now)) <==> forall i :: 0 <= i < |s| && s[i].active ==> s[i].deadline > now
  {
    forall i | 0 <= i < |s| && s[i].active
      ensures Due(Wrapping, Word(now), g.timers[i].deadline) <==> s[i].deadline <= now
    {
      DueIsExact(now, s[i].deadline);
    }
  }

  /**
   With no timer due, looking at the earliest deadline on the 32-bit clock is enough: nothing is
   due and the deadline block is clear exactly when every pending timer leaves the window the
   policy asks for in true time.
   */
  lemma WindowIsLeft(g: Graph, s: seq<Timer>, now: int, p: Policy)
    requires g.timers == Represent(s) && AllNear(s, now)
    ensures NoDueTimer(g, Word(now)) && FarEnough(g, Word(now), p) <==> LeavesWindow(s, now, p)
  {
    NoDueIsTrue(g, s, now);
    EarliestIsMinimum(s, |s|);
    hide NoDueTimer, Word, Due, Earliest, Represent;
    var first := Earliest(Unbounded, s, |s|);
    if first.Some? && forall i :: 0 <= i < |s| && s[i].active ==> s[i].deadline > now {
      var i :| 0 <= i < |s| && s[i].active && s[i].deadline == first.value;
      WordDistance(first.value, now);
    }
  }

  /** A policy that does not hold due timers against sleeping can miss a near one: the overdue one hides it. */
  lemma OverdueHidesNear(g: Graph)
    requires g.timers == [Idle.(active := true, deadline := 0), Idle.(active := true, deadline := 11)]
    ensures FarEnough(g, 10, DefaultPolicy.(nearGuard := 5, blockDueTimers := false))
    ensures Word(g.timers[1].deadline - 10) <= 5
  {
    assert Earliest(Wrapping, g.timers, 1) == Some(0);
    assert Due(Wrapping, 11, 0);
    assert Earliest(Wrapping, g.timers, 2) == Some(0);
  }

  class QuiescenceService {
    var accepted: nat
    var rejected: nat

    constructor ()
      ensures accepted == rejected == 0
    {
      accepted, rejected := 0, 0;
    }

    method ScanActors(g: Graph) returns (mail: nat, blockers: set<nat>)
      ensures mail == MailOf(g, |g.actors|) && (mail == 0 <==> NoMail(g))
      ensures blockers == set i, b | 0 <= i < |g.actors| && b in Blockers(g.actors[i]) :: b
      ensures blockers == {} <==> NoBlockingActor(g)
    {
      mail, blockers := 0, {};
      var i := 0;
      while i < |g.actors|
        invariant i <= |g.actors|
        invariant mail == MailOf(g, i)
        invariant mail == 0 <==> forall j :: 0 <= j < i && g.actors[j].enabled ==> g.actors[j].pendingMail == 0
        invariant forall b :: b in blockers <==> exists j :: 0 <= j < i && b in Blockers(g.actors[j])
      {
        if g.actors[i].enabled {
          mail := mail + g.actors[i].pendingMail;
          if g.actors[i].instance.Some? {
            blockers := blockers + g.actors[i].instance.value;
          } else if g.actors[i].descriptor.Some? {
            blockers := blockers + g.actors[i].descriptor.value;
          }
        }
        i := i + 1;
      }
      assert blockers == set i, b | 0 <= i < |g.actors| && b in Blockers(g.actors[i]) :: b;
      if blockers == {} {
        forall j | 0 <= j < |g.actors| ensures Blockers(g.actors[j]) == {} {
          assert forall b :: b in Blockers(g.actors[j]) ==> b in blockers;
        }
      }
    }

    method DueTimers(g: Graph, now: nat) returns (count: nat)
      ensures count == DueAmong(g, now, |g.timers|) && (count == 0 <==> NoDueTimer(g, now))
    {
      count := 0;
      for i := 0 to |g.timers|
        invariant count == DueAmong(g, now, i)
        invariant count == 0 <==> forall j :: 0 <= j < i && g.timers[j].active ==>
                    !Due(Wrapping, now, g.timers[j].deadline)
      {
        if g.timers[i].active && Due(Wrapping, now, g.timers[i].deadline) {
          count := count + 1;
        }
      }
    }

    method HasCritical(g: Graph) returns (found: bool)
      ensures found <==> !NoCritical(g)
    {
      for i := 0 to |g.faults|
        invariant forall j :: 0 <= j < i ==> g.faults[j] != Critical
      {
        if g.faults[i] == Critical {
          return true;
        }
      }
      return false;
    }

    /** The deadline blocks of a policy. */
    method NearBlocks(g: Graph, now: nat, p: Policy) returns (deadline: Option<int>, blocks: set<Block>)
      ensures deadline == Earliest(Wrapping, g.timers, |g.timers|)
      ensures blocks == if FarEnough(g, now, p) then {} else {NearDeadline}
    {
      blocks := {};
      deadline := Earliest(Wrapping, g.timers, |g.timers|);
      if deadline.Some? {
        if p.nearGuard > 0 && Word(deadline.value - now) <= p.nearGuard {
          blocks := blocks + {NearDeadline};
        }
        if p.minWindow > 0 && Word(deadline.value - now) < p.minWindow {
          blocks := blocks + {NearDeadline};
        }
      }
    }

    /** Collect the blocks the policy raises on what was counted. */
    method PolicyBlocks(g: Graph, now: nat, p: Policy, due: nat, blockers: set<nat>, logs: nat, near: set<Block>)
      returns (blocks: set<Block>)
      requires due == 0 <==> NoDueTimer(g, now)
      requires blockers == {} <==> NoBlockingActor(g)
      requires logs == if g.logs.Some? then g.logs.value else 0
      requires near == if FarEnough(g, now, p) then {} else {NearDeadline}
      ensures BlocksAre(g, now, p, blocks) && (blocks == {} <==> PolicyClear(g, now, p))
    {
      hide NoDueTimer, NoBlockingActor, NoCritical, FarEnough, PolicyClear;
      blocks := near;
      if p.blockDueTimers && due > 0 {
        blocks := blocks + {DueTimer};
      }
      if p.blockActors && blockers != {} {
        blocks := blocks + {ActorBlock};
      }
      if p.trace == UntilDrained && g.traces > 0 {
        blocks := blocks + {TraceBlock};
      }
      var critical := HasCritical(g);
      if (p.fault == UntilDrained && |g.faults| > 0) || (p.fault == CriticalOnly && critical) {
        blocks := blocks + {FaultBlock};
      }
      if p.log == UntilDrained && logs > 0 {
        blocks := blocks + {LogBlock};
      }
      NoBlocks(g, now, p, blocks);
    }

    /** The check succeeds exactly when the runtime is quiescent, and says why when it is not. */
    method IsQuiescentAt(g: Graph, now: nat, p: Policy) returns (rc: Result, r: Report)
      modifies this
      ensures rc == if Quiescent(g, now, p) then Ok else ErrNotReady
      ensures accepted + rejected == old(accepted) + old(rejected) + 1
      ensures accepted == old(accepted) + if rc == Ok then 1 else 0
      ensures Accurate(g, now, r) && BlocksAre(g, now, p, r.blocks)
      ensures r.pendingMail == 0 <==> NoMail(g)
      ensures r.due == 0 <==> NoDueTimer(g, now)
      ensures r.reason == if !NoMail(g) then MessagesPending
                          else if g.ingressWrite != g.ingressRead then IngressPending
                          else if rc == Ok then AllClear else PolicyBlocker
    {
      hide NoMail, NoDueTimer, NoBlockingActor, PolicyClear, BlocksAre, MailOf, DueAmong;
      var mail, blockers := ScanActors(g);
      var ingress := (g.ingressWrite + WORD - g.ingressRead) % WORD;
      var due := DueTimers(g, now);
      var logs := if g.logs.Some? then g.logs.value else 0;
      var deadline, near := NearBlocks(g, now, p);
      var blocks := PolicyBlocks(g, now, p, due, blockers, logs, near);
      var reason := if mail > 0 then MessagesPending else if ingress > 0 then IngressPending
                    else if blocks != {} then PolicyBlocker else AllClear;
      r := Report(mail, ingress, due, blockers, g.traces, |g.faults|, logs, deadline, blocks, reason);
      if mail == 0 && ingress == 0 && blocks == {} {
        accepted := accepted + 1;
        return Ok, r;
      }
      rejected := rejected + 1;
      return ErrNotReady, r;
    }
  }

  /** A condition of the policy that does not block leaves no block. */
  lemma NoBlocks(g: Graph, now: nat, p: Policy, blocks: set<Block>)
    requires BlocksAre(g, now, p, blocks)
    ensures blocks == {} <==> PolicyClear(g, now, p)
  {
    hide NoDueTimer, NoBlockingActor, NoCritical, FarEnough;
    if PolicyClear(g, now, p) {
      forall b: Block ensures b !in blocks {
        match b
        case DueTimer =>
        case ActorBlock =>
        case TraceBlock =>
        case FaultBlock =>
        case LogBlock =>
        case NearDeadline =>
      }
    }
  }
}
