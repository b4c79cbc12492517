/**
 The runtime loop (`runtime/src/ev_runtime_loop.c`): collect ingress and drain the
 scheduler until nothing new arrives, then publish due timers and drain again, all
 on budgets.  Ports are arbitrary functions of an environment; handlers may arm and
 cancel timers, because the timers are part of the world they run in.
 */
module RuntimeLoop {
  import opened Results
  import opened Bits
  import opened Messages
  import opened Mailboxes
  import opened Ownership
  import opened ActorRuntime
  import opened Timers
  import DP = DomainPump
  import SP = SystemPump

  datatype Policy = Policy(
    maxPumpCalls: nat, maxMessages: nat, maxTurns: nat, maxIrqSamples: nat, maxNetSamples: nat,
    timerBudget: nat, turnBudget: nat,
    skipTimersWhenPending: bool, runSchedulerAfterTimers: bool, skipTimers: bool)

  const DefaultPolicy: Policy := Policy(10, 32, 10, 16, 16, 1, 4, true, true, false)

  datatype Report = Report(
    pumpCalls: nat, turns: nat, messages: nat, irqSamples: nat, netSamples: nat,
    timersPublished: nat, exhausted: bool, partial: bool)

  const NoReport: Report := Report(0, 0, 0, 0, 0, 0, false, false)

  /** What a poll measures around what it does. */
  datatype Measured = Measured(pendingBefore: nat, pendingAfter: nat, elapsed: nat)

  /** Milliseconds between two clock readings, modulo the 32-bit clock; none if either failed. */
  function Elapsed(start: (Result, nat), end: (Result, nat)): nat {
    if start.0 == Ok && end.0 == Ok then (end.1 - start.1) % WORD else 0
  }

  /** The world handlers run in: the timer service and everything else. */
  datatype Board<E> = Board(timers: seq<Timer>, env: E)

  /** A collector posts what it found and says how many samples it took. */
  datatype Collected<E> = Collected(env: E, acts: seq<ClientAction>, irq: nat, net: nat, rc: Result)

  datatype Delivered<E> = Delivered(env: E, acts: seq<ClientAction>, ok: bool)

  datatype Ports<!E> = Ports(
    collect: (E, Report) -> Collected<E>,
    now: E -> (Result, nat),
    deliver: (E, Firing) -> Delivered<E>,
    workPending: (E, Report) -> bool)

  predicate Exhausted(p: Policy, r: Report) {
    || r.pumpCalls >= p.maxPumpCalls
    || r.messages >= p.maxMessages
    || r.turns >= p.maxTurns
    || r.irqSamples >= p.maxIrqSamples
    || r.netSamples >= p.maxNetSamples
  }

  /** A timer delivery that works on the kernel through client actions. */
  function KernelPublisher<E>(c: Catalog, deliver: (E, Firing) -> Delivered<E>): Publisher<(E, State)> {
    (w: (E, State), f: Firing) =>
      var d := deliver(w.0, f);
      ((d.env, ClientRun(c, w.1, d.acts)), d.ok)
  }

  lemma {:induction false} PublishDrainsNothing<E>(c: Catalog, deliver: (E, Firing) -> Delivered<E>, s: seq<Timer>,
                                                   i: nat,
                                                   now: int, w: (E, State), budget: nat)
    requires i <= |s| && BoxesValid(w.1)
    ensures
      var o := PublishFrom(Wrapping, s, i, now, w, KernelPublisher(c, deliver), budget);
      BoxesValid(o.world.1) && NothingDrained(w.1, o.world.1)
    decreases |s| - i
  {
    if i < |s| && budget > 0 {
      if s[i].active && Due(Wrapping, now, s[i].deadline) {
        var f := Firing(i, s[i].target, s[i].event, s[i].arg0);
        var d := deliver(w.0, f);
        ClientRunDrainsNothing(c, w.1, d.acts);
        PublishDrainsNothing(c, deliver, s[i := Fired(Wrapping, s[i])], i + 1, now,
                             (d.env, ClientRun(c, w.1, d.acts)), budget - (if d.ok then 1 else 0));
      } else {
        PublishDrainsNothing(c, deliver, s, i + 1, now, w, budget);
      }
    }
  }

  /** The environment accepts every timer delivery. */
  ghost predicate AlwaysDelivers<E(!new)>(ports: Ports<E>) {
    forall e: E, f: Firing :: ports.deliver(e, f).ok
  }

  lemma KernelPublisherAccepts<E(!new)>(c: Catalog, ports: Ports<E>)
    requires AlwaysDelivers(ports)
    ensures forall v: (E, State), f: Firing :: KernelPublisher(c, ports.deliver)(v, f).1
  {
    forall v: (E, State), f: Firing
      ensures KernelPublisher(c, ports.deliver)(v, f).1
    {
      assert ports.deliver(v.0, f).ok;
    }
  }

  // ----- what a poll does -----

  /** A step of a poll and where it led: ingress collected, the scheduler polled, due timers published. */
  datatype Event<E> =
    | Collected(seen: Report, irq: nat, net: nat, rc: Result, to: Point<Board<E>>)
    | Polled(turnBudget: nat, calls: seq<Call>, turns: nat, messages: nat, rc: Result, to: Point<Board<E>>)
    | Published(now: nat, budget: nat, count: nat, to: Point<Board<E>>)

  function Pass<E>(c: Catalog, ports: Ports<E>, x: Point<Board<E>>, now: nat, budget: nat): (o: Published<(E, State)>) {
    PublishFrom(Wrapping, x.world.timers, 0, now, (x.world.env, x.kernel), KernelPublisher(c, ports.deliver), budget)
  }

  /** A pass drains nobody, uses up rank if it publishes, and if it does not, found nothing due. */
  lemma PassDoes<E(!new)>(c: Catalog, ports: Ports<E>, x: Point<Board<E>>, now: nat, budget: nat)
    requires BoxesValid(x.kernel)
    ensures
      var o := Pass(c, ports, x, now, budget);
      && BoxesValid(o.world.1) && NothingDrained(x.kernel, o.world.1)
      && (o.count > 0 ==> TotalRank(o.timers, now) < TotalRank(x.world.timers, now))
      && (o.count == 0 && budget > 0 && AlwaysDelivers(ports) ==>
            NoneDue(o.timers, now) && o.timers == x.world.timers && o.world == (x.world.env, x.kernel))
  {
    hide BoxesValid, AlwaysDelivers, TotalRank;
    var timers, w := x.world.timers, (x.world.env, x.kernel);
    var publish := KernelPublisher(c, ports.deliver);
    PublishLowersRank(timers, 0, now, w, publish, budget);
    PublishDrainsNothing(c, ports.deliver, timers, 0, now, w, budget);
    if Pass(c, ports, x, now, budget).count == 0 && budget > 0 && AlwaysDelivers(ports) {
      KernelPublisherAccepts(c, ports);
      NothingPublished(timers, 0, now, w, publish, budget);
    }
  }

  /** An event is what its port, its timers or its handlers make of point `x`. */
  ghost predicate Happens<E>(c: Catalog, handle: Handler<Board<E>>, ports: Ports<E>, x: Point<Board<E>>, e: Event<E>) {
    match e
    case Collected(seen, irq, net, rc, to) =>
      var d := ports.collect(x.world.env, seen);
      irq == d.irq && net == d.net && rc == d.rc && to == Point(x.world.(env := d.env), ClientRun(c, x.kernel, d.acts))
    case Polled(_, calls, _, messages, _, to) =>
      && Performed(c, handle, x, calls, to) && messages <= |calls|
      && ((forall i :: 0 <= i < |calls| ==> calls[i].rc != ErrEmpty) ==> messages == |calls|)
    case Published(now, budget, count, to) =>
      var o := Pass(c, ports, x, now, budget);
      count == o.count && to == Point(Board(o.timers, o.world.0), o.world.1)
  }

  ghost function EndOf<E>(x: Point<Board<E>>, es: seq<Event<E>>): Point<Board<E>> {
    if es == [] then x else es[|es| - 1].to
  }

  /** Each event happened where the one before it had led. */
  ghost predicate Happened<E>(c: Catalog, handle: Handler<Board<E>>, ports: Ports<E>, x: Point<Board<E>>,
                              es: seq<Event<E>>)
    decreases |es|
  {
    es != [] ==>
      && Happened(c, handle, ports, x, es[..|es| - 1])
      && Happens(c, handle, ports, EndOf(x, es[..|es| - 1]), es[|es| - 1])
  }

  lemma HappenedOn<E>(c: Catalog, handle: Handler<Board<E>>, ports: Ports<E>, x: Point<Board<E>>, es: seq<Event<E>>,
                      e: Event<E>)
    requires Happened(c, handle, ports, x, es) && Happens(c, handle, ports, EndOf(x, es), e)
    ensures Happened(c, handle, ports, x, es + [e]) && EndOf(x, es + [e]) == e.to && Sum(es + [e]) == Add(Sum(es), e)
  {
    hide Happens, Add;
    assert (es + [e])[..|es + [e]| - 1] == es;
  }

  function Add<E>(r: Report, e: Event<E>): Report {
    match e
    case Collected(_, irq, net, _, _) => r.(irqSamples := r.irqSamples + irq, netSamples := r.netSamples + net)
    case Polled(_, _, turns, messages, _, _) =>
      r.(pumpCalls := r.pumpCalls + 1, turns := r.turns + turns, messages := r.messages + messages)
    case Published(_, _, count, _) => r.(timersPublished := r.timersPublished + count)
  }

  /** The counters of a report: one per poll, and what the events brought. */
  function Sum<E>(es: seq<Event<E>>): Report
    decreases |es|
  {
    if es == [] then NoReport else Add(Sum(es[..|es| - 1]), es[|es| - 1])
  }

  // ----- ownership across a poll -----

  /** Every delivery of a pass kept the ownership discipline. */
  ghost predicate PassDisciplined<E>(c: Catalog, deliver: (E, Firing) -> Delivered<E>, s: seq<Timer>, i: nat, now: int,
                                     w: (E, State), budget: nat)
    requires i <= |s|
    decreases |s| - i
  {
    if i == |s| || budget == 0 then true
    else if s[i].active && Due(Wrapping, now, s[i].deadline) then
      var d := deliver(w.0, Firing(i, s[i].target, s[i].event, s[i].arg0));
      && ClientDisciplined(c, w.1, d.acts)
      && PassDisciplined(c, deliver, s[i := Fired(Wrapping, s[i])], i + 1, now, (d.env, ClientRun(c, w.1, d.acts)),
                         budget - (if d.ok then 1 else 0))
    else PassDisciplined(c, deliver, s, i + 1, now, w, budget)
  }

  lemma {:induction false} PassKeeps<E>(c: Catalog, deliver: (E, Firing) -> Delivered<E>, s: seq<Timer>, i: nat,
                                        now: int,
                                        w: (E, State), budget: nat)
    requires i <= |s| && Inv(w.1) && PassDisciplined(c, deliver, s, i, now, w, budget)
    ensures Inv(PublishFrom(Wrapping, s, i, now, w, KernelPublisher(c, deliver), budget).world.1)
    decreases |s| - i
  {
    hide Inv, ClientDisciplined, ClientRun;
    if i < |s| && budget > 0 {
      if s[i].active && Due(Wrapping, now, s[i].deadline) {
        var d := deliver(w.0, Firing(i, s[i].target, s[i].event, s[i].arg0));
        ClientRunKeeps(c, w.1, d.acts);
        PassKeeps(c, deliver, s[i := Fired(Wrapping, s[i])], i + 1, now, (d.env, ClientRun(c, w.1, d.acts)),
                  budget - (if d.ok then 1 else 0));
      } else {
        PassKeeps(c, deliver, s, i + 1, now, w, budget);
      }
    }
  }

  /** The port, the timer deliveries or the handlers of an event kept the discipline. */
  ghost predicate EventDisciplined<E>(c: Catalog, handle: Handler<Board<E>>, ports: Ports<E>, x: Point<Board<E>>,
                                      e: Event<E>) {
    match e
    case Collected(seen, _, _, _, _) => ClientDisciplined(c, x.kernel, ports.collect(x.world.env, seen).acts)
    case Polled(_, calls, _, _, _, _) => WellBehaved(c, handle, x, calls)
    case Published(now, budget, _, _) =>
      PassDisciplined(c, ports.deliver, x.world.timers, 0, now, (x.world.env, x.kernel), budget)
  }

  ghost predicate AllDisciplined<E>(c: Catalog, handle: Handler<Board<E>>, ports: Ports<E>, x: Point<Board<E>>,
                                    es: seq<Event<E>>)
    decreases |es|
  {
    es != [] ==>
      && AllDisciplined(c, handle, ports, x, es[..|es| - 1])
      && EventDisciplined(c, handle, ports, EndOf(x, es[..|es| - 1]), es[|es| - 1])
  }

  lemma EventKeeps<E>(c: Catalog, handle: Handler<Board<E>>, ports: Ports<E>, x: Point<Board<E>>, e: Event<E>)
    requires Inv(x.kernel) && Happens(c, handle, ports, x, e) && EventDisciplined(c, handle, ports, x, e)
    ensures Inv(e.to.kernel)
  {
    hide Inv, ClientDisciplined, WellBehaved, PassDisciplined, Performed, ClientRun;
    match e {
      case Collected(seen, _, _, _, _) => ClientRunKeeps(c, x.kernel, ports.collect(x.world.env, seen).acts);
      case Polled(_, calls, _, _, _, to) => PerformedKeeps(c, handle, x, calls, to);
      case Published(now, budget, _, _) =>
        PassKeeps(c, ports.deliver, x.world.timers, 0, now, (x.world.env, x.kernel), budget);
    }
  }

  /** Disciplined handlers and ports keep every reference count equal to its owners over a whole poll. */
  lemma {:induction false} HappenedKeeps<E>(c: Catalog, handle: Handler<Board<E>>, ports: Ports<E>, x: Point<Board<E>>,
                                            es: seq<Event<E>>)
    requires Inv(x.kernel) && Happened(c, handle, ports, x, es) && AllDisciplined(c, handle, ports, x, es)
    ensures Inv(EndOf(x, es).kernel)
    decreases |es|
  {
    hide Inv, Happens, EventDisciplined;
    if es != [] {
      HappenedKeeps(c, handle, ports, x, es[..|es| - 1]);
      EventKeeps(c, handle, ports, EndOf(x, es[..|es| - 1]), es[|es| - 1]);
    }
  }

  // ----- the protocol of a poll -----

  /** Every budgeted counter of the report is below its limit. */
  predicate InLimits(p: Policy, r: Report) {
    && r.pumpCalls < p.maxPumpCalls && r.messages < p.maxMessages && r.turns < p.maxTurns
    && r.irqSamples < p.maxIrqSamples && r.netSamples < p.maxNetSamples
  }

  predicate NonePublished<E>(es: seq<Event<E>>) {
    forall i :: 0 <= i < |es| ==> !es[i].Published?
  }

  /** Samples of the last collection. */
  function LastSamples<E>(es: seq<Event<E>>): nat
    decreases |es|
  {
    if es == [] then 0
    else if es[|es| - 1].Collected? then es[|es| - 1].irq + es[|es| - 1].net
    else LastSamples(es[..|es| - 1])
  }

  /** Timers fired by the last pass. */
  function LastFired<E>(es: seq<Event<E>>): nat
    decreases |es|
  {
    if es == [] then 0
    else if es[|es| - 1].Published? then es[|es| - 1].count
    else LastFired(es[..|es| - 1])
  }

  /** The collector or a handler reported an error; a scheduler that ran out of turns did not. */
  predicate Fails<E>(e: Event<E>) {
    match e
    case Collected(_, _, _, rc, _) => rc != Ok
    case Polled(_, _, _, _, rc, _) => rc != Ok && rc != ErrPartial
    case Published(_, _, _, _) => false
  }

  datatype Step = CollectStep | PollStep | PublishStep

  function StepOf<E>(e: Event<E>): Step {
    match e
    case Collected(_, _, _, _, _) => CollectStep
    case Polled(_, _, _, _, _, _) => PollStep
    case Published(_, _, _, _) => PublishStep
  }

  /**
   What a poll does next, from what it did so far and whether mail is waiting: it starts by
   collecting, ends on an error or an exhausted budget, polls while mail waits, collects
   while samples arrive, and then publishes while timers fire, all as the policy says.
   */
  function NextStep<E>(p: Policy, es: seq<Event<E>>, mail: bool): Option<Step> {
    if es == [] then Some(CollectStep)
    else if Fails(es[|es| - 1]) || !InLimits(p, Sum(es)) then None
    else if mail && (NonePublished(es) || p.runSchedulerAfterTimers) then Some(PollStep)
    else if NonePublished(es) && LastSamples(es) > 0 then Some(CollectStep)
    else if p.skipTimers || (p.skipTimersWhenPending && mail) then None
    else if NonePublished(es) || LastFired(es) > 0 then Some(PublishStep)
    else None
  }

  /** The poll ended with the error `rc` of its last event. */
  predicate FailedWith<E>(es: seq<Event<E>>, rc: Result) {
    es != [] && Fails(es[|es| - 1]) && es[|es| - 1].rc == rc
  }

  /** Mail is polled for as long as nothing failed and every limit is kept. */
  lemma PollsNow<E>(p: Policy, es: seq<Event<E>>)
    requires es != [] && !Fails(es[|es| - 1]) && InLimits(p, Sum(es))
    requires NonePublished(es) || p.runSchedulerAfterTimers
    ensures NextStep(p, es, true) == Some(PollStep)
  {
  }

  lemma BlamedInside(log: seq<Call>, from: nat, rc: Result)
    requires DP.Blamed(log, from, rc)
    ensures DP.Blamed(log[from..], 0, rc)
  {
    var calls := log[from..];
    assert calls[|calls| - 1] == log[|log| - 1];
    if DP.NoneEmpty(calls, 0) {
      forall j | from <= j < |log|
        ensures log[j].rc != ErrEmpty
      {
        assert calls[j - from] == log[j];
      }
    }
  }

  /** What one more event changes of the past a poll looks at. */
  lemma Appended<E>(es: seq<Event<E>>, e: Event<E>)
    ensures NonePublished(es + [e]) <==> NonePublished(es) && !e.Published?
    ensures LastSamples(es + [e]) == if e.Collected? then e.irq + e.net else LastSamples(es)
    ensures LastFired(es + [e]) == if e.Published? then e.count else LastFired(es)
  {
    assert (es + [e])[..|es + [e]| - 1] == es;
    if NonePublished(es + [e]) {
      assert forall i :: 0 <= i < |es| ==> es[i] == (es + [e])[i];
      assert (es + [e])[|es|] == e;
    }
  }

  /** Scheduler polls were added: the past looks the same but for them. */
  ghost predicate OnlyPolls<E>(es: seq<Event<E>>, fs: seq<Event<E>>) {
    && es <= fs && (forall i :: |es| <= i < |fs| ==> fs[i].Polled?)
    && (NonePublished(es) <==> NonePublished(fs))
    && LastSamples(es) == LastSamples(fs) && LastFired(es) == LastFired(fs)
  }

  lemma OnePollMore<E>(es: seq<Event<E>>, fs: seq<Event<E>>, e: Event<E>)
    requires OnlyPolls(es, fs) && e.Polled?
    ensures OnlyPolls(es, fs + [e]) && (NonePublished(fs + [e]) <==> NonePublished(fs))
  {
    hide NonePublished, LastSamples, LastFired;
    Appended(fs, e);
  }

  class RuntimeLoop<E(!new)> {
    const system: SP.SystemPump<Board<E>>
    const ports: Ports<E>

    ghost predicate Valid()
      reads system`slots, system.registry
    {
      system.Valid()
    }

    constructor (system: SP.SystemPump<Board<E>>, ports: Ports<E>)
      requires system.Valid()
      ensures Valid() && this.system == system && this.ports == ports
    {
      this.system, this.ports := system, ports;
    }

    /** Timers are published and followed by a scheduler run, and deliveries succeed. */
    ghost predicate ServesTimers(p: Policy) {
      p.runSchedulerAfterTimers && !p.skipTimers && p.timerBudget > 0 && AlwaysDelivers(ports)
    }

    /**
     The parameters and answers of an event: a collection sees the report so far, timers are
     published at one instant, and a scheduler poll ends without mail, with its turns spent,
     or with an error that is its last handler's.
     */
    ghost predicate Conforms(p: Policy, at: nat, r: Report, e: Event<E>)
      reads system`slots, system.registry`bound
    {
      match e
      case Collected(seen, _, _, _, _) => seen == r
      case Polled(turnBudget, calls, turns, _, rc, to) =>
        && turnBudget == p.turnBudget && turns <= turnBudget && rc != ErrEmpty
        && (rc == Ok ==> turns > 0 && !system.MailIn(to.kernel))
        && (rc != Ok ==>
              DP.Blamed(calls, 0, rc) || (rc == ErrPartial && turns == turnBudget && system.MailIn(to.kernel)))
      case Published(now, budget, _, _) => now == at && budget == p.timerBudget
    }

    /** Every event is the one the protocol asks for, with the parameters the policy gives. */
    ghost predicate Follows(p: Policy, at: nat, x: Point<Board<E>>, es: seq<Event<E>>)
      reads system`slots, system.registry`bound
    {
      forall i :: 0 <= i < |es| ==>
                    && NextStep(p, es[..i], system.MailIn(EndOf(x, es[..i]).kernel)) == Some(StepOf(es[i]))
                    && Conforms(p, at, Sum(es[..i]), es[i])
    }

    lemma FollowsOn(p: Policy, at: nat, x: Point<Board<E>>, es: seq<Event<E>>, e: Event<E>)
      requires Follows(p, at, x, es) && Conforms(p, at, Sum(es), e)
      requires NextStep(p, es, system.MailIn(EndOf(x, es).kernel)) == Some(StepOf(e))
      ensures Follows(p, at, x, es + [e])
    {
      hide NextStep, Conforms, EndOf, Sum, SP.SystemPump.MailIn;
      var fs := es + [e];
      forall i | 0 <= i < |fs|
        ensures NextStep(p, fs[..i], system.MailIn(EndOf(x, fs[..i]).kernel)) == Some(StepOf(fs[i]))
        ensures Conforms(p, at, Sum(fs[..i]), fs[i])
      {
        if i < |es| {
          assert fs[..i] == es[..i] && fs[i] == es[i];
        } else {
          assert fs[..i] == es && fs[i] == e;
        }
      }
    }

    /** As long as no timer was published, the instant of publishing is open. */
    lemma FollowsAt(p: Policy, at: nat, x: Point<Board<E>>, es: seq<Event<E>>, now: nat)
      requires Follows(p, at, x, es) && NonePublished(es)
      ensures Follows(p, now, x, es)
    {
      hide NextStep, Sum, EndOf, SP.SystemPump.MailIn;
    }

    /** The instant is the clock's at the first pass. */
    ghost predicate ReadAt(at: nat, x: Point<Board<E>>, es: seq<Event<E>>) {
      forall i :: 0 <= i < |es| && es[i].Published? && NonePublished(es[..i]) ==>
                    ports.now(EndOf(x, es[..i]).world.env) == (Ok, at)
    }

    /**
     When an event may happen: the first is a collection; all others follow a success, with
     every counter of the report so far below its limit; the scheduler is polled when mail
     waits; samples are collected again before any timer, if some arrived; and timers are
     published unless the policy skips them, and never over waiting mail that the policy or
     a scheduler run after timers would have to put first.
     */
    ghost predicate Allowed(p: Policy, at: nat, x: Point<Board<E>>, es: seq<Event<E>>, i: nat)
      requires i < |es|
      reads system`slots, system.registry`bound
    {
      && (i == 0 ==> es[i].Collected?)
      && (i > 0 ==> !Fails(es[i - 1]) && InLimits(p, Sum(es[..i])))
      && (es[i].Polled? ==>
            system.MailIn(EndOf(x, es[..i]).kernel) && (p.runSchedulerAfterTimers || NonePublished(es[..i])))
      && (i > 0 && es[i].Collected? ==> NonePublished(es[..i]) && LastSamples(es[..i]) > 0)
      && (es[i].Published? ==>
            && !p.skipTimers && es[i].now == at && es[i].budget == p.timerBudget
            && (p.skipTimersWhenPending || p.runSchedulerAfterTimers ==> !system.MailIn(EndOf(x, es[..i]).kernel))
            && (NonePublished(es[..i]) || LastFired(es[..i]) > 0))
    }

    /** Every event of a poll that follows the protocol is allowed. */
    lemma AllAllowed(p: Policy, at: nat, x: Point<Board<E>>, es: seq<Event<E>>)
      requires Follows(p, at, x, es)
      ensures forall i :: 0 <= i < |es| ==> Allowed(p, at, x, es, i)
      ensures p.skipTimers ==> NonePublished(es)
    {
      hide Sum, EndOf, LastSamples, LastFired, NonePublished, SP.SystemPump.MailIn, InLimits, Fails;
      forall i | 0 <= i < |es|
        ensures Allowed(p, at, x, es, i)
      {
        EachAllowed(p, at, x, es, i);
      }
      SkippedIsNone(p, at, x, es);
    }

    lemma EachAllowed(p: Policy, at: nat, x: Point<Board<E>>, es: seq<Event<E>>, i: nat)
      requires Follows(p, at, x, es) && i < |es|
      ensures Allowed(p, at, x, es, i)
    {
      hide Sum, EndOf, LastSamples, LastFired, NonePublished, SP.SystemPump.MailIn, InLimits, Fails;
      if i > 0 {
        assert es[..i][|es[..i]| - 1] == es[i - 1];
      }
    }

    lemma SkippedIsNone(p: Policy, at: nat, x: Point<Board<E>>, es: seq<Event<E>>)
      requires forall i :: 0 <= i < |es| ==> Allowed(p, at, x, es, i)
      ensures p.skipTimers ==> NonePublished(es)
    {
      hide Sum, EndOf, LastSamples, LastFired, SP.SystemPump.MailIn, InLimits, Fails;
      if p.skipTimers {
        forall i | 0 <= i < |es|
          ensures !es[i].Published?
        {
          assert Allowed(p, at, x, es, i);
        }
      }
    }

    /** The events are what happened since `x`, and the counters of the report are theirs. */
    ghost predicate Told(x: Point<Board<E>>, es: seq<Event<E>>, r: Report)
      reads system.registry`world, system.registry`kernel
    {
      && Happened(system.registry.config.catalog, system.registry.handle, ports, x, es)
      && EndOf(x, es) == system.registry.Here()
      && r == Sum(es).(exhausted := r.exhausted)
    }

    lemma ToldOn(x: Point<Board<E>>, es: seq<Event<E>>, e: Event<E>, y: Point<Board<E>>, r: Report, r': Report)
      requires Happened(system.registry.config.catalog, system.registry.handle, ports, x, es) && EndOf(x, es) == y
      requires Happens(system.registry.config.catalog, system.registry.handle, ports, y, e)
               && e.to == system.registry.Here()
      requires r == Sum(es).(exhausted := r.exhausted) && r' == Add(r, e).(exhausted := r'.exhausted)
      ensures Told(x, es + [e], r')
    {
      hide Happens, Happened;
      HappenedOn(system.registry.config.catalog, system.registry.handle, ports, x, es, e);
    }

    /** What the protocol asks for now. */
    ghost function Next(p: Policy, es: seq<Event<E>>): Option<Step>
      requires Valid()
      reads system`slots, system.registry
    {
      NextStep(p, es, system.HasMail())
    }

    /** The limits of the report are those of the events it tells. */
    lemma LimitsTold(p: Policy, x: Point<Board<E>>, es: seq<Event<E>>, r: Report)
      requires Told(x, es, r)
      ensures InLimits(p, Sum(es)) <==> InLimits(p, r)
      ensures Exhausted(p, r) <==> !InLimits(p, r)
      ensures !r.exhausted ==> r == Sum(es)
    {
      hide Happened, EndOf;
      SumIsNotPartial(es);
    }

    /** Collect ingress once. */
    method Collect(p: Policy, r0: Report, ghost x: Point<Board<E>>, ghost es0: seq<Event<E>>)
      returns (rc: Result, r: Report, ghost es: seq<Event<E>>)
      requires Valid() && Told(x, es0, r0) && !r0.exhausted
      requires Follows(p, 0, x, es0) && Next(p, es0) == Some(CollectStep)
      modifies system.registry`world, system.registry`kernel
      ensures Valid() && Told(x, es, r) && Follows(p, 0, x, es)
      ensures exists irq, net ::
                && es == es0 + [Event.Collected(r0, irq, net, rc, system.registry.Here())]
                && r == r0.(irqSamples := r0.irqSamples + irq, netSamples := r0.netSamples + net)
    {
      hide Happened, Follows, NextStep;
      var reg := system.registry;
      ghost var y := reg.Here();
      LimitsTold(p, x, es0, r0);
      system.HasMailIn();
      var c := ports.collect(reg.world.env, r0);
      ClientRunDrainsNothing(reg.config.catalog, reg.kernel, c.acts);
      ghost var e;
      reg.world, reg.kernel := reg.world.(env := c.env), ClientRun(reg.config.catalog, reg.kernel, c.acts);
      rc, r := c.rc, r0.(irqSamples := r0.irqSamples + c.irq, netSamples := r0.netSamples + c.net);
      e := Event.Collected(r0, c.irq, c.net, rc, reg.Here());
      es := es0 + [e];
      ToldOn(x, es0, e, y, r0, r);
      FollowsOn(p, 0, x, es0, e);
    }

    /** One poll of the scheduler, booked in the report. */
    method PollScheduler(p: Policy, r0: Report, ghost at: nat, ghost x: Point<Board<E>>, ghost es0: seq<Event<E>>)
      returns (rc: Result, r: Report, ghost es: seq<Event<E>>)
      requires Valid() && p.turnBudget > 0 && system.HasMail() && Told(x, es0, r0)
      requires Follows(p, at, x, es0) && Next(p, es0) == Some(PollStep)
      modifies system`next, system`stats, system`pollCalls, system`partialReturns, system.Pumps()
      modifies system.registry`world, system.registry`kernel, system.registry`log
      ensures Valid() && Told(x, es, r) && Follows(p, at, x, es) && rc != ErrEmpty
      ensures |es| == |es0| + 1 && es0 <= es && es[|es0|].Polled? && es[|es0|].rc == rc
      ensures r == r0.(pumpCalls := r0.pumpCalls + 1, turns := r.turns, messages := r.messages)
    {
      hide SP.Forward, SP.SystemPump.Fair, SP.SystemPump.Look, SP.SystemPump.Totals, BoxesValid, Happened, Performed;
      hide Follows, NextStep, SP.SystemPump.HasMail, SP.SystemPump.MailIn, SP.SystemPump.MailOf, SP.SystemPump.Reported;
      hide DP.Blamed, SP.SystemPump.AllShared, SP.SystemPump.Accounts, Inv, Registry.BehavedSince, EndOf, Sum;
      var report;
      ghost var lost;
      ghost var m := system.registry.Now();
      system.HasMailIn();
      EndsHere(x, es0, r0);
      if system.Unbound() {
        system.UnboundHasNoMail();
      }
      rc, report, lost := system.PollOnce(p.turnBudget);
      system.HasMailIn();
      r := r0.(pumpCalls := r0.pumpCalls + 1, turns := r0.turns + report.turns,
               messages := r0.messages + report.messages);
      ghost var calls := system.registry.log[|m.log|..];
      ghost var e := Polled(p.turnBudget, calls, report.turns, report.messages, rc, system.registry.Here());
      es := es0 + [e];
      AllReported(calls, m, report.messages, lost);
      if rc != Ok && !report.exhausted {
        BlamedInside(system.registry.log, |m.log|, rc);
      }
      ToldOn(x, es0, e, m.at, r0, r);
      FollowsOn(p, at, x, es0, e);
    }

    lemma EndsHere(x: Point<Board<E>>, es: seq<Event<E>>, r: Report)
      requires Told(x, es, r)
      ensures EndOf(x, es) == system.registry.Here()
    {
    }

    /** Traced calls without an empty error are all reported. */
    lemma AllReported(calls: seq<Call>, m: Moment<Board<E>>, messages: nat, lost: nat)
      requires system.Traced(m, messages, lost) && calls == system.registry.log[|m.log|..]
      ensures messages <= |calls| && Performed(system.registry.config.catalog, system.registry.handle, m.at, calls,
                                               system.registry.Here())
      ensures (forall i :: 0 <= i < |calls| ==> calls[i].rc != ErrEmpty) ==> messages == |calls|
    {
      hide Performed;
      var log := system.registry.log;
      if forall i :: 0 <= i < |calls| ==> calls[i].rc != ErrEmpty {
        forall j | |m.log| <= j < |log|
          ensures log[j].rc != ErrEmpty
        {
          assert calls[j - |m.log|] == log[j];
        }
      }
    }

    /**
     Where a poll may rest between its phases: after a success, with the flag for exhausted
     budgets up to date and, unless it is set or the policy leaves mail to the next poll,
     without mail; or after the failure of its last event.
     */
    ghost predicate Rests(p: Policy, rc: Result, r: Report, es: seq<Event<E>>)
      requires Valid()
      reads system`slots, system.registry
    {
      if rc != Ok then FailedWith(es, rc)
      else
        && es != [] && !Fails(es[|es| - 1]) && (r.exhausted <==> !InLimits(p, r))
        && (!r.exhausted && (NonePublished(es) || p.runSchedulerAfterTimers) ==> !system.HasMail())
    }

    /** One poll of a drain, after which the budgets are looked at again. */
    method DrainOnce(p: Policy, r0: Report, ghost at: nat, ghost x: Point<Board<E>>, ghost es0: seq<Event<E>>)
      returns (rc: Result, r: Report, ghost es: seq<Event<E>>)
      requires Valid() && p.turnBudget > 0 && system.HasMail() && Told(x, es0, r0) && Follows(p, at, x, es0)
      requires es0 != [] && !Fails(es0[|es0| - 1]) && (NonePublished(es0) || p.runSchedulerAfterTimers)
      requires !r0.exhausted && !Exhausted(p, r0)
      modifies system`next, system`stats, system`pollCalls, system`partialReturns, system.Pumps()
      modifies system.registry`world, system.registry`kernel, system.registry`log
      ensures Valid() && Told(x, es, r) && Follows(p, at, x, es)
      ensures |es| == |es0| + 1 && es0 <= es && es[|es0|].Polled? && (NonePublished(es) <==> NonePublished(es0))
      ensures r == r0.(pumpCalls := r0.pumpCalls + 1, turns := r.turns, messages := r.messages,
                       exhausted := r.exhausted)
      ensures if rc == Ok || rc == ErrPartial then !Fails(es[|es| - 1]) && (r.exhausted <==> !InLimits(p, r))
              else FailedWith(es, rc)
    {
      hide BoxesValid, Told, Exhausted, InLimits, SP.SystemPump.HasMail, Follows, NextStep, NonePublished;
      LimitsTold(p, x, es0, r0);
      PollsNow(p, es0);
      rc, r, es := PollScheduler(p, r0, at, x, es0);
      OnePollMore(es0, es0, es[|es0|]);
      assert es == es0 + [es[|es0|]];
      if rc == Ok || rc == ErrPartial {
        FlagIsNoLimit(p, x, es, r);
        LimitsTold(p, x, es, r);
        r := r.(exhausted := Exhausted(p, r));
      }
    }

    /** Poll the scheduler until no mail is left, a budget is exhausted or a handler fails. */
    method DrainScheduler(p: Policy, r0: Report, ghost at: nat, ghost x: Point<Board<E>>, ghost es0: seq<Event<E>>)
      returns (rc: Result, r: Report, ghost es: seq<Event<E>>)
      requires Valid() && p.turnBudget > 0 && r0.pumpCalls <= p.maxPumpCalls && Told(x, es0, r0)
      requires es0 != [] && !Fails(es0[|es0| - 1]) && (NonePublished(es0) || p.runSchedulerAfterTimers)
      requires Follows(p, at, x, es0) && (r0.exhausted ==> !InLimits(p, r0))
      modifies system`next, system`stats, system`pollCalls, system`partialReturns, system.Pumps()
      modifies system.registry`world, system.registry`kernel, system.registry`log
      ensures Valid() && Told(x, es, r) && r0.pumpCalls <= r.pumpCalls <= p.maxPumpCalls
      ensures OnlyPolls(es0, es) && Follows(p, at, x, es)
      ensures r == r0.(pumpCalls := r.pumpCalls, turns := r.turns, messages := r.messages, exhausted := r.exhausted)
      ensures rc != Ok ==> FailedWith(es, rc)
      ensures rc == Ok ==> es != [] && !Fails(es[|es| - 1]) && (!r.exhausted ==> !system.HasMail())
      ensures rc == Ok && (r0.exhausted <==> !InLimits(p, r0)) ==> (r.exhausted <==> !InLimits(p, r))
      ensures r.pumpCalls == r0.pumpCalls ==> system.registry.world == old(system.registry.world)
      ensures !old(system.HasMail()) ==> r == r0 && es == es0 && rc == Ok
    {
      hide BoxesValid, Told, OnlyPolls, Exhausted, InLimits, SP.SystemPump.HasMail, Follows, NextStep, NonePublished;
      hide FailedWith, Fails;
      NoPollYet(es0);
      r, es := r0, es0;
      var pending := system.PendingMail();
      while pending > 0 && !r.exhausted
        invariant Valid() && r0.pumpCalls <= r.pumpCalls <= p.maxPumpCalls && Told(x, es, r)
        invariant OnlyPolls(es0, es) && Follows(p, at, x, es) && (NonePublished(es) || p.runSchedulerAfterTimers)
        invariant r == r0.(pumpCalls := r.pumpCalls, turns := r.turns, messages := r.messages, exhausted := r.exhausted)
        invariant pending > 0 <==> system.HasMail()
        invariant es != [] && !Fails(es[|es| - 1])
        invariant r.exhausted ==> !InLimits(p, r)
        invariant !r.exhausted && InLimits(p, r0) ==> InLimits(p, r)
        invariant r0.exhausted ==> r.exhausted
        invariant !old(system.HasMail()) ==> pending == 0 && r == r0 && es == es0
        invariant r.pumpCalls == r0.pumpCalls ==> system.registry.world == old(system.registry.world)
        decreases !r.exhausted, p.maxPumpCalls - r.pumpCalls
      {
        LimitsTold(p, x, es, r);
        if Exhausted(p, r) {
          FlagIsNoLimit(p, x, es, r);
          r := r.(exhausted := true);
          break;
        }
        ExhaustedByCalls(p, r);
        ghost var fs := es;
        rc, r, es := DrainOnce(p, r, at, x, es);
        OnePollMore(es0, fs, es[|fs|]);
        assert es == fs + [es[|fs|]];
        if rc != Ok && rc != ErrPartial {
          return;
        }
        pending := system.PendingMail();
      }
      rc := Ok;
    }

    /** Polls keep the past a poll looks at. */
    lemma NoPollYet(es: seq<Event<E>>)
      ensures OnlyPolls(es, es)
    {
    }

    lemma ExhaustedByCalls(p: Policy, r: Report)
      requires !Exhausted(p, r)
      ensures r.pumpCalls < p.maxPumpCalls
    {
    }

    /** The exhausted flag is neither a counter nor a limit. */
    lemma FlagIsNoLimit(p: Policy, x: Point<Board<E>>, es: seq<Event<E>>, r: Report)
      requires Told(x, es, r)
      ensures forall b: bool :: Told(x, es, r.(exhausted := b))
      ensures forall b: bool :: InLimits(p, r.(exhausted := b)) <==> InLimits(p, r)
    {
      hide Happened, EndOf, Sum;
    }

    /** Collect once and drain what that brought. */
    method CollectRound(p: Policy, r0: Report, ghost x: Point<Board<E>>, ghost es0: seq<Event<E>>)
      returns (rc: Result, r: Report, ghost es: seq<Event<E>>)
      requires Valid() && p.turnBudget > 0 && r0.pumpCalls <= p.maxPumpCalls && !r0.exhausted && Told(x, es0, r0)
      requires Follows(p, 0, x, es0) && Next(p, es0) == Some(CollectStep) && NonePublished(es0)
      modifies system`next, system`stats, system`pollCalls, system`partialReturns, system.Pumps()
      modifies system.registry`world, system.registry`kernel, system.registry`log
      ensures Valid() && Told(x, es, r) && r.pumpCalls <= p.maxPumpCalls
      ensures es0 < es && NonePublished(es) && Follows(p, 0, x, es) && Rests(p, rc, r, es)
      ensures r.irqSamples >= r0.irqSamples && r.netSamples >= r0.netSamples
      ensures LastSamples(es) == r.irqSamples - r0.irqSamples + r.netSamples - r0.netSamples
    {
      hide BoxesValid, Told, Exhausted, InLimits, SP.SystemPump.HasMail, Follows, NextStep, NonePublished, LastSamples;
      rc, r, es := Collect(p, r0, x, es0);
      ghost var e := es[|es0|];
      Appended(es0, e);
      if rc != Ok {
        return;
      }
      FlagIsNoLimit(p, x, es, r);
      LimitsTold(p, x, es, r);
      r := r.(exhausted := Exhausted(p, r));
      rc, r, es := DrainScheduler(p, r, 0, x, es);
    }

    /** Collect and drain until a round brings no new sample. */
    method CollectAndDrain(p: Policy) returns (rc: Result, r: Report, ghost es: seq<Event<E>>)
      requires Valid() && p.turnBudget > 0
      modifies system`next, system`stats, system`pollCalls, system`partialReturns, system.Pumps()
      modifies system.registry`world, system.registry`kernel, system.registry`log
      ensures Valid() && Told(old(system.registry.Here()), es, r) && r.pumpCalls <= p.maxPumpCalls
      ensures Follows(p, 0, old(system.registry.Here()), es) && NonePublished(es) && Rests(p, rc, r, es)
      ensures rc == Ok && !r.exhausted ==> LastSamples(es) == 0
    {
      hide BoxesValid, Told, SP.SystemPump.HasMail, Follows, InLimits, NextStep, LastSamples;
      ghost var x := system.registry.Here();
      r, es := NoReport, [];
      NothingTold();
      NothingFollowed(p, x);
      var more := true;
      while more
        invariant Valid() && Told(x, es, r) && r.pumpCalls <= p.maxPumpCalls
        invariant Follows(p, 0, x, es) && NonePublished(es)
        invariant more ==> !r.exhausted && Next(p, es) == Some(CollectStep) && (es == [] || InLimits(p, r))
        invariant !more ==> Rests(p, Ok, r, es) && (!r.exhausted ==> LastSamples(es) == 0)
        decreases more, if es == [] then 1 else 0, p.maxIrqSamples + p.maxNetSamples - r.irqSamples - r.netSamples
      {
        var before := r;
        ghost var fs := es;
        rc, r, es := CollectRound(p, r, x, es);
        if rc != Ok {
          return;
        }
        more := !r.exhausted && (r.irqSamples != before.irqSamples || r.netSamples != before.netSamples);
        if more {
          LimitsTold(p, x, es, r);
          CollectsAgain(p, es);
          SamplesBounded(p, before, r, fs == []);
        }
      }
      rc := Ok;
    }

    /** A rest without mail after a round that took samples is followed by another round. */
    lemma CollectsAgain(p: Policy, es: seq<Event<E>>)
      requires Valid() && es != [] && !Fails(es[|es| - 1]) && InLimits(p, Sum(es)) && NonePublished(es)
      requires LastSamples(es) > 0 && !system.HasMail()
      ensures Next(p, es) == Some(CollectStep)
    {
    }

    /** A round that goes on took samples, within the limits. */
    lemma SamplesBounded(p: Policy, r0: Report, r: Report, first: bool)
      requires InLimits(p, r) && (first || InLimits(p, r0))
      ensures r.irqSamples + r.netSamples < p.maxIrqSamples + p.maxNetSamples
    {
    }

    lemma NothingTold()
      ensures Told(system.registry.Here(), [], NoReport)
    {
    }

    lemma NothingFollowed(p: Policy, x: Point<Board<E>>)
      requires Valid()
      ensures Follows(p, 0, x, []) && NonePublished<E>([]) && Next(p, []) == Some(CollectStep)
    {
    }

    /** Publish due timers into the kernel. */
    method PublishTimers(p: Policy, now: nat, r0: Report, ghost x: Point<Board<E>>, ghost es0: seq<Event<E>>)
      returns (count: nat, r: Report, ghost es: seq<Event<E>>)
      requires Valid() && Told(x, es0, r0) && Follows(p, now, x, es0) && Next(p, es0) == Some(PublishStep)
      modifies system.registry`world, system.registry`kernel
      ensures Valid() && Told(x, es, r) && r == r0.(timersPublished := r0.timersPublished + count)
      ensures Follows(p, now, x, es)
      ensures es == es0 + [Event.Published(now, p.timerBudget, count, system.registry.Here())]
      ensures count > 0 ==>
                TotalRank(system.registry.world.timers, now) < TotalRank(old(system.registry.world.timers), now)
      ensures count == 0 && p.timerBudget > 0 && AlwaysDelivers(ports) ==>
                && NoneDue(system.registry.world.timers, now)
                && system.registry.Here() == old(system.registry.Here())
    {
      hide Happened, PublishFrom, TotalRank, NoneDue, AlwaysDelivers, BoxesValid, Follows, NextStep;
      var reg := system.registry;
      ghost var y := reg.Here();
      PassDoes(reg.config.catalog, ports, y, now, p.timerBudget);
      system.HasMailIn();
      var publish := KernelPublisher(reg.config.catalog, ports.deliver);
      var o := PublishFrom(Wrapping, reg.world.timers, 0, now, (reg.world.env, reg.kernel), publish, p.timerBudget);
      assert o == Pass(reg.config.catalog, ports, y, now, p.timerBudget);
      reg.world, reg.kernel := Board(o.timers, o.world.0), o.world.1;
      count, r := o.count, r0.(timersPublished := r0.timersPublished + o.count);
      ghost var e := Event.Published(now, p.timerBudget, o.count, reg.Here());
      es := es0 + [e];
      ToldOn(x, es0, e, y, r0, r);
      FollowsOn(p, now, x, es0, e);
    }

    /** Between rounds of timers: nothing to collect, and the last pass, if any, fired. */
    ghost predicate Ready(p: Policy, r: Report, es: seq<Event<E>>)
      requires Valid()
      reads system`slots, system.registry
    {
      Rests(p, Ok, r, es) && !r.exhausted && LastSamples(es) == 0 && (NonePublished(es) || LastFired(es) > 0)
    }

    /** A poll that is ready for timers publishes them or ends, as the policy says. */
    lemma PublishesNow(p: Policy, x: Point<Board<E>>, r: Report, es: seq<Event<E>>)
      requires Valid() && Told(x, es, r) && Ready(p, r, es)
      ensures Next(p, es) ==
                if p.skipTimers || (p.skipTimersWhenPending && system.HasMail()) then None else Some(PublishStep)
    {
      hide SP.SystemPump.HasMail, LastFired, Told;
      LimitsTold(p, x, es, r);
    }

    /** A rest after exhausted budgets, or after a pass that fired nothing, is the end. */
    lemma EndsNow(p: Policy, x: Point<Board<E>>, r: Report, es: seq<Event<E>>)
      requires Valid() && Told(x, es, r) && Rests(p, Ok, r, es)
      requires r.exhausted || (!NonePublished(es) && LastFired(es) == 0)
      ensures Next(p, es) == None
    {
      hide SP.SystemPump.HasMail, LastFired, Told;
      LimitsTold(p, x, es, r);
    }

    /** One round of publishing due timers and draining what they and their handlers posted. */
    method TimerRound(p: Policy, now: nat, r0: Report, ghost x: Point<Board<E>>, ghost es0: seq<Event<E>>)
      returns (rc: Result, r: Report, published: nat, ghost es: seq<Event<E>>)
      requires Valid() && p.turnBudget > 0 && r0.pumpCalls <= p.maxPumpCalls && Told(x, es0, r0)
      requires Follows(p, now, x, es0) && Ready(p, r0, es0)
      modifies system`next, system`stats, system`pollCalls, system`partialReturns, system.Pumps()
      modifies system.registry`world, system.registry`kernel, system.registry`log
      ensures Valid() && Told(x, es, r) && r0.pumpCalls <= r.pumpCalls <= p.maxPumpCalls && es0 <= es
      ensures Follows(p, now, x, es) && Rests(p, rc, r, es) && LastSamples(es) == 0
      ensures rc == Ok && published > 0 ==> LastFired(es) > 0
      ensures rc == Ok && published == 0 ==> Next(p, es) == None
      ensures published > 0 && r.pumpCalls == r0.pumpCalls ==>
                TotalRank(system.registry.world.timers, now) < TotalRank(old(system.registry.world.timers), now)
      ensures rc == Ok && published == 0 && ServesTimers(p) ==> NoneDue(system.registry.world.timers, now)
    {
      hide BoxesValid, AlwaysDelivers, NoneDue, TotalRank, Told, Follows, Exhausted, InLimits, NonePublished;
      hide NextStep, LastFired, LastSamples, SP.SystemPump.HasMail;
      r, es, published := r0, es0, 0;
      PublishesNow(p, x, r0, es0);
      var pending := system.PendingMail();
      if !p.skipTimers && (!p.skipTimersWhenPending || pending == 0) {
        published, r, es := PublishTimers(p, now, r, x, es);
        Appended(es0, es[|es0|]);
      }
      SameLimits(p, r0, r);
      FlagIsNoLimit(p, x, es, r);
      LimitsTold(p, x, es, r);
      r := r.(exhausted := Exhausted(p, r));
      rc := Ok;
      if p.runSchedulerAfterTimers && !r.exhausted {
        rc, r, es := DrainScheduler(p, r, now, x, es);
      }
      if rc == Ok && published == 0 {
        if es == es0 {
          PublishesNow(p, x, r, es);
        } else {
          EndsNow(p, x, r, es);
        }
      }
    }

    lemma SameLimits(p: Policy, r0: Report, r: Report)
      requires r == r0.(timersPublished := r.timersPublished)
      ensures InLimits(p, r) <==> InLimits(p, r0)
    {
    }

    /**
     Publish and drain until no timer fires.  Each round that goes on either polled the
     scheduler or only used up rank of due timers, whatever their periods.
     */
    method TimersAndDrain(p: Policy, now: nat, r0: Report, ghost x: Point<Board<E>>, ghost es0: seq<Event<E>>)
      returns (rc: Result, r: Report, ghost es: seq<Event<E>>)
      requires Valid() && p.turnBudget > 0 && r0.pumpCalls <= p.maxPumpCalls && Told(x, es0, r0)
      requires Follows(p, now, x, es0) && Ready(p, r0, es0)
      modifies system`next, system`stats, system`pollCalls, system`partialReturns, system.Pumps()
      modifies system.registry`world, system.registry`kernel, system.registry`log
      ensures Valid() && Told(x, es, r) && r.pumpCalls <= p.maxPumpCalls && es0 <= es
      ensures Follows(p, now, x, es) && Rests(p, rc, r, es) && LastSamples(es) == 0
      ensures rc == Ok ==> Next(p, es) == None
      ensures rc == Ok && !r.exhausted && ServesTimers(p) ==> NoneDue(system.registry.world.timers, now)
    {
      hide BoxesValid, AlwaysDelivers, NoneDue, TotalRank, Told, Follows, NonePublished, InLimits;
      hide NextStep, LastFired, LastSamples, SP.SystemPump.HasMail;
      r, es := r0, es0;
      var more := true;
      while more
        invariant Valid() && Told(x, es, r) && r.pumpCalls <= p.maxPumpCalls && es0 <= es
        invariant Follows(p, now, x, es) && LastSamples(es) == 0
        invariant if more then Ready(p, r, es) else Rests(p, Ok, r, es) && Next(p, es) == None
        invariant !more && !r.exhausted && ServesTimers(p) ==> NoneDue(system.registry.world.timers, now)
        decreases more, p.maxPumpCalls - r.pumpCalls, TotalRank(system.registry.world.timers, now)
      {
        var published;
        rc, r, published, es := TimerRound(p, now, r, x, es);
        if rc != Ok {
          return;
        }
        more := !r.exhausted && published > 0;
        if r.exhausted {
          EndsNow(p, x, r, es);
        }
      }
      rc := Ok;
    }

    /** The clock is read once, before the first pass. */
    lemma FirstPass(p: Policy, at: nat, x: Point<Board<E>>, es0: seq<Event<E>>, es: seq<Event<E>>)
      requires Follows(p, at, x, es) && es0 <= es && NonePublished(es0)
      requires NextStep(p, es0, system.MailIn(EndOf(x, es0).kernel)) in [None, Some(PublishStep)]
      requires ports.now(EndOf(x, es0).world.env) == (Ok, at)
      ensures ReadAt(at, x, es)
    {
      hide NextStep, EndOf, Conforms, Sum, SP.SystemPump.MailIn;
      assert es[..|es0|] == es0;
      assert forall i :: 0 <= i < |es0| ==> es0[i] == es[i];
      assert forall i :: |es0| < i <= |es| ==> es[..i][|es0|] == es[|es0|];
    }

    /** The clock refused before the first pass: nothing is left but to publish. */
    ghost predicate ClockFailed(rc: Result, r: Report, es: seq<Event<E>>)
      requires Valid()
      reads system`slots, system.registry
    {
      && rc != Ok && ports.now(system.registry.world.env).0 == rc
      && NonePublished(es) && LastSamples(es) == 0 && !r.exhausted && !system.HasMail()
    }

    /**
     How a poll ends: without an error of its own, when the protocol asks for nothing more,
     and with an error, when that is the error of its last event or of the clock.
     */
    ghost predicate Ends(p: Policy, rc: Result, r: Report, es: seq<Event<E>>)
      requires Valid()
      reads system`slots, system.registry
    {
      if rc == Ok || r.partial
      then Next(p, es) == None && es != [] && !Fails(es[|es| - 1]) && (r.exhausted <==> !InLimits(p, r))
      else FailedWith(es, rc) || ClockFailed(rc, r, es)
    }

    /** What the policy allows and an ordinary return achieves. */
    ghost predicate Orderly(p: Policy, x: Point<Board<E>>, rc: Result, r: Report, es: seq<Event<E>>, at: nat)
      reads system`slots, system.registry
      requires Valid()
    {
      && r.pumpCalls <= p.maxPumpCalls && es != []
      && Follows(p, at, x, es) && ReadAt(at, x, es) && Ends(p, rc, r, es)
      && (rc == Ok && p.runSchedulerAfterTimers ==> !system.HasMail())
      && (rc == Ok && !r.exhausted ==> LastSamples(es) == 0)
      && (rc == Ok && !r.exhausted && ServesTimers(p) ==> NoneDue(system.registry.world.timers, at))
    }

    /** The poll before it looks at what is left. */
    method Rounds(p: Policy) returns (rc: Result, r: Report, ghost at: nat, ghost es: seq<Event<E>>)
      requires Valid() && p.turnBudget > 0 && p.timerBudget > 0
      modifies system`next, system`stats, system`pollCalls, system`partialReturns, system.Pumps()
      modifies system.registry`world, system.registry`kernel, system.registry`log
      ensures Valid() && Told(old(system.registry.Here()), es, r) && es != [] && r.pumpCalls <= p.maxPumpCalls
      ensures Follows(p, at, old(system.registry.Here()), es) && ReadAt(at, old(system.registry.Here()), es)
      ensures Ends(p, rc, r, es)
      ensures rc == Ok && !r.exhausted && p.runSchedulerAfterTimers ==> !system.HasMail()
      ensures rc == Ok && !r.exhausted ==> LastSamples(es) == 0
      ensures rc == Ok && !r.exhausted && ServesTimers(p) ==> NoneDue(system.registry.world.timers, at)
    {
      hide BoxesValid, AlwaysDelivers, NoneDue, Told, Follows, NextStep, InLimits, LastFired, LastSamples;
      hide SP.SystemPump.HasMail, ReadAt;
      ghost var x := system.registry.Here();
      at := 0;
      rc, r, es := CollectAndDrain(p);
      NeverPartial(x, es, r);
      NothingRead(at, x, es);
      if rc == Ok && r.exhausted {
        EndsNow(p, x, r, es);
      }
      if rc == Ok && !r.exhausted {
        var (clock, now) := ports.now(system.registry.world.env);
        rc, at := clock, now;
        NothingRead(at, x, es);
        FollowsAt(p, 0, x, es, now);
        if rc == Ok {
          PublishesNow(p, x, r, es);
          EndsHere(x, es, r);
          system.HasMailIn();
          ghost var fs := es;
          rc, r, es := TimersAndDrain(p, now, r, x, es);
          FirstPass(p, at, x, fs, es);
          NeverPartial(x, es, r);
        }
      }
    }

    lemma NothingRead(at: nat, x: Point<Board<E>>, es: seq<Event<E>>)
      requires NonePublished(es)
      ensures ReadAt(at, x, es)
    {
    }

    /**
     One poll of the runtime.  It always returns, its report is the sum of what happened,
     and every event is the one the protocol asks for at that point, up to the point where
     the protocol asks for nothing more, an event fails or the clock refuses.  Disciplined
     ports and handlers keep the ownership invariant.
     */
    method PollOnce(policy: Option<Policy>)
      returns (rc: Result, r: Report, took: Measured, ghost at: nat, ghost es: seq<Event<E>>)
      requires Valid()
      modifies system`next, system`stats, system`pollCalls, system`partialReturns, system.Pumps()
      modifies system.registry`world, system.registry`kernel, system.registry`log
      ensures Valid()
      ensures Told(old(system.registry.Here()), es, r.(partial := false))
      ensures
        var reg := system.registry;
        old(Inv(reg.kernel)) && AllDisciplined(reg.config.catalog, reg.handle, ports, old(reg.Here()), es) ==>
            Inv(reg.kernel)
      ensures
        var p := if policy.Some? then policy.value else DefaultPolicy;
        if p.turnBudget == 0 || p.timerBudget == 0
        then rc == ErrInvalidArg && r == NoReport && es == [] && took == Measured(0, 0, 0)
        else
          && took == Measured(old(system.MailOf(SP.DOMAIN_COUNT)), system.MailOf(SP.DOMAIN_COUNT),
                              Elapsed(old(ports.now(system.registry.world.env)), ports.now(system.registry.world.env)))
          && Orderly(p, old(system.registry.Here()), rc, r, es, at)
          && (forall i :: 0 <= i < |es| ==> Allowed(p, at, old(system.registry.Here()), es, i))
          && (p.skipTimers ==> NonePublished(es))
      ensures r.partial ==> rc == ErrPartial && r.exhausted && (system.HasMail() || WorkPending(r))
      ensures rc == Ok && r.exhausted ==> !system.HasMail() && !WorkPending(r)
    {
      hide BoxesValid, AlwaysDelivers, NoneDue, Told, Inv, AllDisciplined, Happened, Follows, ReadAt, NextStep,
           InLimits;
      hide SP.SystemPump.MailOf, SP.SystemPump.HasMail, NonePublished, LastSamples, Allowed;
      var p := if policy.Some? then policy.value else DefaultPolicy;
      if p.turnBudget == 0 || p.timerBudget == 0 {
        NothingTold();
        return ErrInvalidArg, NoReport, Measured(0, 0, 0), 0, [];
      }
      ghost var x := system.registry.Here();
      var before := system.PendingMail();
      var start := ports.now(system.registry.world.env);
      rc, r, at, es := Rounds(p);
      ToldKeeps(x, es, r);
      NeverPartial(x, es, r);
      AllAllowed(p, at, x, es);
      var pending := system.PendingMail();
      took := Measured(before, pending, Elapsed(start, ports.now(system.registry.world.env)));
      if rc == Ok && r.exhausted && (pending > 0 || WorkPending(r)) {
        PartialIsNoLimit(p, r);
        r, rc := r.(partial := true), ErrPartial;
      }
    }

    lemma PartialIsNoLimit(p: Policy, r: Report)
      ensures InLimits(p, r.(partial := true)) <==> InLimits(p, r)
    {
    }

    function WorkPending(r: Report): bool
      reads system.registry`world
    {
      ports.workPending(system.registry.world.env, r.(partial := false))
    }

    lemma {:induction false} SumIsNotPartial(es: seq<Event<E>>)
      ensures !Sum(es).partial && !Sum(es).exhausted
      decreases |es|
    {
      if es != [] {
        SumIsNotPartial(es[..|es| - 1]);
      }
    }

    lemma NeverPartial(x: Point<Board<E>>, es: seq<Event<E>>, r: Report)
      requires Told(x, es, r)
      ensures !r.partial && r.(partial := false) == r
    {
      SumIsNotPartial(es);
    }

    lemma ToldKeeps(x: Point<Board<E>>, es: seq<Event<E>>, r: Report)
      requires Told(x, es, r)
      ensures Inv(x.kernel) && AllDisciplined(system.registry.config.catalog, system.registry.handle, ports, x, es) ==>
                Inv(system.registry.kernel)
    {
      hide Inv, Happened, AllDisciplined;
      var reg := system.registry;
      if Inv(x.kernel) && AllDisciplined(reg.config.catalog, reg.handle, ports, x, es) {
        HappenedKeeps(reg.config.catalog, reg.handle, ports, x, es);
      }
    }
  }
}
