/**
 Going to sleep: the demo application's guard, arm and disarm callbacks
 (`apps/demo/ev_demo_policy.c`) and the power actor that drives them
 (`actors/framework/ev_power_actor.c`).  Ports are the results they return; a missing
 function pointer is `None`.
 */
module Sleep {
  import opened Results
  import opened PowerStates
  import Q = Quiescence

  const MAX_DURATION_MS: nat := 24 * 60 * 60 * 1000

  datatype RejectReason =
    | NoReject | Unsupported | BadPayload | BadDuration | NotQuiescent
    | LogFlushRejected | PrepareRejected | DeepSleepRejected | ArmingFailed

  datatype SleepReport = SleepReport(
    reason: RejectReason, mail: nat, irqSamples: nat, dueTimers: nat, oledFlush: bool, ds18b20Conversion: bool)

  const EmptyReport: SleepReport := SleepReport(NoReject, 0, 0, 0, false, false)

  /** The interrupt port: its statistics, or else a poll, or nothing. */
  datatype IrqPort = NoIrqPort | Stats(rc: Result, samples: nat) | Wait(rc: Result, pending: bool)

  /** What the guard reads when it is called. */
  datatype View = View(irq: IrqPort, clock: Result, now: nat, graph: Q.Graph, oled: nat, ds18b20: nat)

  function PendingSamples(irq: IrqPort): nat {
    match irq
    case NoIrqPort => 0
    case Stats(_, n) => n
    case Wait(_, pending) => if pending then 1 else 0
  }

  /** Nothing stands against sleeping. */
  predicate Quiet(v: View) {
    && (v.irq.NoIrqPort? || v.irq.rc == Ok)
    && v.clock == Ok
    && PendingSamples(v.irq) == 0
    && Q.Quiescent(v.graph, v.now, Q.DefaultPolicy)
  }

  /** Some actor's callback raised blocker bit `b`. */
  predicate Blocks(g: Q.Graph, b: nat) {
    exists i :: 0 <= i < |g.actors| && b in Q.Blockers(g.actors[i])
  }

  /** The interrupt port and the clock answered the guard. */
  predicate Readable(v: View) {
    (v.irq.NoIrqPort? || v.irq.rc == Ok) && v.clock == Ok
  }

  /** What the guard read shows work to be done. */
  predicate ShowsWork(v: View) {
    && (v.irq.NoIrqPort? || v.irq.rc == Ok)
    && (|| PendingSamples(v.irq) > 0
        || (v.clock == Ok && (|| Q.MailOf(v.graph, |v.graph.actors|) > 0
                              || Q.DueAmong(v.graph, v.now, |v.graph.timers|) > 0
                              || Blocks(v.graph, v.oled) || Blocks(v.graph, v.ds18b20))))
  }

  predicate NamesWork(r: SleepReport) {
    r.mail != 0 || r.irqSamples != 0 || r.dueTimers != 0 || r.oledFlush || r.ds18b20Conversion
  }

  class DemoApp {
    const service: Q.QuiescenceService
    var sleepArming: bool
    var armAttempts: nat
    var armSuccesses: nat
    var armFailures: nat
    var disarmCalls: nat

    constructor ()
      ensures !sleepArming && fresh(service)
    {
      service := new Q.QuiescenceService();
      sleepArming, armAttempts, armSuccesses, armFailures, disarmCalls := false, 0, 0, 0, 0;
    }

    /** The guard passes exactly when nothing stands against sleeping. */
    method SleepQuiescenceGuard(v: View) returns (rc: Result, r: SleepReport)
      modifies service
      ensures rc == Ok <==> Quiet(v)
      ensures rc == Ok ==> r == EmptyReport
      ensures rc != Ok && (v.irq.NoIrqPort? || v.irq.rc == Ok) && v.clock == Ok ==>
                rc == ErrState && r.reason == NotQuiescent && r.irqSamples == PendingSamples(v.irq)
      ensures !v.irq.NoIrqPort? && v.irq.rc != Ok ==> rc == v.irq.rc && r == EmptyReport
      ensures (v.irq.NoIrqPort? || v.irq.rc == Ok) && v.clock != Ok ==>
                rc == v.clock && r == EmptyReport.(irqSamples := PendingSamples(v.irq))
      ensures (v.irq.NoIrqPort? || v.irq.rc == Ok) && v.clock == Ok ==>
                && r.mail == Q.MailOf(v.graph, |v.graph.actors|)
                && r.dueTimers == Q.DueAmong(v.graph, v.now, |v.graph.timers|)
                && (r.oledFlush <==> Blocks(v.graph, v.oled))
                && (r.ds18b20Conversion <==> Blocks(v.graph, v.ds18b20))
      ensures rc != Ok ==> (NamesWork(r) <==> ShowsWork(v)) && r.reason == if Readable(v) then NotQuiescent
              else NoReject
    {
      r := EmptyReport;
      if !v.irq.NoIrqPort? && v.irq.rc != Ok {
        return v.irq.rc, r;
      }
      r := r.(irqSamples := PendingSamples(v.irq));
      if v.clock != Ok {
        return v.clock, r;
      }
      var policy := Q.Policy(Q.Never, Q.CriticalOnly, Q.Never, 0, 0, true, true);
      var q;
      rc, q := service.IsQuiescentAt(v.graph, v.now, policy);
      r := r.(mail := q.pendingMail, oledFlush := v.oled in q.blockers, ds18b20Conversion := v.ds18b20 in q.blockers,
        dueTimers := q.due);
      NoBlockers(v.graph, q.blockers);
      if rc != Ok || r.irqSamples != 0 {
        return ErrState, r.(reason := NotQuiescent);
      }
      return Ok, r;
    }

    lemma NoBlockers(g: Q.Graph, blockers: set<nat>)
      requires blockers == set i, b | 0 <= i < |g.actors| && b in Q.Blockers(g.actors[i]) :: b
      ensures Q.NoBlockingActor(g) ==> blockers == {}
    {
    }

    /** Arming refuses to nest, and stands only if the guard passes. */
    method SleepArm(v: View) returns (rc: Result, r: SleepReport)
      modifies this`sleepArming, this`armAttempts, this`armSuccesses, this`armFailures, service
      ensures rc == Ok <==> !old(sleepArming) && Quiet(v)
      ensures sleepArming == (old(sleepArming) || rc == Ok)
      ensures armAttempts == old(armAttempts) + 1
      ensures armSuccesses + armFailures == old(armSuccesses) + old(armFailures) + 1
      ensures armSuccesses == old(armSuccesses) + if rc == Ok then 1 else 0
      ensures old(sleepArming) ==> rc == ErrState && r.reason == ArmingFailed && !NamesWork(r)
      ensures !old(sleepArming) && rc != Ok ==>
                (NamesWork(r) <==> ShowsWork(v)) && r.reason == if Readable(v) then NotQuiescent else NoReject
    {
      armAttempts := armAttempts + 1;
      if sleepArming {
        armFailures := armFailures + 1;
        return ErrState, EmptyReport.(reason := ArmingFailed);
      }
      sleepArming := true;
      rc, r := SleepQuiescenceGuard(v);
      if rc != Ok {
        sleepArming := false;
        armFailures := armFailures + 1;
        return;
      }
      armSuccesses := armSuccesses + 1;
    }

    method SleepDisarm() returns (rc: Result)
      modifies this`sleepArming, this`disarmCalls
      ensures rc == Ok && !sleepArming && disarmCalls == old(disarmCalls) + 1
    {
      disarmCalls := disarmCalls + 1;
      sleepArming := false;
      return Ok;
    }
  }

  /** The platform at one request. */
  datatype Ports = Ports(deepSleep: Option<Result>, prepare: Option<Result>, flush: Option<Result>,
                         cancel: Option<Result>)

  /** Calls out of the actor that matter to the protocol. */
  datatype PortCall =
    | Gate(rc: Result)
    | Flush(rc: Result)
    | Prepare(us: nat, rc: Result)
    | DeepSleep(us: nat, rc: Result, state: PowerState, arming: bool)
    | Cancel
    | Disarm

  function Answer(port: Option<Result>): Result {
    if port.Some? then port.value else Ok
  }

  predicate GoodDuration(ms: Option<nat>) {
    ms.Some? && 0 < ms.value <= MAX_DURATION_MS
  }

  class PowerActor {
    const app: DemoApp
    const guardSet: bool
    const armSet: bool
    const disarmSet: bool
    var requestsSeen: nat
    var requestsAccepted: nat
    var requestsRejected: nat
    var requestsUnsupported: nat
    var armingFailures: nat
    var quiescenceFailures: nat
    var prepareFailures: nat
    var flushFailures: nat
    var deepSleepFailures: nat
    var disarmCalls: nat
    var lastState: PowerState
    var lastReason: RejectReason
    /** What the latest request called, in order. */
    ghost var calls: seq<PortCall>

    constructor (app: DemoApp, guardSet: bool, armSet: bool, disarmSet: bool)
      ensures this.app == app && this.guardSet == guardSet && this.armSet == armSet && this.disarmSet == disarmSet
      ensures requestsSeen == requestsAccepted == requestsRejected == 0 && lastState == Active
    {
      this.app, this.guardSet, this.armSet, this.disarmSet := app, guardSet, armSet, disarmSet;
      requestsSeen, requestsAccepted, requestsRejected, requestsUnsupported := 0, 0, 0, 0;
      armingFailures, quiescenceFailures, prepareFailures, flushFailures, deepSleepFailures := 0, 0, 0, 0, 0;
      disarmCalls, lastState, lastReason, calls := 0, Active, NoReject, [];
    }

    /** The gate is open: armed if arming is configured, guarded if only the guard is, and open if neither. */
    ghost predicate GateOpen(v: View)
      reads app
    {
      if armSet then !app.sleepArming && Quiet(v) else guardSet ==> Quiet(v)
    }

    /** Why a closed gate is closed: the guard found something, or arming failed for another reason. */
    ghost function GateReason(v: View): RejectReason
      reads app
    {
      if armSet && (app.sleepArming || !Readable(v)) then ArmingFailed else NotQuiescent
    }

    method Reject(reason: RejectReason)
      modifies this`requestsRejected, this`lastReason
      ensures requestsRejected == old(requestsRejected) + 1 && lastReason == reason
    {
      requestsRejected, lastReason := requestsRejected + 1, reason;
    }

    /** Arm, or run the bare guard when no arming is configured. */
    method ArmSleep(v: View) returns (rc: Result, armed: bool)
      modifies this`requestsRejected, this`lastReason, this`armingFailures, this`quiescenceFailures, this`calls
      modifies app`sleepArming, app`armAttempts, app`armSuccesses, app`armFailures, app.service
      ensures rc == Ok <==> old(GateOpen(v))
      ensures armed <==> armSet && rc == Ok
      ensures app.sleepArming == (old(app.sleepArming) || armed) && (armed ==> !old(app.sleepArming))
      ensures requestsRejected == old(requestsRejected) + if rc == Ok then 0 else 1
      ensures rc == Ok ==> lastReason == old(lastReason)
      ensures rc != Ok ==> lastReason == old(GateReason(v))
      ensures armingFailures == old(armingFailures) + if armSet && rc != Ok then 1 else 0
      ensures quiescenceFailures == old(quiescenceFailures)
                                    + if rc != Ok && (!armSet || (!old(app.sleepArming) && ShowsWork(v))) then 1 else 0
      ensures calls == if armSet || guardSet then old(calls) + [Gate(rc)] else old(calls)
    {
      armed := false;
      if !armSet && !guardSet {
        return Ok, false;
      }
      var r;
      if armSet {
        rc, r := app.SleepArm(v);
      } else {
        rc, r := app.SleepQuiescenceGuard(v);
      }
      calls := calls + [Gate(rc)];
      if rc == Ok {
        armed := armSet;
        return;
      }
      if armSet {
        armingFailures := armingFailures + 1;
      }
      if !armSet || NamesWork(r) {
        quiescenceFailures := quiescenceFailures + 1;
      }
      Reject(if r.reason != NoReject then r.reason else if armSet then ArmingFailed else NotQuiescent);
    }

    method DisarmSleep(armed: bool)
      modifies this`disarmCalls, this`calls, app`sleepArming, app`disarmCalls
      ensures app.sleepArming == (old(app.sleepArming) && !(armed && disarmSet))
      ensures calls == if armed && disarmSet then old(calls) + [Disarm] else old(calls)
      ensures disarmCalls == old(disarmCalls) + if armed && disarmSet then 1 else 0
    {
      if armed && disarmSet {
        disarmCalls := disarmCalls + 1;
        calls := calls + [Disarm];
        var rc := app.SleepDisarm();
      }
    }

    method Step(sm: PowerStateMachine, action: PowerAction, rc: Result)
      requires sm.Valid() && Target(sm.state, action).Some? && sm.transitions == |sm.attempted|
      modifies sm, this`lastState
      ensures sm.Valid() && sm.transitions == |sm.attempted|
      ensures sm.state == Target(old(sm.state), action).value == lastState
      ensures sm.attempted == old(sm.attempted) + [action]
    {
      var ignored := sm.Step(action, rc);
      lastState := sm.state;
    }

    /** Flush the log, having passed the gate. */
    method FlushLog(ports: Ports, sm: PowerStateMachine) returns (rc: Result)
      requires sm.Valid() && sm.state == DrainingRuntime && sm.transitions == |sm.attempted|
      modifies sm, this`lastState, this`calls, this`flushFailures, this`requestsRejected, this`lastReason
      ensures sm.Valid() && sm.transitions == |sm.attempted|
      ensures rc == Answer(ports.flush)
      ensures sm.state == lastState == if rc == Ok then LogFlushing else Failed
      ensures calls == old(calls) + Flushing(ports)
      ensures requestsRejected == old(requestsRejected) + if rc == Ok then 0 else 1
      ensures lastReason == if rc == Ok then old(lastReason) else LogFlushRejected
      ensures flushFailures == old(flushFailures) + if rc == Ok then 0 else 1
    {
      hide Reached, Accepted;
      rc := Answer(ports.flush);
      if ports.flush.Some? {
        calls := calls + [Flush(rc)];
      }
      if rc != Ok {
        flushFailures := flushFailures + 1;
        Reject(LogFlushRejected);
        Step(sm, LogFlushFailed, rc);
        return;
      }
      Step(sm, LogFlushComplete, Ok);
    }

    method PreparePorts(ports: Ports, us: nat, sm: PowerStateMachine) returns (rc: Result)
      requires sm.Valid() && sm.state == LogFlushing && sm.transitions == |sm.attempted|
      modifies sm, this`lastState, this`calls, this`prepareFailures, this`requestsRejected, this`lastReason
      ensures sm.Valid() && sm.transitions == |sm.attempted|
      ensures rc == Answer(ports.prepare)
      ensures sm.state == lastState == if rc == Ok then RtcStateSaved else Failed
      ensures calls == old(calls) + Preparing(ports, us)
      ensures requestsRejected == old(requestsRejected) + if rc == Ok then 0 else 1
      ensures lastReason == if rc == Ok then old(lastReason) else PrepareRejected
      ensures prepareFailures == old(prepareFailures) + if rc == Ok then 0 else 1
    {
      hide Reached, Accepted;
      rc := Answer(ports.prepare);
      if ports.prepare.Some? {
        calls := calls + [Prepare(us, rc)];
      }
      if rc != Ok {
        prepareFailures := prepareFailures + 1;
        Reject(PrepareRejected);
        Step(sm, PortsPrepareFailed, rc);
        return;
      }
      Step(sm, PortsPrepared, Ok);
      Step(sm, SaveRtcState, Ok);
    }

    /** Flush, prepare and sleep, up to the first failure. */
    method Descend(ports: Ports, us: nat, sm: PowerStateMachine) returns (rc: Result)
      requires sm.Valid() && sm.state == DrainingRuntime && sm.transitions == |sm.attempted| && ports.deepSleep.Some?
      modifies sm, this`lastState, this`calls, this`flushFailures, this`prepareFailures, this`requestsRejected
      modifies this`lastReason, this`requestsAccepted, this`deepSleepFailures
      ensures sm.Valid() && sm.transitions == |sm.attempted|
      ensures rc == if Answer(ports.flush) != Ok then Answer(ports.flush)
                    else if Answer(ports.prepare) != Ok then Answer(ports.prepare) else ports.deepSleep.value
      ensures sm.state == lastState == if rc == Ok then EnteringDeepSleep else Failed
      ensures calls == old(calls) + Descent(ports, us, app.sleepArming)
      ensures requestsAccepted == old(requestsAccepted) + if Answer(ports.flush) == Ok && Answer(ports.prepare) == Ok
              then 1 else 0
      ensures requestsRejected == old(requestsRejected) + if Answer(ports.flush) == Ok && Answer(ports.prepare) == Ok
              then 0 else 1
      ensures lastReason == if rc == Ok then old(lastReason) else DescentReason(ports)
      ensures DescentCounted(ports, true, old(flushFailures), flushFailures, old(prepareFailures), prepareFailures,
                             old(deepSleepFailures), deepSleepFailures)
    {
      hide PowerStateMachine.Valid, Target, Flushing, Preparing, Sleeping, Descent;
      DescentSteps(calls, ports, us, app.sleepArming);
      rc := FlushLog(ports, sm);
      if rc == Ok {
        rc := PreparePorts(ports, us, sm);
        if rc == Ok {
          rc := EnterSleep(ports, us, sm);
        }
      }
    }

    /** Enter deep sleep; the port returns when the platform did not reset. */
    method EnterSleep(ports: Ports, us: nat, sm: PowerStateMachine) returns (rc: Result)
      requires sm.Valid() && sm.state == RtcStateSaved && sm.transitions == |sm.attempted| && ports.deepSleep.Some?
      modifies sm, this`lastState, this`calls, this`requestsAccepted, this`deepSleepFailures, this`lastReason
      ensures sm.Valid() && sm.transitions == |sm.attempted| && rc == ports.deepSleep.value
      ensures sm.state == lastState == if rc == Ok then EnteringDeepSleep else Failed
      ensures requestsAccepted == old(requestsAccepted) + 1
      ensures calls == old(calls) + Sleeping(ports, us, app.sleepArming)
      ensures lastReason == if rc == Ok then old(lastReason) else DeepSleepRejected
      ensures deepSleepFailures == old(deepSleepFailures) + if rc == Ok then 0 else 1
    {
      hide Reached, Accepted;
      requestsAccepted := requestsAccepted + 1;
      rc := ports.deepSleep.value;
      calls := calls + [DeepSleep(us, rc, sm.state, app.sleepArming)];
      if rc != Ok {
        deepSleepFailures, lastReason := deepSleepFailures + 1, DeepSleepRejected;
        Step(sm, DeepSleepFailed, rc);
        if ports.cancel.Some? {
          calls := calls + [Cancel];
        }
        return;
      }
      Step(sm, DeepSleepEntered, Ok);
    }

    /** Pass the gate, descend, and undo the arming whatever came of it. */
    method Attempt(ports: Ports, us: nat, v: View, sm: PowerStateMachine)
      returns (rc: Result, ghost gate: Result, ghost armed: bool)
      requires sm.Valid() && sm.state == SleepRequested && sm.transitions == |sm.attempted| && ports.deepSleep.Some?
               && calls == []
      modifies sm, this`requestsAccepted, this`requestsRejected
      modifies this`armingFailures, this`quiescenceFailures, this`prepareFailures, this`flushFailures
      modifies this`deepSleepFailures, this`disarmCalls, this`lastState, this`lastReason, this`calls
      modifies app`sleepArming, app`armAttempts, app`armSuccesses, app`armFailures, app`disarmCalls, app.service
      ensures sm.Valid() && sm.transitions == |sm.attempted|
      ensures gate == Ok <==> old(GateOpen(v))
      ensures armed <==> armSet && gate == Ok
      ensures app.sleepArming == (old(app.sleepArming) || (armed && !disarmSet))
      ensures calls == Conversation(armSet || guardSet, gate, armed && disarmSet, ports, us,
                                    armSet || old(app.sleepArming))
      ensures requestsAccepted == old(requestsAccepted) + if Slept(calls) then 1 else 0
      ensures sm.state == lastState == if gate != Ok then Rejected else if rc == Ok then EnteringDeepSleep else Failed
      ensures requestsRejected == old(requestsRejected) + if Slept(calls) then 0 else 1
      ensures lastReason == if gate != Ok then old(GateReason(v)) else if rc == Ok then old(lastReason)
              else DescentReason(ports)
      ensures DescentCounted(ports, gate == Ok, old(flushFailures), flushFailures, old(prepareFailures),
                             prepareFailures,
                             old(deepSleepFailures), deepSleepFailures)
      ensures disarmCalls == old(disarmCalls) + if armed && disarmSet then 1 else 0
      ensures armingFailures == old(armingFailures) + if armSet && gate != Ok then 1 else 0
      ensures quiescenceFailures == old(quiescenceFailures)
                                    + if gate != Ok && (!armSet || (!old(app.sleepArming) && ShowsWork(v))) then 1
                                        else 0
      ensures rc == if gate != Ok then gate else if Answer(ports.flush) != Ok then Answer(ports.flush)
                    else if Answer(ports.prepare) != Ok then Answer(ports.prepare) else ports.deepSleep.value
    {
      hide GateOpen, PowerStateMachine.Valid, Descent, Conversation, Slept;
      var isArmed;
      rc, isArmed := ArmSleep(v);
      gate, armed := rc, isArmed;
      ConversationSteps(calls, armSet || guardSet, gate, armed && disarmSet, ports, us, armSet || old(app.sleepArming));
      WhenAsleep(armSet || guardSet, gate, armed && disarmSet, ports, us, armSet || old(app.sleepArming));
      if rc != Ok {
        Step(sm, DrainRejected, rc);
        return;
      }
      Step(sm, DrainComplete, Ok);
      rc := Descend(ports, us, sm);
      DisarmSleep(isArmed);
    }

    /** Without a deep-sleep port the request ends at once, as an ordinary success. */
    method RefuseUnsupported(sm: PowerStateMachine)
      requires sm.Valid() && sm.state == SleepRequested && sm.transitions == |sm.attempted|
      modifies sm, this`lastState, this`lastReason, this`requestsUnsupported
      ensures sm.Valid() && sm.state == lastState == Rejected && sm.transitions == |sm.attempted|
      ensures lastReason == Unsupported && requestsUnsupported == old(requestsUnsupported) + 1
    {
      requestsUnsupported, lastReason := requestsUnsupported + 1, Unsupported;
      Step(sm, DrainRejected, ErrUnsupported);
    }

    /** A request with a good duration. */
    method Request(ports: Ports, us: nat, v: View, sm: PowerStateMachine)
      returns (rc: Result, ghost gate: Result, ghost armed: bool)
      requires sm.Valid() && sm.state == Active && sm.transitions == |sm.attempted| && calls == []
      modifies sm, this`requestsSeen, this`requestsAccepted, this`requestsRejected, this`requestsUnsupported
      modifies this`armingFailures, this`quiescenceFailures, this`prepareFailures, this`flushFailures
      modifies this`deepSleepFailures, this`disarmCalls, this`lastState, this`lastReason, this`calls
      modifies app`sleepArming, app`armAttempts, app`armSuccesses, app`armFailures, app`disarmCalls, app.service
      ensures sm.Valid() && sm.transitions == |sm.attempted|
      ensures gate == Ok <==> old(GateOpen(v))
      ensures armed <==> armSet && gate == Ok && ports.deepSleep.Some?
      ensures app.sleepArming == (old(app.sleepArming) || (armed && !disarmSet))
      ensures calls == if ports.deepSleep.None? then []
                       else Conversation(armSet || guardSet, gate, armed && disarmSet, ports, us,
                                         armSet || old(app.sleepArming))
      ensures requestsAccepted == old(requestsAccepted) + if Slept(calls) then 1 else 0
      ensures requestsSeen == old(requestsSeen) + 1
      ensures requestsRejected == old(requestsRejected) + if Slept(calls) || ports.deepSleep.None? then 0 else 1
      ensures sm.state == if ports.deepSleep.None? || gate != Ok then Rejected
                          else if rc == Ok then EnteringDeepSleep else Failed
      ensures rc == if ports.deepSleep.None? then Ok else if gate != Ok then gate
                    else if Answer(ports.flush) != Ok then Answer(ports.flush)
                    else if Answer(ports.prepare) != Ok then Answer(ports.prepare) else ports.deepSleep.value
      ensures lastReason == if ports.deepSleep.None? then Unsupported else if gate != Ok then old(GateReason(v))
              else if rc == Ok then NoReject else DescentReason(ports)
      ensures requestsUnsupported == old(requestsUnsupported) + if ports.deepSleep.None? then 1 else 0
      ensures DescentCounted(ports, ports.deepSleep.Some? && gate == Ok, old(flushFailures), flushFailures,
                             old(prepareFailures), prepareFailures, old(deepSleepFailures), deepSleepFailures)
      ensures disarmCalls == old(disarmCalls) + if armed && disarmSet then 1 else 0
      ensures armingFailures == old(armingFailures) + if ports.deepSleep.Some? && armSet && gate != Ok then 1 else 0
      ensures quiescenceFailures == old(quiescenceFailures)
                                    + if ports.deepSleep.Some? && gate != Ok
                                        && (!armSet || (!old(app.sleepArming) && ShowsWork(v)))
                                      then 1 else 0
    {
      hide PowerStateMachine.Valid, Slept, Conversation, Answer;
      requestsSeen, lastReason := requestsSeen + 1, NoReject;
      Step(sm, RequestSleep, Ok);
      if ports.deepSleep.None? {
        NoCallsNoSleep();
        gate, armed := if GateOpen(v) then Ok else ErrState, false;
        RefuseUnsupported(sm);
        return Ok, gate, armed;
      }
      rc, gate, armed := Attempt(ports, us, v, sm);
    }

    /**
     One sleep request.  Every state-machine step is legal, the calls out are exactly
     `Conversation`, and the arming flag comes back as it was unless this request armed
     and no disarm callback is configured.
     */
    method Handle(ms: Option<nat>, ports: Ports, v: View)
      returns (rc: Result, sm: PowerStateMachine, ghost gate: Result, ghost armed: bool)
      modifies this`requestsSeen, this`requestsAccepted, this`requestsRejected, this`requestsUnsupported
      modifies this`armingFailures, this`quiescenceFailures, this`prepareFailures, this`flushFailures
      modifies this`deepSleepFailures, this`disarmCalls, this`lastState, this`lastReason, this`calls
      modifies app`sleepArming, app`armAttempts, app`armSuccesses, app`armFailures, app`disarmCalls, app.service
      ensures fresh(sm) && sm.Valid() && sm.transitions == |sm.attempted|
      ensures gate == Ok <==> old(GateOpen(v))
      ensures armed <==> armSet && gate == Ok && GoodDuration(ms) && ports.deepSleep.Some?
      ensures app.sleepArming == (old(app.sleepArming) || (armed && !disarmSet))
      ensures calls == if !GoodDuration(ms) || ports.deepSleep.None? then []
                       else Conversation(armSet || guardSet, gate, armed && disarmSet, ports, ms.value * 1000,
                                         armSet || old(app.sleepArming))
      ensures requestsAccepted == old(requestsAccepted) + if Slept(calls) then 1 else 0
      ensures requestsSeen == old(requestsSeen) + if GoodDuration(ms) then 1 else 0
      ensures requestsRejected == old(requestsRejected) + if Slept(calls) || (GoodDuration(ms) && ports.deepSleep.None?)
              then 0 else 1
      ensures sm.state == if !GoodDuration(ms) then Active else if ports.deepSleep.None? || gate != Ok then Rejected
                          else if rc == Ok then EnteringDeepSleep else Failed
      ensures rc == if ms.None? then ErrContract else if !GoodDuration(ms) then ErrOutOfRange
                    else if ports.deepSleep.None? then Ok else if gate != Ok then gate
                    else if Answer(ports.flush) != Ok then Answer(ports.flush)
                    else if Answer(ports.prepare) != Ok then Answer(ports.prepare) else ports.deepSleep.value
      ensures lastReason == if ms.None? then BadPayload else if !GoodDuration(ms) then BadDuration
              else if ports.deepSleep.None? then Unsupported else if gate != Ok then old(GateReason(v))
              else if rc == Ok then NoReject else DescentReason(ports)
      ensures requestsUnsupported == old(requestsUnsupported)
                                     + if GoodDuration(ms) && ports.deepSleep.None? then 1 else 0
      ensures DescentCounted(ports, GoodDuration(ms) && ports.deepSleep.Some? && gate == Ok, old(flushFailures),
                             flushFailures, old(prepareFailures), prepareFailures, old(deepSleepFailures),
                             deepSleepFailures)
      ensures disarmCalls == old(disarmCalls) + if armed && disarmSet then 1 else 0
      ensures armingFailures == old(armingFailures)
                                + if GoodDuration(ms) && ports.deepSleep.Some? && armSet && gate != Ok then 1 else 0
      ensures quiescenceFailures == old(quiescenceFailures)
                                    + if GoodDuration(ms) && ports.deepSleep.Some? && gate != Ok
                                        && (!armSet || (!old(app.sleepArming) && ShowsWork(v)))
                                      then 1 else 0
    {
      hide GateOpen, PowerStateMachine.Valid, Slept, Conversation, Answer;
      NoCallsNoSleep();
      sm := new PowerStateMachine();
      gate, armed, calls := if GateOpen(v) then Ok else ErrState, false, [];
      if ms.None? {
        Reject(BadPayload);
        return ErrContract, sm, gate, armed;
      }
      if ms.value == 0 || ms.value > MAX_DURATION_MS {
        Reject(BadDuration);
        return ErrOutOfRange, sm, gate, armed;
      }
      rc, gate, armed := Request(ports, ms.value * 1000, v, sm);
    }
  }

  /** Why a descent that failed did. */
  function DescentReason(p: Ports): RejectReason {
    if Answer(p.flush) != Ok then LogFlushRejected
    else if Answer(p.prepare) != Ok then PrepareRejected
    else DeepSleepRejected
  }

  /** A descent, if one was made, counts its failure where it happened. */
  predicate DescentCounted(p: Ports, made: bool, flush0: nat, flush: nat, prepare0: nat, prepare: nat, sleep0: nat,
                           sleep: nat) {
    var flushed := made && Answer(p.flush) == Ok;
    var prepared := flushed && Answer(p.prepare) == Ok;
    && flush == flush0 + (if made && !flushed then 1 else 0)
    && prepare == prepare0 + (if flushed && !prepared then 1 else 0)
    && sleep == sleep0 + (if prepared && Answer(p.deepSleep) != Ok then 1 else 0)
  }

  predicate Slept(calls: seq<PortCall>) {
    exists i :: 0 <= i < |calls| && calls[i].DeepSleep?
  }

  function Flushing(p: Ports): seq<PortCall> {
    if p.flush.Some? then [Flush(p.flush.value)] else []
  }

  function Preparing(p: Ports, us: nat): seq<PortCall> {
    if p.prepare.Some? then [Prepare(us, p.prepare.value)] else []
  }

  function Sleeping(p: Ports, us: nat, arming: bool): seq<PortCall>
    requires p.deepSleep.Some?
  {
    [DeepSleep(us, p.deepSleep.value, RtcStateSaved, arming)] +
    if p.deepSleep.value != Ok && p.cancel.Some? then [Cancel] else []
  }

  /** The calls between the gate and the disarming. */
  function Descent(p: Ports, us: nat, arming: bool): seq<PortCall>
    requires p.deepSleep.Some?
  {
    if Answer(p.flush) != Ok then Flushing(p)
    else if Answer(p.prepare) != Ok then Flushing(p) + Preparing(p, us)
    else Flushing(p) + Preparing(p, us) + Sleeping(p, us, arming)
  }

  /** A descent made one step at a time, up to its first failure. */
  lemma DescentSteps(before: seq<PortCall>, p: Ports, us: nat, arming: bool)
    requires p.deepSleep.Some?
    ensures
      var all := before + Descent(p, us, arming);
      var flushed := before + Flushing(p);
      if Answer(p.flush) != Ok then all == flushed
      else if Answer(p.prepare) != Ok then all == flushed + Preparing(p, us)
      else all == flushed + Preparing(p, us) + Sleeping(p, us, arming)
  {
    hide Flushing, Preparing, Sleeping;
  }

  /** Everything an accepted request calls: the gate, flush, prepare, deep sleep, cancel, disarm. */
  function Conversation(gated: bool, gate: Result, disarms: bool, p: Ports, us: nat, arming: bool): seq<PortCall>
    requires p.deepSleep.Some?
  {
    (if gated then [Gate(gate)] else []) +
    (if gate == Ok then Descent(p, us, arming) else []) +
    if disarms then [Disarm] else []
  }

  /** A conversation from what the gate was asked on. */
  lemma ConversationSteps(asked: seq<PortCall>, gated: bool, gate: Result, disarms: bool, p: Ports, us: nat,
                          arming: bool)
    requires p.deepSleep.Some? && asked == if gated then [Gate(gate)] else []
    ensures
      Conversation(gated, gate, disarms, p, us, arming) ==
      (if gate == Ok then asked + Descent(p, us, arming) else asked) + if disarms then [Disarm] else []
    ensures !disarms ==>
              Conversation(gated, gate, disarms, p, us, arming) ==
              if gate == Ok then asked + Descent(p, us, arming) else asked
  {
    hide Descent;
    assert asked + [] == asked;
  }

  /** Deep sleep is entered exactly when the gate opened and flush and prepare succeeded. */
  lemma WhenAsleep(gated: bool, gate: Result, disarms: bool, p: Ports, us: nat, arming: bool)
    requires p.deepSleep.Some?
    ensures Slept(Conversation(gated, gate, disarms, p, us, arming)) <==>
            gate == Ok && Answer(p.flush) == Ok && Answer(p.prepare) == Ok
  {
    if gate == Ok && Answer(p.flush) == Ok && Answer(p.prepare) == Ok {
      var g, f, q := if gated then 1 else 0, if p.flush.Some? then 1 else 0, if p.prepare.Some? then 1 else 0;
      assert Descent(p, us, arming)[f + q].DeepSleep?;
      assert Conversation(gated, gate, disarms, p, us, arming)[g + f + q].DeepSleep?;
    }
  }

  /** The deep-sleep call of a descent is the only one and follows a good flush and a good prepare. */
  lemma SleepEndsDescent(p: Ports, us: nat, arming: bool, i: nat)
    requires p.deepSleep.Some?
    requires var c := Descent(p, us, arming); i < |c| && c[i].DeepSleep?
    ensures
      var c := Descent(p, us, arming);
      && c[i] == DeepSleep(us, p.deepSleep.value, RtcStateSaved, arming)
      && (p.flush.Some? ==> Flush(Ok) in c[..i])
      && (p.prepare.Some? ==> Prepare(us, Ok) in c[..i])
      && (forall j :: 0 <= j < |c| && c[j].DeepSleep? ==> j == i)
      && c[i..] == Sleeping(p, us, arming)
  {
    var c := Descent(p, us, arming);
    assert Answer(p.flush) == Ok && Answer(p.prepare) == Ok;
    if p.flush.Some? { assert c[0] == c[..i][0] == Flush(Ok); }
    if p.prepare.Some? { assert c[i - 1] == c[..i][i - 1] == Prepare(us, Ok); }
  }

  lemma NoCallsNoSleep()
    ensures !Slept([])
  {
  }

  /** Sleep calls of a conversation are sleep calls of its descent. */
  lemma SleepIsInDescent(gate: seq<PortCall>, d: seq<PortCall>, tail: seq<PortCall>, i: nat)
    requires var c := gate + d + tail; i < |c| && c[i].DeepSleep?
    requires forall j :: 0 <= j < |gate| ==> !gate[j].DeepSleep?
    requires forall j :: 0 <= j < |tail| ==> !tail[j].DeepSleep?
    ensures |gate| <= i < |gate| + |d| && d[i - |gate|] == (gate + d + tail)[i]
    ensures (gate + d + tail)[..i] == gate + d[..i - |gate|]
    ensures (gate + d + tail)[i..] == d[i - |gate|..] + tail
  {
  }

  /**
   Before the deep-sleep call come an open gate, a successful flush and a successful
   prepare, each when configured; it is the only one, the machine is in the state every
   preparation leads to, and a failure is cancelled and the arming undone after it.
   */
  lemma DeepSleepIsGuarded(gated: bool, gate: Result, disarms: bool, p: Ports, us: nat, arming: bool, i: nat)
    requires p.deepSleep.Some?
    requires var c := Conversation(gated, gate, disarms, p, us, arming); i < |c| && c[i].DeepSleep?
    ensures
      var c := Conversation(gated, gate, disarms, p, us, arming);
      && c[i] == DeepSleep(us, p.deepSleep.value, RtcStateSaved, arming)
      && (gated ==> Gate(Ok) in c[..i])
      && (p.flush.Some? ==> Flush(Ok) in c[..i])
      && (p.prepare.Some? ==> Prepare(us, Ok) in c[..i])
      && c[i..] == Sleeping(p, us, arming) + if disarms then [Disarm] else []
  {
    hide Sleeping, Answer, Descent;
    var g, d, t := if gated then [Gate(gate)] else [], Descent(p, us, arming), if disarms then [Disarm] else [];
    assert gate == Ok;
    assert Conversation(gated, gate, disarms, p, us, arming) == g + d + t;
    SleepIsInDescent(g, d, t, i);
    SleepEndsDescent(p, us, arming, i - |g|);
    if gated { assert (g + d[..i - |g|])[0] == Gate(Ok); }
  }

  /** A conversation enters deep sleep once at most. */
  lemma SleepsOnce(gated: bool, gate: Result, disarms: bool, p: Ports, us: nat, arming: bool, i: nat, j: nat)
    requires p.deepSleep.Some?
    requires
      var c := Conversation(gated, gate, disarms, p, us, arming);
      i < |c| && j < |c| && c[i].DeepSleep? && c[j].DeepSleep?
    ensures i == j
  {
    hide Sleeping, Answer;
    DeepSleepIsGuarded(gated, gate, disarms, p, us, arming, i);
    DeepSleepIsGuarded(gated, gate, disarms, p, us, arming, j);
    assert |Sleeping(p, us, arming)| > 0;
  }

  /** Being in the state the deep-sleep call is made in takes all five preparation steps, in order. */
  lemma SavedMeansPrepared(sm: PowerStateMachine)
    requires sm.Valid() && sm.state == RtcStateSaved && sm.transitions == |sm.attempted|
    ensures EndsWith(Accepted(sm.attempted),
                     [RequestSleep, DrainComplete, LogFlushComplete, PortsPrepared, SaveRtcState])
  {
    SleepOnlyAfterEveryStep(sm.attempted);
  }
}
