/**
 The sleep state machine (`runtime/src/ev_power_state_machine.c`).  An action the current
 state does not allow is refused and leaves the state alone.
 */
module PowerStates {
  import opened Results

  datatype PowerState =
    | Active | SleepRequested | DrainingRuntime | LogFlushing | PortsPrepareSleep
    | RtcStateSaved | EnteringDeepSleep | WakeBoot | Rejected | Failed

  datatype PowerAction =
    | RequestSleep | DrainComplete | DrainRejected | LogFlushComplete | LogFlushFailed
    | PortsPrepared | PortsPrepareFailed | SaveRtcState | RtcStateSaveFailed
    | DeepSleepEntered | DeepSleepFailed | Wake

  /** The state an action leads to, if the current state allows it. */
  function Target(from: PowerState, action: PowerAction): Option<PowerState> {
    match action
    case RequestSleep => if from == Active then Some(SleepRequested) else None
    case DrainComplete => if from == SleepRequested then Some(DrainingRuntime) else None
    case DrainRejected => if from == SleepRequested || from == DrainingRuntime then Some(Rejected) else None
    case LogFlushComplete => if from == DrainingRuntime then Some(LogFlushing) else None
    case LogFlushFailed => if from == DrainingRuntime || from == LogFlushing then Some(Failed) else None
    case PortsPrepared => if from == LogFlushing then Some(PortsPrepareSleep) else None
    case PortsPrepareFailed => if from == LogFlushing || from == PortsPrepareSleep then Some(Failed) else None
    case SaveRtcState => if from == PortsPrepareSleep then Some(RtcStateSaved) else None
    case RtcStateSaveFailed => if from == PortsPrepareSleep then Some(Failed) else None
    case DeepSleepEntered => if from == RtcStateSaved then Some(EnteringDeepSleep) else None
    case DeepSleepFailed => if from == RtcStateSaved || from == EnteringDeepSleep then Some(Failed) else None
    case Wake => if from == WakeBoot || from == EnteringDeepSleep || from == Failed || from == Rejected
        then Some(Active) else None
  }

  /** The way down, one preparation after the other. */
  const DESCENT: seq<PowerState> :=
    [Active, SleepRequested, DrainingRuntime, LogFlushing, PortsPrepareSleep, RtcStateSaved, EnteringDeepSleep]

  const STEPS: seq<PowerAction> :=
    [RequestSleep, DrainComplete, LogFlushComplete, PortsPrepared, SaveRtcState, DeepSleepEntered]

  /** Step `i` leads from stage `i` of the descent to the next and from nowhere else. */
  lemma StepsAre(from: PowerState, i: nat)
    requires i < |STEPS|
    ensures Target(from, STEPS[i]) == if from == DESCENT[i] then Some(DESCENT[i + 1]) else None
  {
  }

  /**
   The rest of the transition relation.  A failed step leads out of the stage it was tried in,
   and most also out of the stage it would have reached.  Waking leads back from wherever a
   descent ends.
   */
  lemma ExitsAre(from: PowerState, action: PowerAction)
    requires action !in STEPS
    ensures Target(from, action) in [None, Some(match action
                                                case DrainRejected => Rejected
                                                case Wake => Active
                                                case _ => Failed)]
    ensures Target(from, action).Some? <==>
              match action
              case DrainRejected => from in [SleepRequested, DrainingRuntime]
              case LogFlushFailed => from in [DrainingRuntime, LogFlushing]
              case PortsPrepareFailed => from in [LogFlushing, PortsPrepareSleep]
              case RtcStateSaveFailed => from == PortsPrepareSleep
              case DeepSleepFailed => from in [RtcStateSaved, EnteringDeepSleep]
              case _ => from in [EnteringDeepSleep, WakeBoot, Rejected, Failed]
  {
  }

  /** The state after attempting actions from the active state. */
  function Reached(actions: seq<PowerAction>): PowerState {
    if actions == [] then Active
    else
      var s := Reached(actions[..|actions| - 1]);
      var t := Target(s, actions[|actions| - 1]);
      if t.Some? then t.value else s
  }

  /** The actions among those attempted that were allowed. */
  function Accepted(actions: seq<PowerAction>): seq<PowerAction> {
    if actions == [] then []
    else
      var prior := actions[..|actions| - 1];
      var action := actions[|actions| - 1];
      Accepted(prior) + if Target(Reached(prior), action).Some? then [action] else []
  }

  /** The actions that must have been accepted, in this order and nothing between, to be in a state. */
  function Preparations(s: PowerState): seq<PowerAction> {
    match s
    case SleepRequested => [RequestSleep]
    case DrainingRuntime => [RequestSleep, DrainComplete]
    case LogFlushing => [RequestSleep, DrainComplete, LogFlushComplete]
    case PortsPrepareSleep => [RequestSleep, DrainComplete, LogFlushComplete, PortsPrepared]
    case RtcStateSaved => [RequestSleep, DrainComplete, LogFlushComplete, PortsPrepared, SaveRtcState]
    case EnteringDeepSleep => [RequestSleep, DrainComplete, LogFlushComplete, PortsPrepared, SaveRtcState,
                               DeepSleepEntered]
    case _ => []
  }

  predicate EndsWith(s: seq<PowerAction>, t: seq<PowerAction>) {
    |t| <= |s| && s[|s| - |t|..] == t
  }

  /**
   Whatever actions are attempted, in whatever order, a sleep state is only ever reached by
   accepting every preparation step in turn; nothing leads to the wake-boot state.
   */
  lemma {:induction false} SleepOnlyAfterEveryStep(actions: seq<PowerAction>)
    ensures EndsWith(Accepted(actions), Preparations(Reached(actions)))
    ensures Reached(actions) != WakeBoot
    decreases |actions|
  {
    if actions != [] {
      var prior := actions[..|actions| - 1];
      SleepOnlyAfterEveryStep(prior);
      var s, action := Reached(prior), actions[|actions| - 1];
      if Target(s, action).Some? && Preparations(Target(s, action).value) != [] {
        assert Preparations(Target(s, action).value) == Preparations(s) + [action];
        EndsWithAppend(Accepted(prior), Preparations(s), action);
      }
    }
  }

  lemma EndsWithAppend(s: seq<PowerAction>, t: seq<PowerAction>, a: PowerAction)
    requires EndsWith(s, t)
    ensures EndsWith(s + [a], t + [a])
  {
    assert (s + [a])[|s| - |t|..] == s[|s| - |t|..] + [a];
  }

  /** One action more. */
  lemma ReachedNext(actions: seq<PowerAction>, action: PowerAction)
    ensures
      var t := Target(Reached(actions), action);
      Reached(actions + [action]) == if t.Some? then t.value else Reached(actions)
  {
    assert (actions + [action])[..|actions + [action]| - 1] == actions;
  }

  /** The preparations lead down to every stage. */
  lemma {:induction false} StageIsReached(i: nat)
    requires i <= |STEPS|
    ensures Reached(STEPS[..i]) == DESCENT[i]
  {
    if i > 0 {
      StageIsReached(i - 1);
      StepsAre(DESCENT[i - 1], i - 1);
      assert STEPS[..i] == STEPS[..i - 1] + [STEPS[i - 1]];
      ReachedNext(STEPS[..i - 1], STEPS[i - 1]);
    }
  }

  /** The state is reached and left again by these actions. */
  ghost predicate ThereAndBack(s: PowerState, there: seq<PowerAction>, back: seq<PowerAction>) {
    Reached(there) == s && |back| <= 2 && Reached(there + back) == Active
  }

  /** A failed step out of a stage, and waking from there. */
  lemma FailAndWake(i: nat, fail: PowerAction, end: PowerState)
    requires i <= |STEPS| && Target(DESCENT[i], fail) == Some(end) && Target(end, Wake) == Some(Active)
    ensures ThereAndBack(DESCENT[i], STEPS[..i], [fail, Wake]) && ThereAndBack(end, STEPS[..i] + [fail], [Wake])
  {
    StageIsReached(i);
    ReachedNext(STEPS[..i], fail);
    ReachedNext(STEPS[..i] + [fail], Wake);
    assert STEPS[..i] + [fail, Wake] == STEPS[..i] + [fail] + [Wake];
  }

  /** Every state but the wake-boot one can be reached, and two actions at most lead back from it. */
  lemma NoDeadEnd(s: PowerState)
    requires s != WakeBoot
    ensures exists there, back :: ThereAndBack(s, there, back)
  {
    hide ThereAndBack;
    match s
    case Active => ThereAlready();
    case SleepRequested => FailAndWake(1, DrainRejected, Rejected);
    case DrainingRuntime => FailAndWake(2, DrainRejected, Rejected);
    case LogFlushing => FailAndWake(3, LogFlushFailed, Failed);
    case PortsPrepareSleep => FailAndWake(4, PortsPrepareFailed, Failed);
    case RtcStateSaved => FailAndWake(5, DeepSleepFailed, Failed);
    case EnteringDeepSleep => FailAndWake(6, DeepSleepFailed, Failed);
    case Rejected => FailAndWake(1, DrainRejected, Rejected);
    case Failed => FailAndWake(5, DeepSleepFailed, Failed);
  }

  lemma ThereAlready()
    ensures ThereAndBack(Active, [], [])
  {
    var none: seq<PowerAction> := [];
    assert none + none == none;
  }

  class PowerStateMachine {
    var state: PowerState
    var previous: PowerState
    var lastAction: PowerAction
    var lastError: Result
    var transitions: nat
    /** Every action attempted since the start. */
    ghost var attempted: seq<PowerAction>

    /** The state is the one the attempted actions reach, and the counter counts those accepted. */
    ghost predicate Valid()
      reads this
    {
      state == Reached(attempted) && transitions == |Accepted(attempted)| <= |attempted|
    }

    constructor ()
      ensures Valid() && state == Active && attempted == []
    {
      state, previous, lastAction, lastError := Active, Active, RequestSleep, Ok;
      transitions, attempted := 0, [];
    }

    method Step(action: PowerAction, input: Result) returns (rc: Result)
      requires Valid()
      modifies this
      ensures Valid() && attempted == old(attempted) + [action]
      ensures rc == if Target(old(state), action).Some? then Ok else ErrState
      ensures state == if rc == Ok then Target(old(state), action).value else old(state)
      ensures transitions == old(transitions) + if rc == Ok then 1 else 0
      ensures previous == old(state) && lastAction == action && lastError == if rc == Ok then input else ErrState
    {
      var next := Target(state, action);
      previous, lastAction := state, action;
      ghost var prior := attempted;
      attempted := attempted + [action];
      assert attempted[..|attempted| - 1] == prior;
      if next.None? {
        lastError := ErrState;
        return ErrState;
      }
      state, lastError, transitions := next.value, input, transitions + 1;
      return Ok;
    }
  }
}
