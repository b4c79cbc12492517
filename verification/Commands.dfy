/**
 Two-phase sleep in the command actor (`actors/framework/ev_command_actor.c`): a sleep is
 armed with a nonce and a duration, and confirmed with the same nonce before a window of
 ticks has passed.  Ticks are counted in 32 bits and wrap.
 */
module Commands {
  import opened Results
  import opened Bits
  import opened KeyValues

  const CONFIRM_WINDOW: nat := 30
  const MIN_INTERVAL: nat := 1
  const TOPIC_MAX: nat := 16
  const NONCE_MAX: nat := 16
  const TOKEN_MAX: nat := 32
  const MAX_SLEEP_MS: nat := 24 * 60 * 60 * 1000

  datatype Config = Config(token: Option<string>, sleepAllowed: bool)

  /** The actor's sleep state. */
  datatype Sleeper = Sleeper(tick: Word32, lastSleep: Word32, armed: bool, duration: nat, expiry: Word32, nonce: string)

  const Initial: Sleeper := Sleeper(0, WORD - 1, false, 0, 0, "")

  /** The window has passed, by the wrapped counters. */
  predicate Expired(v: Sleeper) {
    (v.tick - v.expiry) % WORD < UINT32_MAX / 2
  }

  predicate RateLimited(v: Sleeper) {
    (v.tick - v.lastSleep) % WORD < MIN_INTERVAL
  }

  function TickStep(v: Sleeper): Sleeper {
    var u := v.(tick := (v.tick + 1) % WORD);
    if u.armed && Expired(u) then u.(armed := false) else u
  }

  /** An arm request: a nonce of 1 to 15 characters and a duration in range. */
  predicate ArmValid(state: map<string, string>) {
    && "arm" in state && "ms" in state
    && 0 < |state["arm"]| < NONCE_MAX && Printable(state["arm"])
    && IsUint32(state["ms"]) && 0 < DecimalValue(state["ms"]) <= MAX_SLEEP_MS
  }

  predicate Arms(c: Config, v: Sleeper, state: map<string, string>) {
    c.sleepAllowed && !RateLimited(v) && ArmValid(state)
  }

  function ArmStep(c: Config, v: Sleeper, state: map<string, string>): Sleeper {
    if Arms(c, v, state) then
      v.(nonce := state["arm"], duration := DecimalValue(state["ms"]),
         expiry := (v.tick + CONFIRM_WINDOW) % WORD, armed := true)
    else v
  }

  /** A confirmation that names the armed nonce. */
  predicate Confirms(c: Config, v: Sleeper, state: map<string, string>) {
    c.sleepAllowed && v.armed && "confirm" in state && state["confirm"] == v.nonce
  }

  /** The state after a confirmation; `delivered` is whether the command was accepted. */
  function ConfirmStep(c: Config, v: Sleeper, state: map<string, string>, delivered: bool): Sleeper {
    if !Confirms(c, v, state) then v
    else if Expired(v) || !delivered then v.(armed := false)
    else v.(armed := false, lastSleep := v.tick)
  }

  predicate Authorized(c: Config, state: map<string, string>) {
    c.token.Some? && c.token.value != "" && "token" in state && state["token"] == c.token.value
  }

  /** What a received message asks of the sleep state. */
  datatype Request = Nothing | Arm(state: map<string, string>) | Confirm(state: map<string, string>)

  function Asked(c: Config, topic: string, payload: string): Request {
    if !(0 < |topic| <= TOPIC_MAX) || !Acceptable(payload) then Nothing
    else
      var state := LastValues(Parse(payload, 0).value);
      if !Authorized(c, state) || topic != "cmd/sleep" then Nothing
      else if "arm" in state then Arm(state)
      else if "confirm" in state then Confirm(state)
      else Nothing
  }

  /** The payload's pairs show the configured token, which is not empty. */
  ghost predicate ShowsToken(c: Config, ps: seq<Pair>) {
    c.token.Some? && c.token.value != "" && Says(ps, "token", c.token.value)
  }

  /**
   What a message must be to reach the sleep state: of the sleep topic, a well-formed payload,
   and pairs that show the token and ask to arm or to confirm.  A wrong, missing or empty
   token, here or in the configuration, reaches nothing.
   */
  lemma AskedIsExact(c: Config, topic: string, payload: string, ps: seq<Pair>)
    requires Acceptable(payload) ==> IsRendering(payload, ps)
    ensures
      var r := Asked(c, topic, payload);
      var heard := topic == "cmd/sleep" && Acceptable(payload) && ShowsToken(c, ps);
      && (r.Arm? <==> heard && Mentions(ps, "arm"))
      && (r.Confirm? <==> heard && !Mentions(ps, "arm") && Mentions(ps, "confirm"))
      && (!r.Nothing? ==> r.state == LastValues(ps))
  {
    if Acceptable(payload) {
      AcceptedPayloads(payload);
      hide Acceptable, LastValues, Parse;
      ValuesAreSaid(ps, "token", if c.token.Some? then c.token.value else "");
      ValuesAreSaid(ps, "arm", "");
      ValuesAreSaid(ps, "confirm", "");
    }
  }

  class CommandActor {
    const config: Config
    var tick: Word32
    var lastSleep: Word32
    var armed: bool
    var duration: nat
    var expiry: Word32
    var nonce: string

    function Value(): Sleeper
      reads this
    {
      Sleeper(tick, lastSleep, armed, duration, expiry, nonce)
    }

    /** A token longer than the limit disables the actor. */
    constructor (token: Option<string>, sleepAllowed: bool)
      ensures Value() == Initial
      ensures config == Config(if token.Some? && |token.value| <= TOKEN_MAX then token else None, sleepAllowed)
    {
      config := Config(if token.Some? && |token.value| <= TOKEN_MAX then token else None, sleepAllowed);
      tick, lastSleep, armed, duration, expiry, nonce := 0, WORD - 1, false, 0, 0, "";
    }

    method HandleTick()
      modifies this
      ensures Value() == TickStep(old(Value()))
    {
      tick := (tick + 1) % WORD;
      if armed && (tick - expiry) % WORD < UINT32_MAX / 2 {
        armed := false;
      }
    }

    method HandleSleepArm(state: map<string, string>)
      modifies this
      ensures Value() == ArmStep(config, old(Value()), state)
    {
      if !config.sleepAllowed || (tick - lastSleep) % WORD < MIN_INTERVAL {
        return;
      }
      if "arm" !in state || "ms" !in state || |state["arm"]| == 0 || |state["arm"]| >= NONCE_MAX
          || !Printable(state["arm"]) {
        return;
      }
      var ok, ms := ParseUint32Dec(state["ms"]);
      if !ok || ms == 0 || ms > MAX_SLEEP_MS {
        return;
      }
      nonce, duration, expiry, armed := state["arm"], ms, (tick + CONFIRM_WINDOW) % WORD, true;
    }

    /** Publishes at most one command, with the armed duration; the arming is gone either way. */
    method HandleSleepConfirm(state: map<string, string>, delivered: bool) returns (command: Option<nat>)
      modifies this
      ensures Value() == ConfirmStep(config, old(Value()), state, delivered)
      ensures command == if Confirms(config, old(Value()), state) && !Expired(old(Value()))
                         then Some(old(duration)) else None
    {
      command := None;
      if !config.sleepAllowed {
        return;
      }
      if !armed || "confirm" !in state || |state["confirm"]| != |nonce| || state["confirm"] != nonce {
        return;
      }
      if (tick - expiry) % WORD < UINT32_MAX / 2 {
        armed := false;
        return;
      }
      command := Some(duration);
      armed := false;
      if delivered {
        lastSleep := tick;
      }
    }

    /** A received message; only an authorised, well-formed sleep message touches the sleep state. */
    method Dispatch(topic: string, payload: string, delivered: bool) returns (command: Option<nat>)
      modifies this
      ensures
        var r := Asked(config, topic, payload);
        Value() == match r
                   case Nothing => old(Value())
                   case Arm(state) => ArmStep(config, old(Value()), state)
                   case Confirm(state) => ConfirmStep(config, old(Value()), state, delivered)
      ensures
        var r := Asked(config, topic, payload);
        command == if r.Confirm? && Confirms(config, old(Value()), r.state) && !Expired(old(Value()))
            then Some(old(duration)) else None
    {
      hide LastValues, Parse, Acceptable, ArmStep, ConfirmStep, Confirms, Expired;
      command := None;
      if |topic| == 0 || |topic| > TOPIC_MAX {
        return;
      }
      var ok, state := ParsePayload(payload);
      if !ok || !Authorized(config, state) {
        return;
      }
      if topic == "cmd/sleep" {
        if "arm" in state {
          HandleSleepArm(state);
        } else if "confirm" in state {
          command := HandleSleepConfirm(state, delivered);
        }
      }
    }
  }

  // ----- runs -----

  datatype Input = Tick | Receive(topic: string, payload: string, delivered: bool)

  /** What happened to the sleep state, at which true tick. */
  datatype Event =
    | Armed(at: nat, duration: nat, nonce: string)
    | Commanded(at: nat, duration: nat, nonce: string, delivered: bool)

  /** A run: the state, the true number of ticks, and the history. */
  datatype Run = Run(v: Sleeper, now: nat, log: seq<Event>)

  function Exec(c: Config, r: Run, i: Input): Run {
    match i
    case Tick => r.(v := TickStep(r.v), now := r.now + 1)
    case Receive(topic, payload, delivered) =>
      match Asked(c, topic, payload)
      case Nothing => r
      case Arm(state) =>
        var log := if Arms(c, r.v, state) then [Armed(r.now, DecimalValue(state["ms"]), state["arm"])] else [];
        r.(v := ArmStep(c, r.v, state), log := r.log + log)
      case Confirm(state) =>
        var log := if Confirms(c, r.v, state) && !Expired(r.v)
            then [Commanded(r.now, r.v.duration, state["confirm"], delivered)] else [];
        r.(v := ConfirmStep(c, r.v, state, delivered), log := r.log + log)
  }

  function RunOf(c: Config, inputs: seq<Input>): Run
    decreases |inputs|
  {
    if inputs == [] then Run(Initial, 0, [])
    else Exec(c, RunOf(c, inputs[..|inputs| - 1]), inputs[|inputs| - 1])
  }

  /** A command right after an arming, with its duration and nonce, inside its window. */
  ghost predicate Fulfils(arm: Event, command: Event) {
    && arm.Armed? && command.Commanded?
    && command.duration == arm.duration && command.nonce == arm.nonce
    && arm.at <= command.at < arm.at + CONFIRM_WINDOW
  }

  ghost predicate EveryCommandIsArmed(log: seq<Event>) {
    forall i :: 0 <= i < |log| && log[i].Commanded? ==> i > 0 && Fulfils(log[i - 1], log[i])
  }

  ghost predicate ArmsInRange(log: seq<Event>) {
    forall i :: 0 <= i < |log| && log[i].Armed? ==>
        0 < log[i].duration <= MAX_SLEEP_MS && 0 < |log[i].nonce| < NONCE_MAX
  }

  /** While armed, the last thing that happened is the arming, and its window is still open. */
  ghost predicate ArmedIsRecent(r: Run) {
    && r.v.tick == r.now % WORD
    && (r.v.armed ==>
          && r.log != [] && r.log[|r.log| - 1] == Armed(r.log[|r.log| - 1].at, r.v.duration, r.v.nonce)
          && r.log[|r.log| - 1].at <= r.now < r.log[|r.log| - 1].at + CONFIRM_WINDOW
          && r.v.expiry == (r.log[|r.log| - 1].at + CONFIRM_WINDOW) % WORD)
  }

  /** An open window is not expired and a window just closed is, by the wrapped counters. */
  lemma WindowIsExact(now: nat, start: nat)
    requires start <= now <= start + CONFIRM_WINDOW
    ensures (now % WORD - (start + CONFIRM_WINDOW) % WORD) % WORD < UINT32_MAX / 2 <==> now == start + CONFIRM_WINDOW
  {
    var d := start + CONFIRM_WINDOW - now;
    WrappedGap(now, d);
  }

  lemma WrappedGap(now: nat, d: nat)
    requires d < WORD
    ensures (now % WORD - (now + d) % WORD) % WORD == (WORD - d) % WORD
  {
  }

  /** The history is well formed and the state agrees with it. */
  ghost predicate Sound(r: Run) {
    ArmedIsRecent(r) && EveryCommandIsArmed(r.log) && ArmsInRange(r.log)
  }

  lemma NextTick(now: nat)
    ensures (now % WORD + 1) % WORD == (now + 1) % WORD
  {
  }

  lemma ExpiresAtWindow(v: Sleeper, now: nat, start: nat)
    requires start <= now <= start + CONFIRM_WINDOW
    requires v.tick == now % WORD && v.expiry == (start + CONFIRM_WINDOW) % WORD
    ensures Expired(v) <==> now == start + CONFIRM_WINDOW
  {
    WindowIsExact(now, start);
  }

  lemma TickKeepsArming(c: Config, r: Run)
    requires Sound(r)
    ensures Sound(Exec(c, r, Tick))
  {
    hide EveryCommandIsArmed, ArmsInRange, Expired;
    NextTick(r.now);
    if r.v.armed {
      ExpiresAtWindow(r.v.(tick := (r.v.tick + 1) % WORD), r.now + 1, r.log[|r.log| - 1].at);
    }
  }

  lemma WindowWraps(now: nat)
    ensures (now % WORD + CONFIRM_WINDOW) % WORD == (now + CONFIRM_WINDOW) % WORD
  {
  }

  lemma ArmKeepsArming(r: Run, e: Event, v: Sleeper)
    requires Sound(r) && e.Armed? && 0 < e.duration <= MAX_SLEEP_MS && 0 < |e.nonce| < NONCE_MAX
    requires e.at == r.now && v.tick == r.v.tick && v.duration == e.duration && v.nonce == e.nonce
    requires v.expiry == (r.v.tick + CONFIRM_WINDOW) % WORD
    ensures Sound(r.(v := v, log := r.log + [e]))
  {
    hide Fulfils;
    WindowWraps(r.now);
  }

  lemma ConfirmKeepsArming(r: Run, e: Event, v: Sleeper)
    requires Sound(r) && r.v.armed && !v.armed && v.tick == r.v.tick
    requires e.Commanded? && e.duration == r.v.duration && e.nonce == r.v.nonce && e.at == r.now
    ensures Sound(r.(v := v, log := r.log + [e]))
  {
    var arm := r.log[|r.log| - 1];
    assert Fulfils(arm, e);
  }

  lemma DisarmKeepsArming(r: Run, v: Sleeper)
    requires Sound(r) && !v.armed && v.tick == r.v.tick
    ensures Sound(r.(v := v))
  {
  }

  lemma StepKeepsArming(c: Config, r: Run, i: Input)
    requires Sound(r)
    ensures Sound(Exec(c, r, i))
  {
    hide Asked, Sound, Printable, IsUint32, Expired, RateLimited, DecimalValue;
    var o := Exec(c, r, i);
    if i.Tick? {
      TickKeepsArming(c, r);
    } else if o.log != r.log {
      var e := o.log[|r.log|];
      assert o == r.(v := o.v, log := r.log + [e]);
      if e.Armed? {
        ArmKeepsArming(r, e, o.v);
      } else {
        ConfirmKeepsArming(r, e, o.v);
      }
    } else if o.v != r.v {
      DisarmKeepsArming(r, o.v);
      assert o == r.(v := o.v);
    } else {
      assert o == r;
    }
  }

  /**
   Over every run, whatever is received and however often the counter wraps: a sleep
   command comes right after an arming (so no arming gives two), carries that arming's
   duration and nonce, and is published before its window ends.
   */
  lemma {:induction false} CommandsAreArmed(c: Config, inputs: seq<Input>)
    ensures Sound(RunOf(c, inputs))
    decreases |inputs|
  {
    hide Exec, Sound;
    if inputs == [] {
      NothingYet(c);
    } else {
      CommandsAreArmed(c, inputs[..|inputs| - 1]);
      StepKeepsArming(c, RunOf(c, inputs[..|inputs| - 1]), inputs[|inputs| - 1]);
    }
  }

  lemma NothingYet(c: Config)
    ensures Sound(Run(Initial, 0, []))
  {
  }

  /** The expiry check of a confirmation never fires: the tick that closes a window disarms. */
  lemma ConfirmFindsWindowOpen(c: Config, inputs: seq<Input>)
    ensures RunOf(c, inputs).v.armed ==> !Expired(RunOf(c, inputs).v)
  {
    hide RunOf;
    CommandsAreArmed(c, inputs);
    var r := RunOf(c, inputs);
    if r.v.armed {
      WindowIsExact(r.now, r.log[|r.log| - 1].at);
    }
  }

  // ----- where events come from, and which requests succeed -----

  /** The message asked for the event, and showed the token. */
  ghost predicate Requested(c: Config, i: Input, e: Event) {
    && i.Receive? && i.topic == "cmd/sleep"
    && exists ps ::
         && IsRendering(i.payload, ps) && ShowsToken(c, ps)
         && if e.Armed?
            then
              && Says(ps, "arm", e.nonce)
              && exists ms :: Says(ps, "ms", ms) && IsUint32(ms) && DecimalValue(ms) == e.duration
            else Says(ps, "confirm", e.nonce) && e.delivered == i.delivered
  }

  lemma EventIsRequested(c: Config, r: Run, i: Input)
    requires Exec(c, r, i).log != r.log
    ensures |Exec(c, r, i).log| == |r.log| + 1 && r.log <= Exec(c, r, i).log
    ensures Requested(c, i, Exec(c, r, i).log[|r.log|])
  {
    hide LastValues, Parse, IsUint32, Expired, RateLimited, Printable;
    AcceptedPayloads(i.payload);
    if !Asked(c, i.topic, i.payload).Nothing? {
      var ps :| IsRendering(i.payload, ps);
      AskedIsExact(c, i.topic, i.payload, ps);
      RequestSays(c, r, i, ps);
    }
  }

  lemma RequestSays(c: Config, r: Run, i: Input, ps: seq<Pair>)
    requires i.Receive? && Exec(c, r, i).log != r.log && IsRendering(i.payload, ps) && ShowsToken(c, ps)
    requires i.topic == "cmd/sleep" && !Asked(c, i.topic, i.payload).Nothing?
    requires Asked(c, i.topic, i.payload).state == LastValues(ps)
    ensures |Exec(c, r, i).log| == |r.log| + 1
    ensures Requested(c, i, Exec(c, r, i).log[|r.log|])
  {
    hide LastValues, Asked, ShowsToken, IsRendering, IsUint32, Expired, RateLimited, Printable, Says;
    var state := LastValues(ps);
    ValuesAreSaid(ps, "arm", if "arm" in state then state["arm"] else "");
    ValuesAreSaid(ps, "ms", if "ms" in state then state["ms"] else "");
    ValuesAreSaid(ps, "confirm", if "confirm" in state then state["confirm"] else "");
    assert Requested(c, i, Exec(c, r, i).log[|r.log|]);
  }

  /** Over every run, each arming and each command was asked for by a message that showed the token. */
  lemma {:induction false} EventsAreRequested(c: Config, inputs: seq<Input>, k: nat)
    requires k < |RunOf(c, inputs).log|
    ensures exists n :: 0 <= n < |inputs| && Requested(c, inputs[n], RunOf(c, inputs).log[k])
    decreases |inputs|
  {
    hide Exec, Requested;
    var n := |inputs| - 1;
    var before := RunOf(c, inputs[..n]);
    if k < |before.log| {
      if RunOf(c, inputs).log != before.log {
        EventIsRequested(c, before, inputs[n]);
      }
      EventsAreRequested(c, inputs[..n], k);
    } else {
      EventIsRequested(c, before, inputs[n]);
      assert Requested(c, inputs[n], RunOf(c, inputs).log[k]);
    }
  }

  function AfterTicks(c: Config, r: Run, k: nat): Run {
    if k == 0 then r else Exec(c, AfterTicks(c, r, k - 1), Tick)
  }

  /** An arming lasts for the ticks of its window and ends with it. */
  lemma {:induction false} ArmingLasts(c: Config, r: Run, k: nat)
    requires r.v.armed && r.v.tick == r.now % WORD && r.v.expiry == (r.now + CONFIRM_WINDOW) % WORD
    requires k <= CONFIRM_WINDOW
    ensures AfterTicks(c, r, k) ==
            r.(now := r.now + k, v := r.v.(tick := (r.now + k) % WORD, armed := k < CONFIRM_WINDOW))
  {
    hide Expired;
    if k > 0 {
      ArmingLasts(c, r, k - 1);
      NextTick(r.now + k - 1);
      ExpiresAtWindow(r.v.(tick := (r.now + k) % WORD), r.now + k, r.now);
    }
  }

  lemma ArmingStarts(c: Config, r: Run, i: Input)
    requires i.Receive? && Asked(c, i.topic, i.payload).Arm? && r.v.tick == r.now % WORD
    requires Arms(c, r.v, Asked(c, i.topic, i.payload).state)
    ensures
      var state := Asked(c, i.topic, i.payload).state;
      var nonce, ms := state["arm"], DecimalValue(state["ms"]);
      Exec(c, r, i) ==
      Run(r.v.(nonce := nonce, duration := ms, expiry := (r.now + CONFIRM_WINDOW) % WORD, armed := true), r.now,
          r.log + [Armed(r.now, ms, nonce)])
  {
    hide Asked, RateLimited, DecimalValue, ArmValid;
    WindowWraps(r.now);
  }

  lemma ConfirmationEnds(c: Config, r: Run, i: Input)
    requires c.sleepAllowed && i.Receive? && Asked(c, i.topic, i.payload).Confirm?
    ensures
      var state := Asked(c, i.topic, i.payload).state;
      && "confirm" in state
      && (state["confirm"] == r.v.nonce ==>
            Exec(c, r, i).log ==
            r.log + if r.v.armed && !Expired(r.v) then [Commanded(r.now, r.v.duration, r.v.nonce, i.delivered)] else [])
  {
  }

  /**
   A sleep that is armed and confirmed in time is commanded.  From any reachable state that is
   not rate limited, arm with a valid request, let `k` ticks pass and confirm the same nonce:
   the command is published exactly if the window of ticks has not passed.
   */
  lemma ConfirmedInTime(c: Config, inputs: seq<Input>, arm: Input, k: nat, confirm: Input)
    requires c.sleepAllowed && !RateLimited(RunOf(c, inputs).v) && k <= CONFIRM_WINDOW
    requires arm.Receive? && Asked(c, arm.topic, arm.payload).Arm?
    requires ArmValid(Asked(c, arm.topic, arm.payload).state)
    requires confirm.Receive? && Asked(c, confirm.topic, confirm.payload).Confirm?
    requires Asked(c, confirm.topic, confirm.payload).state["confirm"] == Asked(c, arm.topic, arm.payload).state["arm"]
    ensures
      var r := RunOf(c, inputs);
      var state := Asked(c, arm.topic, arm.payload).state;
      var nonce, ms := state["arm"], DecimalValue(state["ms"]);
      Exec(c, AfterTicks(c, Exec(c, r, arm), k), confirm).log ==
      r.log + [Armed(r.now, ms, nonce)]
      + if k < CONFIRM_WINDOW then [Commanded(r.now + k, ms, nonce, confirm.delivered)] else []
  {
    hide Asked, RunOf, RateLimited, Expired, DecimalValue, AfterTicks, Exec, ArmValid, IsUint32, Printable;
    hide EveryCommandIsArmed, ArmsInRange, Acceptable, LastValues, Parse;
    var r := RunOf(c, inputs);
    CommandsAreArmed(c, inputs);
    ArmingStarts(c, r, arm);
    ConfirmationEnds(c, AfterTicks(c, Exec(c, r, arm), k), confirm);
    ArmingLasts(c, Exec(c, r, arm), k);
    ExpiresAtWindow(AfterTicks(c, Exec(c, r, arm), k).v, r.now + k, r.now);
  }

  predicate Delivered(e: Event) {
    e.Commanded? && e.delivered
  }

  /** When the last delivered command was published. */
  function LastDelivered(log: seq<Event>): Option<nat>
    decreases |log|
  {
    if log == [] then None
    else if Delivered(log[|log| - 1]) then Some(log[|log| - 1].at)
    else LastDelivered(log[..|log| - 1])
  }

  /** After a delivered command the next arming comes at a later tick. */
  ghost predicate Spaced(log: seq<Event>) {
    forall i, j :: 0 <= i < j < |log| && Delivered(log[i]) && log[j].Armed? ==> log[i].at < log[j].at
  }

  ghost predicate TracksDelivery(r: Run) {
    var last := LastDelivered(r.log);
    && r.v.tick == r.now % WORD
    && (last.Some? ==> last.value <= r.now && r.v.lastSleep == last.value % WORD)
    && forall i :: 0 <= i < |r.log| && Delivered(r.log[i]) ==> last.Some? && r.log[i].at <= last.value
  }

  lemma LastDeliveredAppend(log: seq<Event>, e: Event)
    ensures LastDelivered(log + [e]) == if Delivered(e) then Some(e.at) else LastDelivered(log)
  {
    assert (log + [e])[..|log + [e]| - 1] == log;
  }

  /** An event at the current tick keeps the spacing, if an arming is not rate limited. */
  lemma AppendKeepsSpacing(r: Run, e: Event, v: Sleeper)
    requires TracksDelivery(r) && Spaced(r.log) && e.at == r.now && v.tick == r.v.tick
    requires e.Armed? ==> !RateLimited(r.v)
    requires v.lastSleep == if Delivered(e) then v.tick else r.v.lastSleep
    ensures TracksDelivery(r.(v := v, log := r.log + [e])) && Spaced(r.log + [e])
  {
    LastDeliveredAppend(r.log, e);
    hide LastDelivered;
    var log := r.log + [e];
    var last := LastDelivered(r.log);
    if e.Armed? && last.Some? {
      assert last.value != r.now;
    }
    forall i, j | 0 <= i < j < |log| && Delivered(log[i]) && log[j].Armed?
      ensures log[i].at < log[j].at
    {
      assert Delivered(r.log[i]);
    }
  }

  lemma StepKeepsSpacing(c: Config, r: Run, i: Input)
    requires TracksDelivery(r) && Spaced(r.log)
    ensures TracksDelivery(Exec(c, r, i)) && Spaced(Exec(c, r, i).log)
  {
    hide Asked, Spaced, LastDelivered, ArmValid, Expired;
    if i.Receive? {
      var q, o := Asked(c, i.topic, i.payload), Exec(c, r, i);
      if o.log != r.log {
        var e := o.log[|r.log|];
        AppendKeepsSpacing(r, e, o.v);
        assert o.log == r.log + [e];
      } else {
        assert o == r.(v := o.v);
      }
    }
  }

  /** Delivered sleep commands come at strictly later ticks, one after the other. */
  lemma {:induction false} OneCommandPerTick(c: Config, inputs: seq<Input>, i: nat, j: nat)
    requires var log := RunOf(c, inputs).log; i < j < |log| && Delivered(log[i]) && Delivered(log[j])
    ensures RunOf(c, inputs).log[i].at < RunOf(c, inputs).log[j].at
  {
    hide RunOf;
    RunsAreSpaced(c, inputs);
    CommandsAreArmed(c, inputs);
    var log := RunOf(c, inputs).log;
    assert Fulfils(log[j - 1], log[j]);
  }

  lemma {:induction false} RunsAreSpaced(c: Config, inputs: seq<Input>)
    ensures TracksDelivery(RunOf(c, inputs)) && Spaced(RunOf(c, inputs).log)
    decreases |inputs|
  {
    hide Exec;
    if inputs != [] {
      RunsAreSpaced(c, inputs[..|inputs| - 1]);
      StepKeepsSpacing(c, RunOf(c, inputs[..|inputs| - 1]), inputs[|inputs| - 1]);
    }
  }

  /** Commands counted: never more than armings, and one arming sleeps once. */
  function CountArmed(log: seq<Event>): nat
    decreases |log|
  {
    if log == [] then 0 else CountArmed(log[..|log| - 1]) + if log[|log| - 1].Armed? then 1 else 0
  }

  lemma {:induction false} CommandsNeverExceedArmings(log: seq<Event>)
    requires EveryCommandIsArmed(log)
    ensures |log| - CountArmed(log) <= CountArmed(log)
    ensures log != [] && log[|log| - 1].Armed? ==> |log| - CountArmed(log) < CountArmed(log)
    decreases |log|
  {
    if log != [] {
      CommandsNeverExceedArmings(log[..|log| - 1]);
    }
  }
}
