/**
 The timer service on wrapping 32-bit milliseconds (`runtime/src/ev_timer_service.c`)
 and the same service on unbounded time, its reference.
 */
module Timers {
  import opened Results
  import opened Bits

  const HALF: nat := 0x8000_0000
  const CAPACITY: nat := 16
  const GENERATIONS: nat := 0x1_0000

  /** The firmware compares 32-bit counters; the reference compares instants. */
  datatype Clock = Wrapping | Unbounded

  /** A delay the service accepts: one to 2^32 - 1 milliseconds. */
  type Period = p: nat | 0 < p < WORD witness 1

  datatype Timer = Timer(
    active: bool, periodic: bool, generation: nat, deadline: int, period: Period,
    target: nat, event: nat, arg0: nat)

  /** A slot never armed; the period of an idle slot is not read. */
  const Idle: Timer := Timer(false, false, 0, 0, 1, 0, 0, 0)

  datatype Token = Token(slot: nat, generation: nat)

  /** One attempt to publish a timer's event. */
  datatype Firing = Firing(slot: nat, target: nat, event: nat, arg0: nat)

  /** Modular representation of an instant. */
  function Word(t: int): (w: nat)
    ensures w < WORD
  {
    t % WORD
  }

  /** A signed 32-bit difference is non-negative when the unsigned one is below the half. */
  predicate Due(c: Clock, now: int, deadline: int) {
    match c
    case Wrapping => Word(now - deadline) < HALF
    case Unbounded => now >= deadline
  }

  function Later(c: Clock, deadline: int, period: nat): int {
    match c
    case Wrapping => Word(deadline + period)
    case Unbounded => deadline + period
  }

  function NextGeneration(g: nat): nat {
    if (g + 1) % GENERATIONS == 0 then 1 else (g + 1) % GENERATIONS
  }

  function FirstIdle(s: seq<Timer>): (i: nat)
    ensures i <= |s|
    ensures i < |s| ==> !s[i].active
    ensures forall j :: 0 <= j < i ==> s[j].active
  {
    if s == [] || !s[0].active then 0 else 1 + FirstIdle(s[1..])
  }

  datatype Request = Request(delay: Word32, periodic: bool, target: nat, event: nat, arg0: nat)

  function Armed(c: Clock, t: Timer, now: int, r: Request): Timer
    requires r.delay > 0
  {
    Timer(true, r.periodic, NextGeneration(t.generation), Later(c, now, r.delay), r.delay, r.target, r.event, r.arg0)
  }

  function Schedule(c: Clock, s: seq<Timer>, now: int, r: Request): (o: (seq<Timer>, Result, Option<Token>))
    ensures |o.0| == |s|
  {
    var i := FirstIdle(s);
    if r.delay == 0 then (s, ErrInvalidArg, None)
    else if i == |s| then (s, ErrFull, None)
    else
      var t := Armed(c, s[i], now, r);
      (s[i := t], Ok, Some(Token(i, t.generation)))
  }

  predicate TokenValid(s: seq<Timer>, k: Token) {
    k.slot < |s| && s[k.slot].active && s[k.slot].generation == k.generation
  }

  function Cancel(s: seq<Timer>, k: Token): (o: (seq<Timer>, Result))
    ensures |o.0| == |s|
  {
    if TokenValid(s, k) then (s[k.slot := s[k.slot].(active := false)], Ok) else (s, ErrNotFound)
  }

  /** What a timer becomes once it was attempted. */
  function Fired(c: Clock, t: Timer): Timer {
    if t.periodic then t.(deadline := Later(c, t.deadline, t.period)) else t.(active := false)
  }

  /** Delivery of a firing, in an arbitrary world; it reports whether it was accepted. */
  type Publisher<!W> = (W, Firing) -> (W, bool)

  datatype Published<W> = Published(timers: seq<Timer>, world: W, count: nat, log: seq<Firing>)

  /** Attempt every due timer from slot `i` on, until `budget` attempts were accepted. */
  function PublishFrom<W>(c: Clock, s: seq<Timer>, i: nat, now: int, w: W, publish: Publisher<W>,
                          budget: nat): (o: Published<W>)
    requires i <= |s|
    ensures |o.timers| == |s| && o.timers[..i] == s[..i]
    ensures o.count <= budget && o.count <= |o.log|
    decreases |s| - i
  {
    if i == |s| || budget == 0 then Published(s, w, 0, [])
    else if s[i].active && Due(c, now, s[i].deadline) then
      var f := Firing(i, s[i].target, s[i].event, s[i].arg0);
      var (w', ok) := publish(w, f);
      var n := if ok then 1 else 0;
      var o := PublishFrom(c, s[i := Fired(c, s[i])], i + 1, now, w', publish, budget - n);
      o.(count := o.count + n, log := [f] + o.log)
    else PublishFrom(c, s, i + 1, now, w, publish, budget)
  }

  /** `n` accepted attempts and log `l` before what `o` did. */
  ghost function After<W>(n: nat, l: seq<Firing>, o: Published<W>): Published<W> {
    o.(count := n + o.count, log := l + o.log)
  }

  lemma StepOnce<W>(s: seq<Timer>, i: nat, now: int, w: W, publish: Publisher<W>, budget: nat, n: nat, l: seq<Firing>)
    requires i < |s| && budget > 0
    ensures
      After(n, l, PublishFrom(Wrapping, s, i, now, w, publish, budget)) ==
      if s[i].active && Due(Wrapping, now, s[i].deadline) then
        var f := Firing(i, s[i].target, s[i].event, s[i].arg0);
        var (w', ok) := publish(w, f);
        var m := if ok then 1 else 0;
        After(n + m, l + [f], PublishFrom(Wrapping, s[i := Fired(Wrapping, s[i])], i + 1, now, w', publish, budget - m))
      else After(n, l, PublishFrom(Wrapping, s, i + 1, now, w, publish, budget))
  {
    if s[i].active && Due(Wrapping, now, s[i].deadline) {
      var f := Firing(i, s[i].target, s[i].event, s[i].arg0);
      var (w', ok) := publish(w, f);
      var m := if ok then 1 else 0;
      var o := PublishFrom(Wrapping, s[i := Fired(Wrapping, s[i])], i + 1, now, w', publish, budget - m);
      assert l + ([f] + o.log) == (l + [f]) + o.log;
    }
  }

  lemma PublishEnds<W>(s: seq<Timer>, i: nat, now: int, w: W, publish: Publisher<W>, budget: nat)
    requires i <= |s| && (i == |s| || budget == 0)
    ensures PublishFrom(Wrapping, s, i, now, w, publish, budget) == Published(s, w, 0, [])
  {
  }

  /** The earliest deadline of `s[..n]`, as the service finds it. */
  function Earliest(c: Clock, s: seq<Timer>, n: nat): Option<int>
    requires n <= |s|
  {
    if n == 0 then None
    else
      var best := Earliest(c, s, n - 1);
      if s[n - 1].active && (best.None? || !Due(c, s[n - 1].deadline, best.value)) then Some(s[n - 1].deadline)
          else best
  }

  class TimerService {
    const slots: array<Timer>
    var scheduled: nat
    var cancelled: nat
    var published: nat

    ghost predicate Valid()
      reads this
    {
      slots.Length == CAPACITY
    }

    constructor ()
      ensures Valid() && fresh(slots) && slots[..] == seq(CAPACITY, _ => Idle)
      ensures scheduled == cancelled == published == 0
    {
      slots := new Timer[CAPACITY](_ => Idle);
      scheduled, cancelled, published := 0, 0, 0;
    }

    method ScheduleTimer(now: nat, r: Request) returns (rc: Result, token: Option<Token>)
      modifies this`scheduled, slots
      ensures (slots[..], rc, token) == Schedule(Wrapping, old(slots[..]), now, r)
      ensures scheduled == old(scheduled) + if rc == Ok then 1 else 0
      ensures rc == Ok <==> r.delay > 0 && exists j :: 0 <= j < slots.Length && !old(slots[..])[j].active
      ensures rc == Ok ==>
                && token.Some? && token.value.slot < slots.Length && !old(slots[..])[token.value.slot].active
                && slots[token.value.slot] == Timer(true, r.periodic, token.value.generation, (now + r.delay) % WORD,
                                                    r.delay, r.target, r.event, r.arg0)
    {
      ScheduleIsExact(Wrapping, slots[..], now, r);
      if r.delay == 0 {
        return ErrInvalidArg, None;
      }
      var i := 0;
      while i < slots.Length && slots[i].active
        invariant i <= slots.Length
        invariant forall j :: 0 <= j < i ==> slots[j].active
      {
        i := i + 1;
      }
      FirstIdleIs(slots[..], i);
      if i == slots.Length {
        return ErrFull, None;
      }
      slots[i] := Armed(Wrapping, slots[i], now, r);
      scheduled := scheduled + 1;
      return Ok, Some(Token(i, slots[i].generation));
    }

    method CancelTimer(k: Token) returns (rc: Result)
      modifies this`cancelled, slots
      ensures (slots[..], rc) == Cancel(old(slots[..]), k)
      ensures cancelled == old(cancelled) + if rc == Ok then 1 else 0
    {
      if k.slot >= slots.Length || !slots[k.slot].active || slots[k.slot].generation != k.generation {
        return ErrNotFound;
      }
      slots[k.slot] := slots[k.slot].(active := false);
      cancelled := cancelled + 1;
      return Ok;
    }

    method PublishDue<W>(now: nat, w: W, publish: Publisher<W>, budget: nat)
      returns (count: nat, w': W, ghost log: seq<Firing>)
      modifies this`published, slots
      ensures Published(slots[..], w', count, log) == PublishFrom(Wrapping, old(slots[..]), 0, now, w, publish, budget)
      ensures published == old(published) + count
      ensures PassedWithin(Wrapping, old(slots[..]), 0, now, w, publish, budget, Published(slots[..], w', count, log))
      ensures count < budget ==>
                forall k :: 0 <= k < slots.Length && IsDue(Wrapping, now, old(slots[..])[k]) ==>
                              FiringOf(k, old(slots[..])[k]) in log
    {
      hide PublishFrom, Due, Fired, PassedWithin, IsDue, FiringOf;
      PassIsExact(Wrapping, slots[..], 0, now, w, publish, budget);
      EveryDueIsAttempted(Wrapping, slots[..], now, w, publish, budget);
      count, w', log := 0, w, [];
      ghost var all := PublishFrom(Wrapping, slots[..], 0, now, w, publish, budget);
      assert all == After(0, [], all);
      var i := 0;
      while i < slots.Length && count < budget
        invariant i <= slots.Length && count <= budget
        invariant published == old(published) + count
        invariant After(count, log, PublishFrom(Wrapping, slots[..], i, now, w', publish, budget - count)) == all
      {
        ghost var s, w0, n, l := slots[..], w', count, log;
        if slots[i].active && Due(Wrapping, now, slots[i].deadline) {
          var f := Firing(i, slots[i].target, slots[i].event, slots[i].arg0);
          var ok;
          w', ok := Attempt(i, f, w', publish);
          log := log + [f];
          if ok {
            count, published := count + 1, published + 1;
          }
        }
        StepOnce(s, i, now, w0, publish, budget - n, n, l);
        i := i + 1;
      }
      PublishEnds(slots[..], i, now, w', publish, budget - count);
      assert log + [] == log;
    }

    method Attempt<W>(i: nat, f: Firing, w: W, publish: Publisher<W>) returns (w': W, ok: bool)
      requires i < slots.Length
      modifies slots
      ensures (w', ok) == publish(w, f) && slots[..] == old(slots[..])[i := Fired(Wrapping, old(slots[i]))]
    {
      var r := publish(w, f);
      slots[i] := Fired(Wrapping, slots[i]);
      return r.0, r.1;
    }

    method NextDeadline() returns (rc: Result, deadline: int)
      ensures Earliest(Wrapping, slots[..], slots.Length) == if rc == Ok then Some(deadline) else None
      ensures rc == Ok || rc == ErrNotFound
    {
      var found := false;
      deadline := 0;
      for i := 0 to slots.Length
        invariant Earliest(Wrapping, slots[..], i) == if found then Some(deadline) else None
      {
        if slots[i].active && (!found || !Due(Wrapping, slots[i].deadline, deadline)) {
          found, deadline := true, slots[i].deadline;
        }
      }
      rc := if found then Ok else ErrNotFound;
    }
  }

  lemma FirstIdleIs(s: seq<Timer>, i: nat)
    requires i <= |s| && (i < |s| ==> !s[i].active) && forall j :: 0 <= j < i ==> s[j].active
    ensures FirstIdle(s) == i
  {
  }

  // ----- 32-bit time against unbounded time -----

  /** What the firmware stores for a reference timer. */
  function Represent(s: seq<Timer>): (r: seq<Timer>)
    ensures |r| == |s|
    ensures forall i :: 0 <= i < |s| ==> r[i] == s[i].(deadline := Word(s[i].deadline))
  {
    seq(|s|, i requires 0 <= i < |s| => s[i].(deadline := Word(s[i].deadline)))
  }

  predicate Near(now: int, deadline: int) {
    -(HALF as int) <= now - deadline < HALF
  }

  /**
   The wrapping comparison reads an instant correctly exactly within half a word;
   half a word overdue looks early, and more than half a word early looks due.
   */
  lemma DueIsExact(now: int, deadline: int)
    requires -(WORD as int) <= now - deadline < WORD
    ensures (Due(Wrapping, Word(now), Word(deadline)) <==> Due(Unbounded, now, deadline)) <==> Near(now, deadline)
  {
  }

  lemma LaterWraps(d: int, p: nat)
    ensures Later(Wrapping, Word(d), p) == Word(Later(Unbounded, d, p))
  {
  }

  lemma FiredWraps(t: Timer)
    ensures Fired(Wrapping, t.(deadline := Word(t.deadline))) ==
            (var f := Fired(Unbounded, t); f.(deadline := Word(f.deadline)))
  {
    LaterWraps(t.deadline, t.period);
  }

  /** Publishing on wrapping time makes the same attempts and leaves the same timers. */
  lemma {:induction false} PublishWraps<W>(s: seq<Timer>, i: nat, now: int, w: W, publish: Publisher<W>, budget: nat)
    requires i <= |s| && forall j :: i <= j < |s| && s[j].active ==> Near(now, s[j].deadline)
    ensures
      var o := PublishFrom(Unbounded, s, i, now, w, publish, budget);
      PublishFrom(Wrapping, Represent(s), i, Word(now), w, publish, budget) == o.(timers := Represent(o.timers))
    decreases |s| - i
  {
    if i < |s| && budget > 0 {
      if s[i].active {
        DueIsExact(now, s[i].deadline);
      }
      if s[i].active && now >= s[i].deadline {
        var (w', ok) := publish(w, Firing(i, s[i].target, s[i].event, s[i].arg0));
        FiredWraps(s[i]);
        assert Represent(s)[i := Fired(Wrapping, Represent(s)[i])] == Represent(s[i := Fired(Unbounded, s[i])]);
        PublishWraps(s[i := Fired(Unbounded, s[i])], i + 1, now, w', publish, budget - (if ok then 1 else 0));
      } else {
        PublishWraps(s, i + 1, now, w, publish, budget);
      }
    }
  }

  lemma {:induction false} FirstIdleWraps(s: seq<Timer>)
    ensures FirstIdle(Represent(s)) == FirstIdle(s)
  {
    FirstIdleIs(Represent(s), FirstIdle(s));
  }

  /** What the code around the service asks of it. */
  datatype Op = ScheduleOp(now: int, request: Request) | CancelOp(token: Token) | PublishOp(now: int, budget: nat)

  /** Timers, world, every attempt made so far, and every answer given. */
  datatype Trace<W> = Trace(timers: seq<Timer>, world: W, log: seq<Firing>, answers: seq<(Result, Option<Token>)>)

  /** The instant as the clock in question tells it. */
  function Read(c: Clock, now: int): int {
    if c.Wrapping? then Word(now) else now
  }

  function Exec<W>(c: Clock, t: Trace<W>, publish: Publisher<W>, op: Op): Trace<W> {
    match op
    case ScheduleOp(now, r) =>
      var (s, rc, k) := Schedule(c, t.timers, Read(c, now), r);
      t.(timers := s, answers := t.answers + [(rc, k)])
    case CancelOp(k) =>
      var (s, rc) := Cancel(t.timers, k);
      t.(timers := s, answers := t.answers + [(rc, None)])
    case PublishOp(now, budget) =>
      var o := PublishFrom(c, t.timers, 0, Read(c, now), t.world, publish, budget);
      Trace(o.timers, o.world, t.log + o.log, t.answers)
  }

  function RunOps<W>(c: Clock, t: Trace<W>, publish: Publisher<W>, ops: seq<Op>): Trace<W>
    decreases |ops|
  {
    if ops == [] then t else RunOps(c, Exec(c, t, publish, ops[0]), publish, ops[1..])
  }

  /** True distances stay below half a word whenever the reference publishes. */
  ghost predicate StaysNear<W>(t: Trace<W>, publish: Publisher<W>, ops: seq<Op>)
    decreases |ops|
  {
    ops != [] ==>
      && (ops[0].PublishOp? ==>
            forall i :: 0 <= i < |t.timers| && t.timers[i].active ==> Near(ops[0].now, t.timers[i].deadline))
      && StaysNear(Exec(Unbounded, t, publish, ops[0]), publish, ops[1..])
  }

  lemma ExecWraps<W>(t: Trace<W>, publish: Publisher<W>, op: Op)
    requires op.PublishOp? ==> forall i :: 0 <= i < |t.timers| && t.timers[i].active ==>
               Near(op.now, t.timers[i].deadline)
    ensures
      var u := Exec(Unbounded, t, publish, op);
      Exec(Wrapping, t.(timers := Represent(t.timers)), publish, op) == u.(timers := Represent(u.timers))
  {
    match op {
      case ScheduleOp(now, r) =>
        FirstIdleWraps(t.timers);
        var i := FirstIdle(t.timers);
        if r.delay > 0 && i < |t.timers| {
          LaterWraps(now, r.delay);
          assert Represent(t.timers)[i := Armed(Wrapping, Represent(t.timers)[i], Word(now), r)]
              == Represent(t.timers[i := Armed(Unbounded, t.timers[i], now, r)]);
        }
      case CancelOp(k) =>
        if TokenValid(t.timers, k) {
          assert Represent(t.timers)[k.slot := Represent(t.timers)[k.slot].(active := false)]
              == Represent(t.timers[k.slot := t.timers[k.slot].(active := false)]);
        }
      case PublishOp(now, budget) =>
        PublishWraps(t.timers, 0, now, t.world, publish, budget);
    }
  }

  /**
   Over any run of schedule, cancel and publish calls, 32-bit time gives the same
   answers and makes the same attempts, in the same order, as unbounded time.
   */
  lemma {:induction false} WrappingTimeIsTime<W>(t: Trace<W>, publish: Publisher<W>, ops: seq<Op>)
    requires StaysNear(t, publish, ops)
    ensures
      var u := RunOps(Unbounded, t, publish, ops);
      RunOps(Wrapping, t.(timers := Represent(t.timers)), publish, ops) == u.(timers := Represent(u.timers))
    decreases |ops|
  {
    if ops != [] {
      ExecWraps(t, publish, ops[0]);
      WrappingTimeIsTime(Exec(Unbounded, t, publish, ops[0]), publish, ops[1..]);
    }
  }

  // ----- attempts of one slot -----

  function CountOf(log: seq<Firing>, i: nat): nat {
    if log == [] then 0 else (if log[0].slot == i then 1 else 0) + CountOf(log[1..], i)
  }

  lemma {:induction false} CountOfConcat(a: seq<Firing>, b: seq<Firing>, i: nat)
    ensures CountOf(a + b, i) == CountOf(a, i) + CountOf(b, i)
  {
    if a == [] {
      assert a + b == b;
    } else {
      assert (a + b)[1..] == a[1..] + b;
      CountOfConcat(a[1..], b, i);
    }
  }

  /** One pass attempts a slot at most once, never before its deadline, and advances it as often as it attempts it. */
  lemma {:induction false} PassAttemptsOnce<W>(c: Clock, s: seq<Timer>, i: nat, now: int, w: W, publish: Publisher<W>,
                                               budget: nat, k: nat)
    requires i <= |s| && k < |s|
    ensures
      var o := PublishFrom(c, s, i, now, w, publish, budget);
      && CountOf(o.log, k) <= 1
      && (CountOf(o.log, k) == 1 ==>
            i <= k && s[k].active && Due(c, now, s[k].deadline) && o.timers[k] == Fired(c, s[k]))
      && (CountOf(o.log, k) == 0 ==> o.timers[k] == s[k])
    decreases |s| - i
  {
    if i < |s| && budget > 0 {
      if s[i].active && Due(c, now, s[i].deadline) {
        var (w', ok) := publish(w, Firing(i, s[i].target, s[i].event, s[i].arg0));
        PassAttemptsOnce(c, s[i := Fired(c, s[i])], i + 1, now, w', publish, budget - (if ok then 1 else 0), k);
      } else {
        PassAttemptsOnce(c, s, i + 1, now, w, publish, budget, k);
      }
    }
  }

  /** The run schedules nothing into slot `k` and cancels nothing there; stale tokens may name it. */
  ghost predicate LeavesSlot<W>(c: Clock, t: Trace<W>, publish: Publisher<W>, ops: seq<Op>, k: nat)
    decreases |ops|
  {
    ops != [] ==>
      && (ops[0].ScheduleOp? ==> FirstIdle(t.timers) != k || ops[0].request.delay == 0)
      && (ops[0].CancelOp? ==> ops[0].token.slot != k || !TokenValid(t.timers, ops[0].token))
      && LeavesSlot(c, Exec(c, t, publish, ops[0]), publish, ops[1..], k)
  }

  /** The clock can hold the timer's deadline. */
  predicate Held(c: Clock, t: Timer) {
    t.deadline == Read(c, t.deadline)
  }

  /** Timer `b` is timer `a` after `n` attempts. */
  ghost predicate Attempted(c: Clock, a: Timer, b: Timer, n: int) {
    && n >= 0
    && (a.active && a.periodic ==> b == a.(deadline := Read(c, a.deadline + n * a.period)))
    && (a.active && !a.periodic ==> n <= 1 && b == a.(active := n == 0))
    && (!a.active ==> n == 0 && b == a)
  }

  lemma ReadSum(c: Clock, x: int, y: int)
    ensures Read(c, Read(c, x) + y) == Read(c, x + y)
  {
  }

  lemma AttemptedTransitive(c: Clock, a: Timer, b: Timer, d: Timer, m: int, n: int)
    requires Attempted(c, a, b, m) && Attempted(c, b, d, n)
    ensures Attempted(c, a, d, m + n)
  {
    if a.active && a.periodic {
      ReadSum(c, a.deadline + m * a.period, n * a.period);
      assert (m + n) * a.period == m * a.period + n * a.period;
    }
  }

  lemma PassAttempts<W>(c: Clock, s: seq<Timer>, now: int, w: W, publish: Publisher<W>, budget: nat, k: nat)
    requires k < |s| && Held(c, s[k])
    ensures
      var o := PublishFrom(c, s, 0, now, w, publish, budget);
      Attempted(c, s[k], o.timers[k], CountOf(o.log, k)) && Held(c, o.timers[k])
  {
    PassAttemptsOnce(c, s, 0, now, w, publish, budget, k);
  }

  lemma ExecAttempts<W>(c: Clock, t: Trace<W>, publish: Publisher<W>, op: Op, k: nat)
    requires k < |t.timers| && Held(c, t.timers[k])
    requires op.ScheduleOp? ==> FirstIdle(t.timers) != k || op.request.delay == 0
    requires op.CancelOp? ==> op.token.slot != k || !TokenValid(t.timers, op.token)
    ensures
      var u := Exec(c, t, publish, op);
      && |u.timers| == |t.timers| && Held(c, u.timers[k]) && t.log <= u.log
      && Attempted(c, t.timers[k], u.timers[k], CountOf(u.log, k) - CountOf(t.log, k))
  {
    hide PublishFrom, FirstIdle, CountOf;
    if op.PublishOp? {
      PassAttempts(c, t.timers, Read(c, op.now), t.world, publish, op.budget, k);
      CountOfConcat(t.log, PublishFrom(c, t.timers, 0, Read(c, op.now), t.world, publish, op.budget).log, k);
    }
  }

  /**
   A periodic timer does not drift, on either clock: after any run its deadline has moved
   by exactly one period per attempt, so attempt number n was due at start plus n periods.
   A one-shot timer is attempted at most once, and an idle slot never.
   */
  lemma {:induction false} NoDrift<W>(c: Clock, t: Trace<W>, publish: Publisher<W>, ops: seq<Op>, k: nat)
    requires k < |t.timers| && Held(c, t.timers[k]) && LeavesSlot(c, t, publish, ops, k)
    ensures
      var u := RunOps(c, t, publish, ops);
      && |u.timers| == |t.timers| && Held(c, u.timers[k]) && t.log <= u.log
      && Attempted(c, t.timers[k], u.timers[k], CountOf(u.log, k) - CountOf(t.log, k))
    decreases |ops|
  {
    hide Held;
    if ops == [] {
      NotYetAttempted(c, t.timers[k]);
    } else {
      var m := Exec(c, t, publish, ops[0]);
      var u := RunOps(c, t, publish, ops);
      ExecAttempts(c, t, publish, ops[0], k);
      NoDrift(c, m, publish, ops[1..], k);
      AttemptedTransitive(c, t.timers[k], m.timers[k], u.timers[k], CountOf(m.log, k) - CountOf(t.log, k),
                          CountOf(u.log, k) - CountOf(m.log, k));
    }
  }

  lemma NotYetAttempted(c: Clock, t: Timer)
    requires Held(c, t)
    ensures Attempted(c, t, t, 0)
  {
  }

  // ----- from the schedule to the last attempt -----

  /**
   A schedule succeeds exactly for a positive delay and an idle slot.  It then arms the first
   idle slot for `delay` milliseconds from now, under a generation between 1 and 65535 that the
   slot did not have; a refusal changes nothing.
   */
  lemma ScheduleIsExact(c: Clock, s: seq<Timer>, now: int, r: Request)
    ensures
      var (t, rc, token) := Schedule(c, s, now, r);
      && (rc == Ok <==> r.delay > 0 && exists i :: 0 <= i < |s| && !s[i].active)
      && (rc != Ok ==> rc == (if r.delay == 0 then ErrInvalidArg else ErrFull) && t == s && token == None)
      && (rc == Ok ==>
            && token.Some? && token.value.slot < |s|
            && var k := token.value;
            && !s[k.slot].active && (forall j :: 0 <= j < k.slot ==> s[j].active)
            && 1 <= k.generation < GENERATIONS && k.generation != s[k.slot].generation
            && t == s[k.slot := Timer(true, r.periodic, k.generation, if c.Wrapping? then (now + r.delay) % WORD
                                                                      else now + r.delay,
                                      r.delay, r.target, r.event, r.arg0)])
  {
    if r.delay > 0 && FirstIdle(s) == |s| {
      assert forall i :: 0 <= i < |s| ==> s[i].active;
    }
  }

  /** From position `from` on, the log holds nothing of slot `k` but firing `f`. */
  ghost predicate OnlyFires(log: seq<Firing>, from: nat, k: nat, f: Firing) {
    forall j :: from <= j < |log| && log[j].slot == k ==> log[j] == f
  }

  lemma {:induction false} PassFires<W>(c: Clock, s: seq<Timer>, i: nat, now: int, w: W, publish: Publisher<W>,
                                        budget: nat, k: nat)
    requires i <= |s| && k < |s|
    ensures OnlyFires(PublishFrom(c, s, i, now, w, publish, budget).log, 0, k,
                      Firing(k, s[k].target, s[k].event, s[k].arg0))
    decreases |s| - i
  {
    if i < |s| && budget > 0 {
      if s[i].active && Due(c, now, s[i].deadline) {
        var (w', ok) := publish(w, Firing(i, s[i].target, s[i].event, s[i].arg0));
        PassFires(c, s[i := Fired(c, s[i])], i + 1, now, w', publish, budget - (if ok then 1 else 0), k);
      } else {
        PassFires(c, s, i + 1, now, w, publish, budget, k);
      }
    }
  }

  /** What a run that leaves slot `k` fires from it is what the timer there says. */
  lemma {:induction false} RunFires<W>(c: Clock, t: Trace<W>, publish: Publisher<W>, ops: seq<Op>, k: nat)
    requires k < |t.timers| && Held(c, t.timers[k]) && LeavesSlot(c, t, publish, ops, k)
    ensures
      var a := t.timers[k];
      OnlyFires(RunOps(c, t, publish, ops).log, |t.log|, k, Firing(k, a.target, a.event, a.arg0))
    decreases |ops|
  {
    hide PublishFrom, CountOf, Held;
    if ops != [] {
      var op, m := ops[0], Exec(c, t, publish, ops[0]);
      ExecAttempts(c, t, publish, op, k);
      NoDrift(c, m, publish, ops[1..], k);
      RunFires(c, m, publish, ops[1..], k);
      if op.PublishOp? {
        PassFires(c, t.timers, 0, Read(c, op.now), t.world, publish, op.budget, k);
      }
      var u := RunOps(c, m, publish, ops[1..]);
      assert forall j :: 0 <= j < |m.log| ==> u.log[j] == m.log[j];
    }
  }

  /** Every event the run sends for slot `k` comes from a pass at or after its due instant. */
  lemma {:induction false} NeverEarly<W>(t: Trace<W>, publish: Publisher<W>, ops: seq<Op>, k: nat)
    requires k < |t.timers| && t.timers[k].active && LeavesSlot(Unbounded, t, publish, ops, k)
    ensures
      var n := CountOf(RunOps(Unbounded, t, publish, ops).log, k) - CountOf(t.log, k);
      n > 0 ==> exists j :: && 0 <= j < |ops| && ops[j].PublishOp?
                            && ops[j].now >= t.timers[k].deadline + (n - 1) * t.timers[k].period
    decreases |ops|
  {
    hide CountOf;
    if ops != [] {
      var op, a, m := ops[0], t.timers[k], Exec(Unbounded, t, publish, ops[0]);
      var u := RunOps(Unbounded, m, publish, ops[1..]);
      ExecAttempts(Unbounded, t, publish, op, k);
      NoDrift(Unbounded, m, publish, ops[1..], k);
      ExecNotEarly(t, publish, op, k);
      var n0, n1 := CountOf(m.log, k) - CountOf(t.log, k), CountOf(u.log, k) - CountOf(m.log, k);
      if n1 > 0 {
        NeverEarly(m, publish, ops[1..], k);
        var j :| 0 <= j < |ops[1..]| && ops[1..][j].PublishOp?
                 && ops[1..][j].now >= m.timers[k].deadline + (n1 - 1) * a.period;
        assert ops[j + 1] == ops[1..][j];
        Periods(a.deadline, n0, n1 - 1, a.period);
      } else if n0 > 0 {
        assert op.PublishOp? && n0 == 1;
      }
    }
  }

  lemma Periods(d: int, m: int, n: int, p: int)
    ensures (d + m * p) + n * p == d + (m + n) * p
  {
  }

  /** One call attempts the timer at most once, and then the timer was due. */
  lemma ExecNotEarly<W>(t: Trace<W>, publish: Publisher<W>, op: Op, k: nat)
    requires k < |t.timers|
    ensures
      var n := CountOf(Exec(Unbounded, t, publish, op).log, k) - CountOf(t.log, k);
      0 <= n <= 1 && (n == 1 ==> op.PublishOp? && op.now >= t.timers[k].deadline)
  {
    hide CountOf, PublishFrom;
    if op.PublishOp? {
      PassAttemptsOnce(Unbounded, t.timers, 0, op.now, t.world, publish, op.budget, k);
      CountOfConcat(t.log, PublishFrom(Unbounded, t.timers, 0, op.now, t.world, publish, op.budget).log, k);
    }
  }

  /**
   A timer from its schedule on, on either clock and over any run that leaves its slot: after
   `n` attempts a periodic timer is due `n + 1` periods after it was scheduled; a one-shot
   timer is due one delay after, attempted at most once, and then idle; and every attempt
   carries the target, the event and the argument of the request.
   */
  lemma IssuedTimer<W>(c: Clock, t: Trace<W>, publish: Publisher<W>, now: int, r: Request, k: Token, ops: seq<Op>)
    requires Schedule(c, t.timers, Read(c, now), r).2 == Some(k)
    requires LeavesSlot(c, Exec(c, t, publish, ScheduleOp(now, r)), publish, ops, k.slot)
    ensures
      var u := RunOps(c, Exec(c, t, publish, ScheduleOp(now, r)), publish, ops);
      var n := CountOf(u.log, k.slot) - CountOf(t.log, k.slot);
      && k.slot < |u.timers| && t.log <= u.log
      && OnlyFires(u.log, |t.log|, k.slot, Firing(k.slot, r.target, r.event, r.arg0))
      && var a := u.timers[k.slot];
      && n >= 0 && a.generation == k.generation && a.periodic == r.periodic && a.period == r.delay
      && a.target == r.target && a.event == r.event && a.arg0 == r.arg0
      && (if r.periodic
          then a.active && a.deadline == Read(c, now + (n + 1) * r.delay)
          else n <= 1 && (a.active <==> n == 0) && a.deadline == Read(c, now + r.delay))
  {
    hide PublishFrom, FirstIdle, CountOf, LeavesSlot, RunOps;
    ScheduleIsExact(c, t.timers, Read(c, now), r);
    ReadSum(c, now, r.delay);
    var issued := Exec(c, t, publish, ScheduleOp(now, r));
    NoDrift(c, issued, publish, ops, k.slot);
    RunFires(c, issued, publish, ops, k.slot);
    var n := CountOf(RunOps(c, issued, publish, ops).log, k.slot) - CountOf(t.log, k.slot);
    ReadSum(c, now + r.delay, n * r.delay);
    Periods(now, 1, n, r.delay);
  }

  /** On unbounded time no attempt is early: attempt `n` is made `n` delays after the schedule, or later. */
  lemma IssuedNeverEarly<W>(t: Trace<W>, publish: Publisher<W>, now: int, r: Request, k: Token, ops: seq<Op>)
    requires Schedule(Unbounded, t.timers, now, r).2 == Some(k)
    requires LeavesSlot(Unbounded, Exec(Unbounded, t, publish, ScheduleOp(now, r)), publish, ops, k.slot)
    ensures
      var u := RunOps(Unbounded, Exec(Unbounded, t, publish, ScheduleOp(now, r)), publish, ops);
      var n := CountOf(u.log, k.slot) - CountOf(t.log, k.slot);
      n > 0 ==> exists j :: 0 <= j < |ops| && ops[j].PublishOp? && ops[j].now >= now + n * r.delay
  {
    hide PublishFrom, FirstIdle, CountOf, LeavesSlot, RunOps;
    ScheduleIsExact(Unbounded, t.timers, now, r);
    var issued := Exec(Unbounded, t, publish, ScheduleOp(now, r));
    NeverEarly(issued, publish, ops, k.slot);
    var n := CountOf(RunOps(Unbounded, issued, publish, ops).log, k.slot) - CountOf(t.log, k.slot);
    Periods(now, 1, n - 1, r.delay);
  }

  /** A cancelled timer is never attempted again, and its slot stays idle until something is scheduled into it. */
  lemma CancelledNeverFires<W>(c: Clock, t: Trace<W>, publish: Publisher<W>, k: Token, ops: seq<Op>)
    requires TokenValid(t.timers, k) && Held(c, t.timers[k.slot])
    requires LeavesSlot(c, Exec(c, t, publish, CancelOp(k)), publish, ops, k.slot)
    ensures
      var u := RunOps(c, Exec(c, t, publish, CancelOp(k)), publish, ops);
      && k.slot < |u.timers| && !u.timers[k.slot].active && CountOf(u.log, k.slot) == CountOf(t.log, k.slot)
  {
    NoDrift(c, Exec(c, t, publish, CancelOp(k)), publish, ops, k.slot);
  }

  // ----- exactly what one pass does -----

  predicate IsDue(c: Clock, now: int, t: Timer) {
    t.active && Due(c, now, t.deadline)
  }

  /** One firing for each due timer in slots `i` to `j`, in slot order. */
  function DueFirings(c: Clock, s: seq<Timer>, now: int, i: nat, j: nat): seq<Firing>
    requires i <= j <= |s|
    decreases j - i
  {
    if i == j then []
    else (if IsDue(c, now, s[i]) then [Firing(i, s[i].target, s[i].event, s[i].arg0)] else [])
         + DueFirings(c, s, now, i + 1, j)
  }

  /** The deliveries of a log, one after the other, and how many were accepted. */
  function Deliver<W>(w: W, log: seq<Firing>, publish: Publisher<W>): (W, nat)
    decreases |log|
  {
    if log == [] then (w, 0)
    else
      var (w', ok) := publish(w, log[0]);
      var rest := Deliver(w', log[1..], publish);
      (rest.0, rest.1 + if ok then 1 else 0)
  }

  /** The pass looked at slots `i` to `m` and attempted exactly the due ones. */
  ghost predicate PassedTo<W>(c: Clock, s: seq<Timer>, i: nat, m: nat, now: int, w: W, publish: Publisher<W>,
                              o: Published<W>)
  {
    && i <= m <= |s| == |o.timers|
    && o.log == DueFirings(c, s, now, i, m) && (o.world, o.count) == Deliver(w, o.log, publish)
    && forall j :: 0 <= j < |s| ==>
                     o.timers[j] == if i <= j < m && IsDue(c, now, s[j]) then Fired(c, s[j]) else s[j]
  }

  /** Later slots fire alike whatever happened to earlier ones. */
  lemma {:induction false} SameFirings(c: Clock, s: seq<Timer>, t: seq<Timer>, now: int, i: nat, j: nat)
    requires i <= j <= |s| == |t| && s[i..] == t[i..]
    ensures DueFirings(c, s, now, i, j) == DueFirings(c, t, now, i, j)
    decreases j - i
  {
    if i < j {
      assert s[i] == s[i..][0] == t[i] && s[i + 1..] == s[i..][1..] == t[i + 1..];
      SameFirings(c, s, t, now, i + 1, j);
    }
  }

  /** One due timer in front of what a pass does from the next slot on. */
  lemma PassedOneMore<W>(c: Clock, s: seq<Timer>, i: nat, m: nat, now: int, w: W, publish: Publisher<W>,
                         o: Published<W>)
    requires i < |s| && IsDue(c, now, s[i])
    requires
      var f := Firing(i, s[i].target, s[i].event, s[i].arg0);
      PassedTo(c, s[i := Fired(c, s[i])], i + 1, m, now, publish(w, f).0, publish, o)
    ensures
      var f := Firing(i, s[i].target, s[i].event, s[i].arg0);
      PassedTo(c, s, i, m, now, w, publish,
               o.(count := o.count + (if publish(w, f).1 then 1 else 0), log := [f] + o.log))
  {
    var f := Firing(i, s[i].target, s[i].event, s[i].arg0);
    hide Due, Fired;
    SameFirings(c, s, s[i := Fired(c, s[i])], now, i + 1, m);
    assert ([f] + o.log)[1..] == o.log;
  }

  lemma PassedNothing<W>(c: Clock, s: seq<Timer>, i: nat, now: int, w: W, publish: Publisher<W>)
    requires i <= |s|
    ensures PassedTo(c, s, i, i, now, w, publish, Published(s, w, 0, []))
  {
  }

  lemma PassedOver<W>(c: Clock, s: seq<Timer>, i: nat, m: nat, now: int, w: W, publish: Publisher<W>, o: Published<W>)
    requires i < |s| && !IsDue(c, now, s[i]) && PassedTo(c, s, i + 1, m, now, w, publish, o)
    ensures PassedTo(c, s, i, m, now, w, publish, o)
  {
  }

  /** The pass went on to the last slot, or until its budget of accepted deliveries was spent. */
  ghost predicate PassedWithin<W>(c: Clock, s: seq<Timer>, i: nat, now: int, w: W, publish: Publisher<W>, budget: nat,
                                  o: Published<W>) {
    exists m: nat :: PassedTo(c, s, i, m, now, w, publish, o) && (m == |s| || o.count == budget)
  }

  /**
   A pass attempts the due timers in slot order, each once, and delivers exactly their
   firings; it stops before the last slot only when its budget of accepted ones is spent.
   */
  lemma {:induction false} PassIsExact<W>(c: Clock, s: seq<Timer>, i: nat, now: int, w: W, publish: Publisher<W>,
                                          budget: nat)
    requires i <= |s|
    ensures
      PassedWithin(c, s, i, now, w, publish, budget, PublishFrom(c, s, i, now, w, publish, budget))
    decreases |s| - i
  {
    hide PassedTo, Due, Fired;
    var o := PublishFrom(c, s, i, now, w, publish, budget);
    if i == |s| || budget == 0 {
      PassedNothing(c, s, i, now, w, publish);
    } else if IsDue(c, now, s[i]) {
      var f := Firing(i, s[i].target, s[i].event, s[i].arg0);
      var (w', ok) := publish(w, f);
      var s', left := s[i := Fired(c, s[i])], budget - if ok then 1 else 0;
      PassIsExact(c, s', i + 1, now, w', publish, left);
      var o' := PublishFrom(c, s', i + 1, now, w', publish, left);
      var m: nat :| PassedTo(c, s', i + 1, m, now, w', publish, o') && (m == |s'| || o'.count == left);
      PassedOneMore(c, s, i, m, now, w, publish, o');
      assert o == o'.(count := o'.count + (if ok then 1 else 0), log := [f] + o'.log);
      assert PassedTo(c, s, i, m, now, w, publish, o) && (m == |s| || o.count == budget);
      assert PassedWithin(c, s, i, now, w, publish, budget, o);
    } else {
      PassIsExact(c, s, i + 1, now, w, publish, budget);
      var m: nat :| PassedTo(c, s, i + 1, m, now, w, publish, o) && (m == |s| || o.count == budget);
      PassedOver(c, s, i, m, now, w, publish, o);
    }
  }

  /** The attempt to publish timer `t` of slot `k`. */
  function FiringOf(k: nat, t: Timer): Firing {
    Firing(k, t.target, t.event, t.arg0)
  }

  lemma {:induction false} DueFiringsHold(c: Clock, s: seq<Timer>, now: int, i: nat, j: nat, k: nat)
    requires i <= k < j <= |s| && IsDue(c, now, s[k])
    ensures FiringOf(k, s[k]) in DueFirings(c, s, now, i, j)
    decreases j - i
  {
    if i < k {
      DueFiringsHold(c, s, now, i + 1, j, k);
    }
  }

  /** A pass with budget left attempts every timer that is due. */
  lemma EveryDueIsAttempted<W>(c: Clock, s: seq<Timer>, now: int, w: W, publish: Publisher<W>, budget: nat)
    ensures
      var o := PublishFrom(c, s, 0, now, w, publish, budget);
      o.count < budget ==>
        forall k :: 0 <= k < |s| && IsDue(c, now, s[k]) ==> FiringOf(k, s[k]) in o.log
  {
    var o := PublishFrom(c, s, 0, now, w, publish, budget);
    PassIsExact(c, s, 0, now, w, publish, budget);
    if o.count < budget {
      assert PassedTo(c, s, 0, |s|, now, w, publish, o);
      forall k | 0 <= k < |s| && IsDue(c, now, s[k])
        ensures FiringOf(k, s[k]) in o.log
      {
        DueFiringsHold(c, s, now, 0, |s|, k);
      }
    }
  }

  // ----- next deadline -----

  /** With all pending deadlines within half a word of each other, the service reports the true minimum. */
  lemma {:induction false} EarliestIsMinimum(s: seq<Timer>, n: nat)
    requires n <= |s|
    requires forall i, j :: 0 <= i < |s| && 0 <= j < |s| && s[i].active && s[j].active ==>
               Near(s[i].deadline, s[j].deadline)
    ensures Earliest(Unbounded, s, n).None? <==> forall i :: 0 <= i < n ==> !s[i].active
    ensures Earliest(Unbounded, s, n).Some? ==>
              && (exists i :: 0 <= i < n && s[i].active && s[i].deadline == Earliest(Unbounded, s, n).value)
              && (forall i :: 0 <= i < n && s[i].active ==> Earliest(Unbounded, s, n).value <= s[i].deadline)
    ensures Earliest(Wrapping, Represent(s), n) ==
            if Earliest(Unbounded, s, n).None? then None else Some(Word(Earliest(Unbounded, s, n).value))
  {
    if n > 0 {
      EarliestIsMinimum(s, n - 1);
      var best := Earliest(Unbounded, s, n - 1);
      if s[n - 1].active && best.Some? {
        var i :| 0 <= i < n - 1 && s[i].active && s[i].deadline == best.value;
        assert Near(s[n - 1].deadline, s[i].deadline);
        DueIsExact(s[n - 1].deadline, best.value);
      }
    }
  }

  // ----- stale tokens -----

  /** The generation of a slot after `n` more schedules. */
  function Generation(g: nat, n: nat): nat {
    if n == 0 then g else NextGeneration(Generation(g, n - 1))
  }

  lemma NextInCycle(x: nat)
    ensures NextGeneration(x % (GENERATIONS - 1) + 1) == (x + 1) % (GENERATIONS - 1) + 1
  {
    var r := x % (GENERATIONS - 1);
    assert (x + 1) % (GENERATIONS - 1) == if r + 1 == GENERATIONS - 1 then 0 else r + 1;
  }

  lemma {:induction false} GenerationCycle(g: nat, n: nat)
    requires 1 <= g < GENERATIONS
    ensures Generation(g, n) == (g - 1 + n) % (GENERATIONS - 1) + 1
  {
    if n > 0 {
      GenerationCycle(g, n - 1);
      NextInCycle(g - 1 + n - 1);
    }
  }

  lemma {:induction false} GenerationFrom(g: nat, n: nat)
    ensures Generation(NextGeneration(g), n) == Generation(g, n + 1)
  {
    if n > 0 {
      GenerationFrom(g, n - 1);
    }
  }

  /** The call schedules into slot `k`. */
  predicate TakesSlot(s: seq<Timer>, op: Op, k: nat) {
    op.ScheduleOp? && op.request.delay > 0 && k < |s| && FirstIdle(s) == k
  }

  /** How often a run schedules into slot `k`. */
  ghost function SchedulesInto<W>(c: Clock, t: Trace<W>, publish: Publisher<W>, ops: seq<Op>, k: nat): nat
    decreases |ops|
  {
    if ops == [] then 0
    else (if TakesSlot(t.timers, ops[0], k) then 1 else 0)
         + SchedulesInto(c, Exec(c, t, publish, ops[0]), publish, ops[1..], k)
  }

  lemma ExecGeneration<W>(c: Clock, t: Trace<W>, publish: Publisher<W>, op: Op, k: nat)
    requires k < |t.timers|
    ensures
      var u := Exec(c, t, publish, op);
      && |u.timers| == |t.timers|
      && u.timers[k].generation ==
         if TakesSlot(t.timers, op, k) then NextGeneration(t.timers[k].generation) else t.timers[k].generation
  {
    if op.PublishOp? {
      PassAttemptsOnce(c, t.timers, 0, Read(c, op.now), t.world, publish, op.budget, k);
    }
  }

  /** Only schedules move the generation of a slot, by one step each. */
  lemma {:induction false} RunGeneration<W>(c: Clock, t: Trace<W>, publish: Publisher<W>, ops: seq<Op>, k: nat)
    requires k < |t.timers|
    ensures
      var u := RunOps(c, t, publish, ops);
      && |u.timers| == |t.timers|
      && u.timers[k].generation == Generation(t.timers[k].generation, SchedulesInto(c, t, publish, ops, k))
    decreases |ops|
  {
    if ops != [] {
      var m := Exec(c, t, publish, ops[0]);
      ExecGeneration(c, t, publish, ops[0], k);
      RunGeneration(c, m, publish, ops[1..], k);
      GenerationFrom(t.timers[k].generation, SchedulesInto(c, m, publish, ops[1..], k));
    }
  }

  /**
   A token outlives its timer harmlessly: after any run of calls it cancels a timer
   exactly if its slot is in use and the run scheduled into that slot a multiple of
   65535 times, none included, so that the 16-bit generation is what it was.
   */
  lemma StaleTokenCancelsNothing<W>(c: Clock, t: Trace<W>, publish: Publisher<W>, now: int, r: Request, k: Token,
                                    ops: seq<Op>)
    requires Schedule(c, t.timers, Read(c, now), r).2 == Some(k)
    ensures
      var issued := Exec(c, t, publish, ScheduleOp(now, r));
      var s := RunOps(c, issued, publish, ops).timers;
      var n := SchedulesInto(c, issued, publish, ops, k.slot);
      && k.slot < |s|
      && (Cancel(s, k).1 == Ok <==> s[k.slot].active && n % (GENERATIONS - 1) == 0)
      && (Cancel(s, k).1 != Ok ==> Cancel(s, k) == (s, ErrNotFound))
  {
    var issued := Exec(c, t, publish, ScheduleOp(now, r));
    RunGeneration(c, issued, publish, ops, k.slot);
    GenerationCycle(k.generation, SchedulesInto(c, issued, publish, ops, k.slot));
    SameInCycle(k.generation - 1, SchedulesInto(c, issued, publish, ops, k.slot));
  }

  lemma SameInCycle(x: nat, n: nat)
    requires x < GENERATIONS - 1
    ensures (x + n) % (GENERATIONS - 1) == x <==> n % (GENERATIONS - 1) == 0
  {
  }

  /** Cancel and schedule again, `n` times, from generation `g` of slot 0 on. */
  function Churn(g: nat, n: nat, r: Request): (ops: seq<Op>)
    ensures |ops| == 2 * n
    decreases n
  {
    if n == 0 then []
    else [CancelOp(Token(0, g)), ScheduleOp(0, r)] + Churn(NextGeneration(g), n - 1, r)
  }

  lemma {:induction false} ChurnSchedules<W>(c: Clock, t: Trace<W>, publish: Publisher<W>, n: nat, r: Request)
    requires t.timers != [] && t.timers[0].active && r.delay > 0
    ensures
      var ops := Churn(t.timers[0].generation, n, r);
      var s := RunOps(c, t, publish, ops).timers;
      s != [] && s[0].active && SchedulesInto(c, t, publish, ops, 0) == n
    decreases n
  {
    if n > 0 {
      var g := t.timers[0].generation;
      var ops := Churn(g, n, r);
      var freed := Exec(c, t, publish, ops[0]);
      var again := Exec(c, freed, publish, ops[1]);
      assert ops[1..][0] == ops[1] && ops[1..][1..] == Churn(NextGeneration(g), n - 1, r);
      ChurnSchedules(c, again, publish, n - 1, r);
    }
  }

  /** The first token a service issues cancels a stranger's timer after 65535 more schedules. */
  lemma StaleTokenRevives<W>(c: Clock, w: W, publish: Publisher<W>, r: Request)
    requires r.delay > 0
    ensures
      var start := Trace(seq(CAPACITY, _ => Idle), w, [], []);
      var issued := Exec(c, start, publish, ScheduleOp(0, r));
      var ops := Churn(1, GENERATIONS - 1, r);
      && issued.answers == [(Ok, Some(Token(0, 1)))]
      && SchedulesInto(c, issued, publish, ops, 0) == 65535
      && Cancel(RunOps(c, issued, publish, ops).timers, Token(0, 1)).1 == Ok
  {
    var start := Trace(seq(CAPACITY, _ => Idle), w, [], []);
    var issued := Exec(c, start, publish, ScheduleOp(0, r));
    ChurnSchedules(c, issued, publish, GENERATIONS - 1, r);
    StaleTokenCancelsNothing(c, start, publish, 0, r, Token(0, 1), Churn(1, GENERATIONS - 1, r));
  }

  // ----- how long a timer can keep firing at one instant -----

  /**
   Attempts a due timer can still absorb before it stops being due at `now`, or more.
   A period above half a word moves the deadline backwards, so such a timer grows
   later and later until its lateness passes the half.
   */
  function Rank(t: Timer, now: int): nat {
    if !t.active || !Due(Wrapping, now, t.deadline) then 0
    else if !t.periodic then 1
    else if t.period <= HALF then Word(now - t.deadline) + 1
    else HALF - Word(now - t.deadline)
  }

  function TotalRank(s: seq<Timer>, now: int): nat {
    if s == [] then 0 else Rank(s[0], now) + TotalRank(s[1..], now)
  }

  lemma FiredRank(t: Timer, now: int)
    requires t.active && Due(Wrapping, now, t.deadline)
    ensures Rank(Fired(Wrapping, t), now) < Rank(t, now)
  {
    if t.periodic {
      var l := Word(now - t.deadline);
      assert Word(now - Word(t.deadline + t.period)) == Word(l - t.period);
      assert Word(l - t.period) == if l >= t.period then l - t.period else l - t.period + WORD;
    }
  }

  lemma {:induction false} TotalRankUpdate(s: seq<Timer>, i: nat, t: Timer, now: int)
    requires i < |s|
    ensures TotalRank(s[i := t], now) + Rank(s[i], now) == TotalRank(s, now) + Rank(t, now)
  {
    if i > 0 {
      assert s[i := t][1..] == s[1..][i - 1 := t];
      TotalRankUpdate(s[1..], i - 1, t, now);
    }
  }

  /** Every attempt of a pass uses up rank. */
  lemma {:induction false} PublishLowersRank<W>(s: seq<Timer>, i: nat, now: int, w: W, publish: Publisher<W>,
                                                budget: nat)
    requires i <= |s|
    ensures
      var o := PublishFrom(Wrapping, s, i, now, w, publish, budget);
      TotalRank(o.timers, now) + |o.log| <= TotalRank(s, now)
    decreases |s| - i
  {
    if i < |s| && budget > 0 {
      if s[i].active && Due(Wrapping, now, s[i].deadline) {
        var (w', ok) := publish(w, Firing(i, s[i].target, s[i].event, s[i].arg0));
        FiredRank(s[i], now);
        TotalRankUpdate(s, i, Fired(Wrapping, s[i]), now);
        PublishLowersRank(s[i := Fired(Wrapping, s[i])], i + 1, now, w', publish, budget - (if ok then 1 else 0));
      } else {
        PublishLowersRank(s, i + 1, now, w, publish, budget);
      }
    }
  }

  // ----- when a pass publishes nothing -----

  ghost predicate NoneDue(s: seq<Timer>, now: int) {
    forall i :: 0 <= i < |s| && s[i].active ==> !Due(Wrapping, now, s[i].deadline)
  }

  /** If every delivery is accepted, a pass that published nothing found nothing due and did nothing. */
  lemma {:induction false} NothingPublished<W(!new)>(s: seq<Timer>, i: nat, now: int, w: W, publish: Publisher<W>,
                                                     budget: nat)
    requires i <= |s| && budget > 0 && forall v: W, f: Firing :: publish(v, f).1
    requires PublishFrom(Wrapping, s, i, now, w, publish, budget).count == 0
    ensures
      var o := PublishFrom(Wrapping, s, i, now, w, publish, budget);
      o.timers == s && o.world == w
    ensures forall j :: i <= j < |s| && s[j].active ==> !Due(Wrapping, now, s[j].deadline)
    decreases |s| - i
  {
    if i < |s| {
      assert !(s[i].active && Due(Wrapping, now, s[i].deadline));
      NothingPublished(s, i + 1, now, w, publish, budget);
    }
  }
}
