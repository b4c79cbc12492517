/**
 Ring mailboxes (`core/src/ev_mailbox.c`).

 `Queue` is what a mailbox means: a bounded sequence of envelopes with counters.
 The functions over it say what push, QoS push, pop and reset do to that sequence
 and to the lease pool.  Class `Mailbox` is the ring with masked head and tail,
 proved to implement them for every kind and every QoS.
 */
module Mailboxes {
  import opened Results
  import opened Bits
  import opened Messages
  import opened Leases

  datatype Kind = Fifo8 | Fifo16 | Mailbox1 | LossyRing8 | CoalescedFlag

  datatype Qos = Critical | BestEffort | Lossy | Coalesced | LatestOnly | WakeupCritical | Telemetry | Command

  datatype Effect = EffectPosted | EffectDropped | EffectReplaced | EffectCoalesced | EffectRejected

  datatype Stats = Stats(posted: nat, dropped: nat, replaced: nat, coalesced: nat, popped: nat, rejected: nat,
                         highWatermark: nat)

  const ZeroStats: Stats := Stats(0, 0, 0, 0, 0, 0, 0)

  function Capacity(kind: Kind): (n: nat)
    ensures PowerOfTwoTest(n)
  {
    match kind
    case Fifo8 => assert PowerOfTwoTest(8); 8
    case Fifo16 => assert PowerOfTwoTest(16); 16
    case Mailbox1 => 1
    case LossyRing8 => assert PowerOfTwoTest(8); 8
    case CoalescedFlag => 1
  }

  /** `evicted` counts messages pushed out by newer ones; the C counters mix them with refused ones. */
  datatype Queue = Queue(kind: Kind, entries: seq<Msg>, stats: Stats, evicted: nat) {

    /** Every posted message was popped, was evicted, or is still pending. */
    ghost predicate Valid() {
      && |entries| <= Capacity(kind)
      && stats.posted == stats.popped + evicted + |entries|
      && |entries| <= stats.highWatermark <= Capacity(kind)
      && evicted <= stats.dropped
    }

    function Room(): nat
      requires |entries| <= Capacity(kind)
    {
      Capacity(kind) - |entries|
    }
  }


  datatype PushOutcome = PushOutcome(pool: Pool, queue: Queue, rc: Result, effect: Effect)

  function RetainForQueue(c: Catalog, p: Pool, m: Msg): (Pool, Result) {
    if HasExternal(m) then MsgRetain(c, p, m) else (p, Ok)
  }

  function Rejected(q: Queue): Queue {
    q.(stats := q.stats.(rejected := q.stats.rejected + 1))
  }

  function Reject(p: Pool, q: Queue, rc: Result): PushOutcome {
    PushOutcome(p, Rejected(q), rc, EffectRejected)
  }

  function Append(q: Queue, m: Msg): Queue {
    q.(entries := q.entries + [m],
       stats := q.stats.(posted := q.stats.posted + 1,
                         highWatermark := Max(q.stats.highWatermark, |q.entries| + 1)))
  }

  function EvictOldest(q: Queue): Queue
    requires q.entries != []
  {
    q.(entries := q.entries[1..], stats := q.stats.(dropped := q.stats.dropped + 1), evicted := q.evicted + 1)
  }

  function Push(c: Catalog, p: Pool, q: Queue, m: Msg): (o: PushOutcome)
    requires |q.entries| <= Capacity(q.kind)
  {
    if Validate(c, m) != Ok then Reject(p, q, Validate(c, m))
    else
      match q.kind
      case Fifo8 => PushFifo(c, p, q, m)
      case Fifo16 => PushFifo(c, p, q, m)
      case Mailbox1 => PushSingle(c, p, q, m)
      case LossyRing8 => PushLossy(c, p, q, m)
      case CoalescedFlag => PushFlag(p, q, m)
  }

  /** One slot: the newest message replaces the pending one. */
  function PushSingle(c: Catalog, p: Pool, q: Queue, m: Msg): PushOutcome {
    var (p1, rc) := RetainForQueue(c, p, m);
    if rc != Ok then Reject(p1, q, rc)
    else if q.entries == [] then PushOutcome(p1, Append(q, m), Ok, EffectPosted)
    else
      PushOutcome(DisposeMsg(p1, q.entries[0]).0,
                  q.(entries := [m], stats := q.stats.(replaced := q.stats.replaced + 1)), Ok, EffectReplaced)
  }

  /** Lossy ring: a full ring gives up its oldest message. */
  function PushLossy(c: Catalog, p: Pool, q: Queue, m: Msg): PushOutcome {
    var (p1, rc) := RetainForQueue(c, p, m);
    if rc != Ok then Reject(p1, q, rc)
    else if |q.entries| == Capacity(q.kind)
    then PushOutcome(DisposeMsg(p1, q.entries[0]).0, Append(EvictOldest(q), m), Ok, EffectPosted)
    else PushOutcome(p1, Append(q, m), Ok, EffectPosted)
  }

  /** Payload-free flag of one event. */
  function PushFlag(p: Pool, q: Queue, m: Msg): PushOutcome {
    if m.payload != NoPayload || m.payloadSize != 0 then Reject(p, q, ErrContract)
    else if q.entries == [] then PushOutcome(p, Append(q, m), Ok, EffectPosted)
    else if q.entries[0].eventId != m.eventId then Reject(p, q, ErrContract)
    else PushOutcome(p, q.(stats := q.stats.(coalesced := q.stats.coalesced + 1)), Ok, EffectCoalesced)
  }

  function PushFifo(c: Catalog, p: Pool, q: Queue, m: Msg): PushOutcome
    requires |q.entries| <= Capacity(q.kind)
  {
    if |q.entries| == Capacity(q.kind) then Reject(p, q, ErrFull)
    else
      var (p1, rc) := RetainForQueue(c, p, m);
      if rc != Ok then Reject(p1, q, rc) else PushOutcome(p1, Append(q, m), Ok, EffectPosted)
  }

  /** Offset of the first (or last) pending entry of an event, or the length. */
  function FindFirst(s: seq<Msg>, e: nat): (k: nat)
    ensures k <= |s|
    ensures k < |s| ==> s[k].eventId == e
    ensures forall j :: 0 <= j < k ==> s[j].eventId != e
  {
    if s == [] || s[0].eventId == e then 0 else 1 + FindFirst(s[1..], e)
  }

  function FindLast(s: seq<Msg>, e: nat): (k: nat)
    ensures k <= |s|
    ensures k < |s| ==> s[k].eventId == e
    ensures k < |s| ==> forall j :: k < j < |s| ==> s[j].eventId != e
    ensures k == |s| ==> forall j :: 0 <= j < |s| ==> s[j].eventId != e
  {
    if s == [] then 0
    else if s[|s| - 1].eventId == e then |s| - 1
    else
      var k := FindLast(s[..|s| - 1], e);
      if k == |s| - 1 then |s| else k
  }

  /** `k` is the offset of the first (or last) entry of event `e`, or the length when there is none. */
  ghost predicate IsEventOffset(s: seq<Msg>, e: nat, latest: bool, k: nat) {
    && k <= |s|
    && (k < |s| ==> s[k].eventId == e)
    && (k == |s| || !latest ==> forall j :: 0 <= j < k ==> s[j].eventId != e)
    && (latest ==> forall j :: k < j < |s| ==> s[j].eventId != e)
  }

  lemma EventOffsetIs(s: seq<Msg>, e: nat, latest: bool, k: nat)
    requires IsEventOffset(s, e, latest, k)
    ensures k == if latest then FindLast(s, e) else FindFirst(s, e)
  {
  }

  function DropNewest(p: Pool, q: Queue): PushOutcome {
    PushOutcome(p, q.(stats := q.stats.(dropped := q.stats.dropped + 1)), Ok, EffectDropped)
  }

  /**
   The delivery report says posted for every accepted plain push, even one that
   replaced or coalesced inside a one-slot mailbox.
   */
  function Reported(o: PushOutcome): PushOutcome {
    o.(effect := if o.rc == Ok then EffectPosted else EffectRejected)
  }

  function PushOrDrop(c: Catalog, p: Pool, q: Queue, m: Msg): PushOutcome
    requires |q.entries| <= Capacity(q.kind)
  {
    if |q.entries| == Capacity(q.kind) then DropNewest(p, q) else Reported(Push(c, p, q, m))
  }

  function PushCoalesced(c: Catalog, p: Pool, q: Queue, m: Msg): PushOutcome
    requires |q.entries| <= Capacity(q.kind)
  {
    if FindFirst(q.entries, m.eventId) < |q.entries|
    then PushOutcome(p, q.(stats := q.stats.(coalesced := q.stats.coalesced + 1)), Ok, EffectCoalesced)
    else PushOrDrop(c, p, q, m)
  }

  function ReplaceEntry(c: Catalog, p: Pool, q: Queue, k: nat, m: Msg): PushOutcome
    requires k < |q.entries|
  {
    var (p1, rc) := RetainForQueue(c, p, m);
    if rc != Ok then Reject(p1, q, rc)
    else PushOutcome(DisposeMsg(p1, q.entries[k]).0,
                     q.(entries := q.entries[k := m], stats := q.stats.(replaced := q.stats.replaced + 1)),
                     Ok, EffectReplaced)
  }

  function PushLatestOnly(c: Catalog, p: Pool, q: Queue, m: Msg): PushOutcome
    requires |q.entries| <= Capacity(q.kind)
  {
    var k := FindLast(q.entries, m.eventId);
    if k < |q.entries| then ReplaceEntry(c, p, q, k, m) else PushOrDrop(c, p, q, m)
  }

  function PushQos(c: Catalog, p: Pool, q: Queue, m: Msg, qos: Qos): PushOutcome
    requires |q.entries| <= Capacity(q.kind)
  {
    if Validate(c, m) != Ok then Reject(p, q, Validate(c, m))
    else match qos
      case Coalesced => PushCoalesced(c, p, q, m)
      case LatestOnly => PushLatestOnly(c, p, q, m)
      case _ => Reported(Push(c, p, q, m))
  }

  function Pop(q: Queue): Queue
    requires q.entries != []
  {
    q.(entries := q.entries[1..], stats := q.stats.(popped := q.stats.popped + 1))
  }

  /** Give back the shares of a sequence of envelopes, oldest first. */
  function DisposeAll(p: Pool, s: seq<Msg>): Pool
    decreases |s|
  {
    if s == [] then p else DisposeAll(DisposeMsg(p, s[0]).0, s[1..])
  }

  lemma {:induction false} DisposeAllConcat(p: Pool, s: seq<Msg>, t: seq<Msg>)
    ensures DisposeAll(p, s + t) == DisposeAll(DisposeAll(p, s), t)
    decreases |s|
  {
    if s == [] {
      assert s + t == t;
    } else {
      assert (s + t)[1..] == s[1..] + t;
      DisposeAllConcat(DisposeMsg(p, s[0]).0, s[1..], t);
    }
  }

  /** Giving back two shares commutes. */
  lemma DisposeCommutes(p: Pool, a: Msg, b: Msg)
    ensures DisposeMsg(DisposeMsg(p, a).0, b).0 == DisposeMsg(DisposeMsg(p, b).0, a).0
  {
    if a.cookie && !a.disposed && b.cookie && !b.disposed {
      ReleaseCommutes(p, a, b);
    }
  }

  /** A release by slot either takes a share from that slot or only counts a stale reference. */
  predicate CanRelease(p: Pool, x: Payload, size: nat)
    requires x.ExternalPayload?
  {
    Matches(p, x.ctx, x.data, size) && p.slots[x.ctx.value].refcount > 0
  }

  lemma ReleaseCases(p: Pool, x: Payload, size: nat)
    requires x.ExternalPayload?
    ensures ReleaseFromSlot(p, x.ctx, x.data, size) ==
            if CanRelease(p, x, size) then Released(p, x.ctx.value) else CountStale(p, x.ctx.Some?)
  {
  }

  lemma ReleasedCommutes(p: Pool, i: nat, j: nat)
    requires i < |p.slots| && j < |p.slots|
    ensures Released(Released(p, i), j) == Released(Released(p, j), i)
  {
    if i != j {
      var s, t := ReleasedSlot(p.slots[i]), ReleasedSlot(p.slots[j]);
      assert p.slots[i := s][j := t] == p.slots[j := t][i := s];
    }
  }

  lemma ReleasePairCommutes(p: Pool, x: Payload, m: nat, y: Payload, n: nat)
    requires x.ExternalPayload? && y.ExternalPayload?
    ensures
      ReleaseFromSlot(ReleaseFromSlot(p, x.ctx, x.data, m), y.ctx, y.data, n) ==
      ReleaseFromSlot(ReleaseFromSlot(p, y.ctx, y.data, n), x.ctx, x.data, m)
  {
    var px, py := ReleaseFromSlot(p, x.ctx, x.data, m), ReleaseFromSlot(p, y.ctx, y.data, n);
    ReleaseCases(p, x, m);
    ReleaseCases(p, y, n);
    ReleaseCases(px, y, n);
    ReleaseCases(py, x, m);
    if CanRelease(p, x, m) && CanRelease(p, y, n) {
      ReleasedCommutes(p, x.ctx.value, y.ctx.value);
    }
  }

  lemma ReleaseCommutes(p: Pool, a: Msg, b: Msg)
    ensures ReleasePayload(ReleasePayload(p, a), b) == ReleasePayload(ReleasePayload(p, b), a)
  {
    if HasExternal(a) && a.payload.releaseFn.SlotFn? && HasExternal(b) && b.payload.releaseFn.SlotFn? {
      ReleasePairCommutes(p, a.payload, a.payloadSize, b.payload, b.payloadSize);
    }
  }

  lemma {:induction false} DisposeAllPast(p: Pool, m: Msg, s: seq<Msg>)
    ensures DisposeAll(DisposeMsg(p, m).0, s) == DisposeMsg(DisposeAll(p, s), m).0
    decreases |s|
  {
    if s != [] {
      DisposeCommutes(p, m, s[0]);
      DisposeAllPast(DisposeMsg(p, s[0]).0, m, s[1..]);
    }
  }

  lemma {:induction false} DisposeAllSwap(p: Pool, s: seq<Msg>, t: seq<Msg>)
    ensures DisposeAll(DisposeAll(p, s), t) == DisposeAll(DisposeAll(p, t), s)
    decreases |s|
  {
    if s != [] {
      var p1 := DisposeMsg(p, s[0]).0;
      DisposeAllSwap(p1, s[1..], t);
      DisposeAllPast(p, s[0], t);
    }
  }

  lemma {:induction false} DisposeAllInert(p: Pool, s: seq<Msg>)
    requires forall i :: 0 <= i < |s| ==> !HasExternal(s[i])
    ensures DisposeAll(p, s) == p
    decreases |s|
  {
    if s != [] {
      DisposeAllInert(p, s[1..]);
    }
  }

  /** Disposing ring storage from index zero gives back what disposing the queue in order would. */
  lemma StorageOrder(p: Pool, s: seq<Msg>, head: nat, count: nat)
    requires head < |s| && count <= |s|
    requires forall i :: 0 <= i < |s| && head + count <= |s| && (i < head || head + count <= i) ==> !HasExternal(s[i])
    requires forall i :: 0 <= i < |s| && head + count - |s| <= i < head && head + count > |s| ==> !HasExternal(s[i])
    ensures DisposeAll(p, s) == DisposeAll(p, if head + count <= |s| then s[head..head + count]
                                              else s[head..] + s[..head + count - |s|])
  {
    if head + count <= |s| {
      var a, b, c := s[..head], s[head..head + count], s[head + count..];
      assert s == a + (b + c);
      DisposeAllConcat(p, a, b + c);
      DisposeAllInert(p, a);
      DisposeAllConcat(p, b, c);
      DisposeAllInert(DisposeAll(p, b), c);
    } else {
      var k := head + count - |s|;
      var a, b, c := s[..k], s[k..head], s[head..];
      assert s == a + (b + c);
      DisposeAllConcat(p, a, b + c);
      DisposeAllConcat(DisposeAll(p, a), b, c);
      DisposeAllInert(DisposeAll(p, a), b);
      DisposeAllSwap(p, a, c);
      DisposeAllConcat(p, c, a);
    }
  }

  // ----- laws of the sequence specification -----

  lemma PlainPushKeepsValid(c: Catalog, p: Pool, q: Queue, m: Msg)
    requires q.Valid()
    ensures
      var t := Push(c, p, q, m).queue;
      t.Valid() && t.kind == q.kind && t.stats.popped == q.stats.popped && |q.entries| <= |t.entries| <= |q.entries| + 1
  {
    hide Validate, RetainForQueue, DisposeMsg;
  }

  /** A push of any kind and QoS keeps the queue bounded and its counters balanced, and never loses length. */
  lemma PushKeepsQueueValid(c: Catalog, p: Pool, q: Queue, m: Msg, qos: Qos)
    requires q.Valid()
    ensures PushQos(c, p, q, m, qos).queue.Valid()
    ensures PushQos(c, p, q, m, qos).queue.kind == q.kind
    ensures PushQos(c, p, q, m, qos).queue.stats.popped == q.stats.popped
    ensures |q.entries| <= |PushQos(c, p, q, m, qos).queue.entries| <= |q.entries| + 1
  {
    hide Validate, RetainForQueue, DisposeMsg, Push;
    PlainPushKeepsValid(c, p, q, m);
  }

  ghost predicate AtMostOne(s: seq<Msg>, e: nat) {
    forall i, j :: 0 <= i < j < |s| && s[i].eventId == e ==> s[j].eventId != e
  }

  /** A push of any kind leaves the pending entries as they are, or drops the oldest, adds the newest, or both. */
  lemma PushShapes(c: Catalog, p: Pool, q: Queue, m: Msg)
    requires |q.entries| <= Capacity(q.kind)
    ensures
      var s, t := q.entries, Push(c, p, q, m).queue.entries;
      t == s || t == s + [m] || t == [m] || (s != [] && t == s[1..] + [m])
  {
    hide Validate, RetainForQueue, DisposeMsg;
  }

  lemma AppendKeepsUnique(s: seq<Msg>, m: Msg, e: nat)
    requires AtMostOne(s, e) && (m.eventId == e ==> forall i :: 0 <= i < |s| ==> s[i].eventId != e)
    ensures AtMostOne(s + [m], e) && (s != [] ==> AtMostOne(s[1..] + [m], e) && AtMostOne(s[1..], e))
            && AtMostOne([m], e)
  {
  }

  lemma PushKeepsUnique(c: Catalog, p: Pool, q: Queue, m: Msg, e: nat)
    requires |q.entries| <= Capacity(q.kind) && AtMostOne(q.entries, e)
    requires m.eventId == e ==> forall i :: 0 <= i < |q.entries| ==> q.entries[i].eventId != e
    ensures AtMostOne(Push(c, p, q, m).queue.entries, e)
  {
    hide Push, AtMostOne;
    PushShapes(c, p, q, m);
    AppendKeepsUnique(q.entries, m, e);
  }

  lemma PopKeepsUnique(q: Queue, e: nat)
    requires q.entries != [] && AtMostOne(q.entries, e)
    ensures AtMostOne(Pop(q).entries, e)
  {
  }

  /** An event pushed as coalesced or latest-only is not made pending twice. */
  lemma QosPushKeepsUnique(c: Catalog, p: Pool, q: Queue, m: Msg, qos: Qos, e: nat)
    requires |q.entries| <= Capacity(q.kind)
    requires AtMostOne(q.entries, e)
    requires m.eventId == e ==> qos == Coalesced || qos == LatestOnly
    ensures AtMostOne(PushQos(c, p, q, m, qos).queue.entries, e)
  {
    hide Push, Validate, RetainForQueue, DisposeMsg;
    var first, last := FindFirst(q.entries, m.eventId), FindLast(q.entries, m.eventId);
    if m.eventId != e || (qos == Coalesced && first == |q.entries|) || (qos == LatestOnly && last == |q.entries|) {
      PushKeepsUnique(c, p, q, m, e);
    }
  }

  /** What happens to a mailbox; the pool may have changed in any way between two pushes. */
  datatype QueueOp = PushOp(pool: Pool, msg: Msg, qos: Qos) | PopOp | ResetOp

  ghost function ExecQueue(c: Catalog, q: Queue, op: QueueOp): (r: Queue)
    requires q.Valid()
    ensures r.Valid()
  {
    match op
    case PushOp(p, m, qos) =>
      PushKeepsQueueValid(c, p, q, m, qos);
      PushQos(c, p, q, m, qos).queue
    case PopOp => if q.entries == [] then q else Pop(q)
    case ResetOp => Queue(q.kind, [], ZeroStats, 0)
  }

  ghost function RunQueue(c: Catalog, q: Queue, ops: seq<QueueOp>): (r: Queue)
    requires q.Valid()
    ensures r.Valid()
    decreases |ops|
  {
    if ops == [] then q else ExecQueue(c, RunQueue(c, q, ops[..|ops| - 1]), ops[|ops| - 1])
  }

  /** Every push of the event is coalesced or latest-only. */
  ghost predicate PushedUnique(ops: seq<QueueOp>, e: nat) {
    forall i :: 0 <= i < |ops| && ops[i].PushOp? && ops[i].msg.eventId == e ==>
                  ops[i].qos == Coalesced || ops[i].qos == LatestOnly
  }

  /**
   Over any run of pushes, pops and resets of a mailbox, whatever else is pushed, an event
   pushed only as coalesced or latest-only is pending at most once, and the mailbox stays
   within its capacity with its counters balanced.
   */
  lemma {:induction false} UniquePendingPreserved(c: Catalog, q: Queue, ops: seq<QueueOp>, e: nat)
    requires q.Valid() && AtMostOne(q.entries, e) && PushedUnique(ops, e)
    ensures RunQueue(c, q, ops).Valid() && AtMostOne(RunQueue(c, q, ops).entries, e)
    decreases |ops|
  {
    hide PushQos, AtMostOne;
    if ops != [] {
      var before, op := RunQueue(c, q, ops[..|ops| - 1]), ops[|ops| - 1];
      UniquePendingPreserved(c, q, ops[..|ops| - 1], e);
      match op {
        case PushOp(p, m, qos) => QosPushKeepsUnique(c, p, before, m, qos, e);
        case PopOp =>
          if before.entries != [] {
            PopKeepsUnique(before, e);
          }
        case ResetOp => NothingPending(e);
      }
    }
  }

  lemma NothingPending(e: nat)
    ensures AtMostOne([], e)
  {
  }

  /**
   What a latest-only push does: refused or dropped, nothing moves; accepted, the
   newest pending entry of the event is the pushed message and every other entry
   keeps its place.
   */
  lemma LatestOnlyIsNewest(c: Catalog, p: Pool, q: Queue, m: Msg)
    requires |q.entries| <= Capacity(q.kind)
    ensures
      var o := PushQos(c, p, q, m, LatestOnly);
      var s, t := q.entries, o.queue.entries;
      match o.effect
      case EffectReplaced =>
        && o.rc == Ok && |t| == |s|
        && var k := FindLast(s, m.eventId);
        && k < |s| && t[k] == m && FindLast(t, m.eventId) == k
        && forall j :: 0 <= j < |s| && j != k ==> t[j] == s[j]
      case EffectPosted =>
        && o.rc == Ok && t == s + [m] && forall j :: 0 <= j < |s| ==> s[j].eventId != m.eventId
      case EffectDropped =>
        && o.rc == Ok && t == s && |s| == Capacity(q.kind) && forall j :: 0 <= j < |s| ==> s[j].eventId != m.eventId
      case EffectRejected => o.rc != Ok && t == s
      case EffectCoalesced => false
  {
    var o := PushQos(c, p, q, m, LatestOnly);
    if o.effect == EffectReplaced {
      var k := FindLast(q.entries, m.eventId);
      assert o.queue.entries[k] == m;
    }
  }

  // ----- what a push answers and does, whatever the kind -----

  /** There is a place for `m`, or the kind makes one; a flag takes payload-free messages of one event. */
  predicate HasPlace(q: Queue, m: Msg) {
    match q.kind
    case Fifo8 => |q.entries| < 8
    case Fifo16 => |q.entries| < 16
    case Mailbox1 => true
    case LossyRing8 => true
    case CoalescedFlag =>
      m.payload == NoPayload && m.payloadSize == 0 && (q.entries == [] || q.entries[0].eventId == m.eventId)
  }

  /** The queue can take a share of what `m` carries: nothing external, or a lease that is held and as described. */
  predicate Shareable(c: Catalog, p: Pool, m: Msg)
    requires c.EventValid(m.eventId)
  {
    HasExternal(m) ==> c.events[m.eventId].KindLease? && CanRelease(p, m.payload, m.payloadSize)
  }

  /** The answer to a plain push of a valid message. */
  function PushAnswer(c: Catalog, p: Pool, q: Queue, m: Msg): Result
    requires c.EventValid(m.eventId)
  {
    if !HasPlace(q, m) then (if q.kind.CoalescedFlag? then ErrContract else ErrFull)
    else if Shareable(c, p, m) then Ok
    else if c.events[m.eventId].KindLease? then ErrState
    else ErrUnsupported
  }

  /** A share for the queue is taken exactly when one could be given back, and otherwise no slot changes. */
  lemma RetainIsExact(c: Catalog, p: Pool, m: Msg)
    requires Validate(c, m) == Ok
    ensures
      var (p1, rc) := RetainForQueue(c, p, m);
      && (rc == Ok <==> Shareable(c, p, m))
      && (rc != Ok ==> rc == (if c.events[m.eventId].KindLease? then ErrState else ErrUnsupported))
      && |p1.slots| == |p.slots|
      && (forall i :: 0 <= i < |p.slots| ==>
                        p1.slots[i] == if rc == Ok && HasExternal(m) && m.payload.ctx == Some(i)
                                       then p.slots[i].(refcount := (p.slots[i].refcount + 1) % WORD)
                                       else p.slots[i])
  {
  }

  /** A plain push is refused for an invalid message, for want of a place and for want of a share, and only then. */
  lemma PushIsExact(c: Catalog, p: Pool, q: Queue, m: Msg)
    requires |q.entries| <= Capacity(q.kind)
    ensures Push(c, p, q, m).rc == if Validate(c, m) != Ok then Validate(c, m) else PushAnswer(c, p, q, m)
  {
    hide DisposeMsg, RetainForQueue, CanRelease;
    if Validate(c, m) == Ok {
      RetainIsExact(c, p, m);
      hide Validate;
    }
  }

  /** The last `n` messages, or all of them. */
  function Newest(s: seq<Msg>, n: nat): seq<Msg> {
    if |s| <= n then s else s[|s| - n..]
  }

  /** The message of an accepted push is already there: a flag of its event was pending. */
  predicate Absorbed(q: Queue) {
    q.kind.CoalescedFlag? && q.entries != []
  }

  /**
   What a plain push does.  Refused, it changes no entry and no slot, and is counted.
   Accepted, its message is the newest entry and the mailbox holds the newest entries it
   has room for, unless it was absorbed by a pending flag.
   */
  ghost predicate PushedAs(c: Catalog, p: Pool, q: Queue, m: Msg, o: PushOutcome) {
    var st, s, t := q.stats, q.entries, o.queue.entries;
    && o.queue.kind == q.kind
    && (o.rc != Ok ==> o.pool.slots == p.slots && o.queue == q.(stats := st.(rejected := st.rejected + 1)))
    && (o.rc == Ok && Absorbed(q) ==> o.pool == p && o.queue == q.(stats := st.(coalesced := st.coalesced + 1)))
    && (o.rc == Ok && !Absorbed(q) ==>
          && t == Newest(s + [m], Capacity(q.kind)) && t != [] && t[|t| - 1] == m
          && (|s| < Capacity(q.kind) ==> o.pool == RetainForQueue(c, p, m).0)
          && (s != [] && |s| >= Capacity(q.kind) ==> o.pool == DisposeMsg(RetainForQueue(c, p, m).0, s[0]).0)
          && (if q.kind.Mailbox1? && s != []
              then o.queue.stats == st.(replaced := st.replaced + 1)
              else o.queue.stats == st.(posted := st.posted + 1, dropped := st.dropped + |s| + 1 - |t|,
                                        highWatermark := Max(st.highWatermark, |t|))))
  }

  lemma PushDoes(c: Catalog, p: Pool, q: Queue, m: Msg)
    requires |q.entries| <= Capacity(q.kind)
    ensures PushedAs(c, p, q, m, Push(c, p, q, m))
  {
    hide PushedAs, Capacity, Validate;
    if Validate(c, m) != Ok {
      RejectDoes(c, p, p, q, m, Validate(c, m));
    } else {
      match q.kind
      case Mailbox1 => SingleDoes(c, p, q, m);
      case LossyRing8 => LossyDoes(c, p, q, m);
      case CoalescedFlag => FlagDoes(c, p, q, m);
      case _ => FifoDoes(c, p, q, m);
    }
  }

  lemma RejectDoes(c: Catalog, p: Pool, p1: Pool, q: Queue, m: Msg, rc: Result)
    requires p1.slots == p.slots && rc != Ok
    ensures PushedAs(c, p, q, m, Reject(p1, q, rc))
  {
  }

  lemma SingleDoes(c: Catalog, p: Pool, q: Queue, m: Msg)
    requires |q.entries| <= Capacity(q.kind) && q.kind.Mailbox1? && Validate(c, m) == Ok
    ensures PushedAs(c, p, q, m, PushSingle(c, p, q, m))
  {
    hide DisposeMsg, Validate;
    if RetainForQueue(c, p, m).1 != Ok {
      RefusedRetain(c, p, m);
    }
    hide RetainForQueue;
  }

  lemma LossyDoes(c: Catalog, p: Pool, q: Queue, m: Msg)
    requires |q.entries| <= Capacity(q.kind) && q.kind.LossyRing8? && Validate(c, m) == Ok
    ensures PushedAs(c, p, q, m, PushLossy(c, p, q, m))
  {
    hide DisposeMsg, Validate;
    if RetainForQueue(c, p, m).1 != Ok {
      RefusedRetain(c, p, m);
    }
    hide RetainForQueue;
  }

  lemma FlagDoes(c: Catalog, p: Pool, q: Queue, m: Msg)
    requires |q.entries| <= Capacity(q.kind) && q.kind.CoalescedFlag? && Validate(c, m) == Ok
    ensures PushedAs(c, p, q, m, PushFlag(p, q, m))
  {
    hide DisposeMsg, Validate;
  }

  lemma FifoDoes(c: Catalog, p: Pool, q: Queue, m: Msg)
    requires |q.entries| <= Capacity(q.kind) && (q.kind.Fifo8? || q.kind.Fifo16?) && Validate(c, m) == Ok
    ensures PushedAs(c, p, q, m, PushFifo(c, p, q, m))
  {
    hide DisposeMsg, Validate;
    if RetainForQueue(c, p, m).1 != Ok {
      RefusedRetain(c, p, m);
    }
    hide RetainForQueue;
  }

  /** A refused share leaves every slot alone. */
  lemma RefusedRetain(c: Catalog, p: Pool, m: Msg)
    requires Validate(c, m) == Ok && RetainForQueue(c, p, m).1 != Ok
    ensures RetainForQueue(c, p, m).0.slots == p.slots
  {
  }

  /** An entry of event `e` is pending. */
  ghost predicate IsPending(q: Queue, e: nat) {
    exists i :: 0 <= i < |q.entries| && q.entries[i].eventId == e
  }

  /**
   What the quality of service adds.  A valid coalesced push is absorbed by a pending entry of
   its event; a latest-only push replaces it if a share can be taken; without such an entry
   both give way in a full mailbox; in every other case the push is a plain one.
   */
  lemma QosIsExact(c: Catalog, p: Pool, q: Queue, m: Msg, qos: Qos)
    requires |q.entries| <= Capacity(q.kind)
    ensures
      var o := PushQos(c, p, q, m, qos);
      var plain := Push(c, p, q, m);
      var rejected := q.(stats := q.stats.(rejected := q.stats.rejected + 1));
      var coalesced := q.(stats := q.stats.(coalesced := q.stats.coalesced + 1));
      var dropped := q.(stats := q.stats.(dropped := q.stats.dropped + 1));
      var special := Validate(c, m) == Ok && qos in {Coalesced, LatestOnly};
      var found := IsPending(q, m.eventId);
      && (special && found && qos == Coalesced ==> o == PushOutcome(p, coalesced, Ok, EffectCoalesced))
      && (special && found && qos == LatestOnly && Shareable(c, p, m) ==>
            && o.rc == Ok && o.effect == EffectReplaced
            && o.queue.stats == q.stats.(replaced := q.stats.replaced + 1))
      && (special && found && qos == LatestOnly && !Shareable(c, p, m) ==>
            o.rc != Ok && o.effect == EffectRejected && o.queue == rejected)
      && (special && !found && |q.entries| == Capacity(q.kind) ==> o == PushOutcome(p, dropped, Ok, EffectDropped))
      && (!special || (!found && |q.entries| < Capacity(q.kind)) ==>
            && o.pool == plain.pool && o.queue == plain.queue && o.rc == plain.rc
            && o.effect == if plain.rc == Ok then EffectPosted else EffectRejected)
  {
    hide DisposeMsg, Push, CanRelease, RetainForQueue;
    if Validate(c, m) == Ok {
      RetainIsExact(c, p, m);
    } else {
      InvalidIsRefused(c, p, q, m);
    }
    hide Validate;
    var first, last := FindFirst(q.entries, m.eventId), FindLast(q.entries, m.eventId);
    if IsPending(q, m.eventId) {
      var i :| 0 <= i < |q.entries| && q.entries[i].eventId == m.eventId;
      assert first < |q.entries| && last < |q.entries|;
    }
  }

  lemma InvalidIsRefused(c: Catalog, p: Pool, q: Queue, m: Msg)
    requires |q.entries| <= Capacity(q.kind) && Validate(c, m) != Ok
    ensures Push(c, p, q, m) == Reject(p, q, Validate(c, m))
  {
  }

  /**
   What is in the mailbox after a post, whatever the kind and the quality of service: nothing
   has moved if it was refused, dropped or coalesced, and a posted message is the newest
   entry, unless a pending flag absorbed it.
   */
  lemma PostReaches(c: Catalog, p: Pool, q: Queue, m: Msg, qos: Qos)
    requires q.Valid()
    ensures
      var o := PushQos(c, p, q, m, qos);
      var s, t := q.entries, o.queue.entries;
      && (o.rc != Ok || o.effect in {EffectDropped, EffectCoalesced} ==> t == s)
      && (o.effect == EffectPosted && !Absorbed(q) ==> t != [] && t[|t| - 1] == m)
      && (o.effect == EffectReplaced ==> m in t && |t| == |s|)
      && (o.effect == EffectRejected <==> o.rc != Ok)
  {
    hide Validate, DisposeMsg, RetainForQueue, Push, PushQos, Shareable;
    PushDoes(c, p, q, m);
    QosIsExact(c, p, q, m, qos);
    LatestOnlyIsNewest(c, p, q, m);
  }

  // ----- order over whole runs -----

  /** Messages that entered the queue over a run, and those handed out, in order. */
  ghost function Entered(c: Catalog, q: Queue, ops: seq<QueueOp>): seq<Msg>
    requires q.Valid()
    decreases |ops|
  {
    if ops == [] then []
    else
      var before, op := RunQueue(c, q, ops[..|ops| - 1]), ops[|ops| - 1];
      Entered(c, q, ops[..|ops| - 1])
      + if op.PushOp? && PushQos(c, op.pool, before, op.msg, op.qos).effect.EffectPosted? then [op.msg] else []
  }

  ghost function HandedOut(c: Catalog, q: Queue, ops: seq<QueueOp>): seq<Msg>
    requires q.Valid()
    decreases |ops|
  {
    if ops == [] then []
    else
      var before, op := RunQueue(c, q, ops[..|ops| - 1]), ops[|ops| - 1];
      HandedOut(c, q, ops[..|ops| - 1]) + if op.PopOp? && before.entries != [] then [before.entries[0]] else []
  }

  /** Pushes that never replace a pending entry, and pops. */
  ghost predicate InOrder(ops: seq<QueueOp>) {
    forall i :: 0 <= i < |ops| ==> !ops[i].ResetOp? && (ops[i].PushOp? ==> ops[i].qos != LatestOnly)
  }

  lemma FifoPushAppends(c: Catalog, p: Pool, q: Queue, m: Msg, qos: Qos)
    requires q.Valid() && (q.kind.Fifo8? || q.kind.Fifo16?) && qos != LatestOnly
    ensures
      var o := PushQos(c, p, q, m, qos);
      o.queue.kind == q.kind && o.queue.entries == q.entries + if o.effect.EffectPosted? then [m] else []
  {
    hide Validate, RetainForQueue, Push, Shareable, DisposeMsg;
    PushIsExact(c, p, q, m);
    PushDoes(c, p, q, m);
  }

  /** Both sides of an equation between messages in and out grow at the end, or the oldest one moves out. */
  lemma Extended(s: seq<Msg>, entered: seq<Msg>, out: seq<Msg>, pending: seq<Msg>, more: seq<Msg>)
    requires s + entered == out + pending
    ensures s + (entered + more) == out + (pending + more)
    ensures s + (entered + []) == out + (pending + [])
    ensures pending != [] ==> s + (entered + []) == (out + [pending[0]]) + pending[1..]
  {
    assert s + (entered + more) == (s + entered) + more;
    assert out + (pending + more) == (out + pending) + more;
    assert entered + [] == entered && pending + [] == pending;
    if pending != [] {
      assert (out + [pending[0]]) + pending[1..] == out + pending;
    }
  }

  /**
   A FIFO mailbox hands out every message that entered it exactly once and in the order
   of arrival, over any run of pushes, full or not, and pops: what it held and what
   entered is what was handed out, followed by what it holds.
   */
  lemma {:induction false} FifoOrder(c: Catalog, q: Queue, ops: seq<QueueOp>)
    requires q.Valid() && (q.kind.Fifo8? || q.kind.Fifo16?) && InOrder(ops)
    ensures RunQueue(c, q, ops).kind == q.kind
    ensures q.entries + Entered(c, q, ops) == HandedOut(c, q, ops) + RunQueue(c, q, ops).entries
    decreases |ops|
  {
    hide PushQos;
    if ops == [] {
      assert q.entries + [] == [] + q.entries;
    } else {
      var init, op := ops[..|ops| - 1], ops[|ops| - 1];
      var before := RunQueue(c, q, init);
      FifoOrder(c, q, init);
      if op.PushOp? {
        FifoPushAppends(c, op.pool, before, op.msg, op.qos);
        var more := if PushQos(c, op.pool, before, op.msg, op.qos).effect.EffectPosted? then [op.msg] else [];
        Extended(q.entries, Entered(c, q, init), HandedOut(c, q, init), before.entries, more);
      } else if before.entries != [] {
        Extended(q.entries, Entered(c, q, init), HandedOut(c, q, init), before.entries, []);
      }
    }
  }

  lemma DisposeNothing(p: Pool)
    ensures DisposeAll(p, []) == p
  {
  }

  lemma DisposeAllFrom(p: Pool, s: seq<Msg>, i: nat)
    requires i < |s|
    ensures DisposeAll(p, s[i..]) == DisposeAll(DisposeMsg(p, s[i]).0, s[i + 1..])
  {
    assert s[i..][1..] == s[i + 1..];
  }

  // ----- the ring -----

  class Mailbox {
    const kind: Kind
    const storage: array<Msg>
    var head: nat
    var tail: nat
    var count: nat
    var stats: Stats
    ghost var evicted: nat

    ghost predicate Valid()
      reads this`head, this`tail, this`count, storage
    {
      && storage.Length == Capacity(kind)
      && head < storage.Length && tail < storage.Length && count <= storage.Length
      && tail == Wrap(head + count)
      && (forall i :: 0 <= i < storage.Length && !Pending(i) ==> !HasExternal(storage[i]))
    }

    /** Is storage index `i` inside the live part of the ring? */
    ghost predicate Pending(i: nat)
      reads this`head, this`count
    {
      if head + count <= storage.Length
      then head <= i < head + count
      else head <= i || i < head + count - storage.Length
    }

    ghost function Contents(): (s: seq<Msg>)
      requires Valid()
      reads this`head, this`tail, this`count, storage
      ensures |s| == count
    {
      if head + count <= storage.Length
      then storage[head..head + count]
      else storage[head..] + storage[..head + count - storage.Length]
    }

    /** Entry `k` is stored `k` places after the head. */
    lemma ContentsAt()
      requires Valid()
      ensures forall k :: 0 <= k < count ==> Contents()[k] == storage[Wrap(head + k)]
    {
    }

    ghost function Model(): Queue
      requires Valid()
      reads this, storage
    {
      Queue(kind, Contents(), stats, evicted)
    }

    ghost function Wrap(i: nat): nat {
      if i < storage.Length then i else i - storage.Length
    }

    constructor (kind: Kind)
      ensures Valid() && fresh(storage)
      ensures Model() == Queue(kind, [], ZeroStats, 0) && Model().Valid()
    {
      this.kind := kind;
      storage := new Msg[Capacity(kind)](_ => Zeroed);
      head, tail, count := 0, 0, 0;
      stats := ZeroStats;
      evicted := 0;
    }

    method Mask(i: nat) returns (r: nat)
      requires storage.Length == Capacity(kind) && i < 2 * storage.Length
      ensures r == Wrap(i)
    {
      r := BitAnd(i, storage.Length - 1);
      MaskIsMod(i, storage.Length);
    }

    method PendingIndexAt(offset: nat) returns (index: nat)
      requires Valid() && offset < count
      ensures index == Wrap(head + offset) && index < storage.Length && storage[index] == Contents()[offset]
    {
      index := Mask(head + offset);
    }

    /** Overwrite the pending entry at offset `k`. */
    method StoreAt(index: nat, ghost k: nat, m: Msg)
      requires Valid() && k < count && index == Wrap(head + k)
      modifies storage
      ensures Valid() && Contents() == old(Contents())[k := m]
    {
      hide Contents, HasExternal;
      ghost var s := Contents();
      ContentsAt();
      storage[index] := m;
      ContentsAt();
      assert Contents() == s[k := m];
    }

    /** Dispose the pending entry at offset `k` and blank its index. */
    method DisposeSlot(pool: LeasePool, index: nat, ghost k: nat)
      requires Valid() && k < count && index == Wrap(head + k)
      modifies storage, pool, pool.slots
      ensures Valid() && Contents() == old(Contents())[k := Blank]
      ensures pool.Model() == DisposeMsg(old(pool.Model()), old(Contents()[k])).0
    {
      assert storage[index] == Contents()[k];
      var _ := pool.Dispose(storage[index]);
      StoreAt(index, k, Blank);
    }

    /** Storage index of the first (or last) pending entry of an event, and its offset. */
    method FindEventSlot(event: nat, latest: bool) returns (found: Option<nat>, ghost at: nat)
      requires Valid()
      ensures IsEventOffset(Contents(), event, latest, at)
      ensures found == if at < count then Some(Wrap(head + at)) else None
    {
      hide Contents, Wrap;
      found, at := None, count;
      ghost var s := Contents();
      var i := 0;
      while i < count
        invariant 0 <= i <= count
        invariant found.None? ==> at == count && forall j :: 0 <= j < i ==> s[j].eventId != event
        invariant found.Some? ==> at < i && found.value == Wrap(head + at) && s[at].eventId == event
        invariant found.Some? ==> latest && forall j :: at < j < i ==> s[j].eventId != event
      {
        var index := PendingIndexAt(i);
        if storage[index].eventId == event {
          found, at := Some(index), i;
          if !latest {
            return;
          }
        }
        i := i + 1;
      }
    }

    method RetainForQueueing(c: Catalog, pool: LeasePool, m: Msg) returns (rc: Result)
      modifies pool, pool.slots
      ensures (pool.Model(), rc) == RetainForQueue(c, old(pool.Model()), m)
    {
      if !HasExternal(m) {
        return Ok;
      }
      rc := pool.RetainMsg(c, m);
    }

    method StoreTail(m: Msg)
      requires Valid() && count < storage.Length
      modifies this, storage
      ensures Valid() && Model() == Append(old(Model()), m)
    {
      hide Contents, HasExternal, BitAnd, Capacity, PowerOfTwoTest;
      ghost var s := Contents();
      ContentsAt();
      var next := Mask(tail + 1);
      storage[tail] := m;
      tail, count := next, count + 1;
      ContentsAt();
      assert Contents() == s + [m];
      stats := stats.(posted := stats.posted + 1, highWatermark := Max(stats.highWatermark, count));
    }

    method DropHead(pool: LeasePool)
      requires Valid() && count > 0
      modifies this, storage, pool, pool.slots
      ensures Valid() && Model() == EvictOldest(old(Model()))
      ensures pool.Model() == DisposeMsg(old(pool.Model()), old(Contents()[0])).0
    {
      hide Contents, DisposeMsg, BitAnd;
      ghost var s := Contents();
      DisposeSlot(pool, head, 0);
      AdvanceHead();
      assert s[0 := Blank][1..] == s[1..];
      stats := stats.(dropped := stats.dropped + 1);
      evicted := evicted + 1;
    }

    /** Step over the oldest entry, which no longer holds an external payload. */
    method AdvanceHead()
      requires Valid() && count > 0 && !HasExternal(Contents()[0])
      modifies this`head, this`count
      ensures Valid() && Contents() == old(Contents())[1..]
    {
      hide Contents, HasExternal, BitAnd;
      ghost var s := Contents();
      ContentsAt();
      head := Mask(head + 1);
      count := count - 1;
      ContentsAt();
      assert Contents() == s[1..];
    }

    method RejectPush()
      requires Valid()
      modifies this`stats
      ensures Valid() && Model() == Rejected(old(Model()))
    {
      stats := stats.(rejected := stats.rejected + 1);
    }

    method FifoPush(c: Catalog, pool: LeasePool, m: Msg) returns (rc: Result, ghost effect: Effect)
      requires Valid()
      modifies this, storage, pool, pool.slots
      ensures Valid()
      ensures PushOutcome(pool.Model(), Model(), rc, effect) == PushFifo(c, old(pool.Model()), old(Model()), m)
    {
      if count == storage.Length {
        RejectPush();
        return ErrFull, EffectRejected;
      }
      rc := RetainForQueueing(c, pool, m);
      if rc != Ok {
        RejectPush();
        return rc, EffectRejected;
      }
      StoreTail(m);
      return Ok, EffectPosted;
    }

    /** The one-slot mailbox: the new share is taken before the old one is given back. */
    method SinglePush(c: Catalog, pool: LeasePool, m: Msg) returns (rc: Result, ghost effect: Effect)
      requires Valid() && kind == Mailbox1
      modifies this, storage, pool, pool.slots
      ensures Valid()
      ensures PushOutcome(pool.Model(), Model(), rc, effect) == PushSingle(c, old(pool.Model()), old(Model()), m)
    {
      rc := RetainForQueueing(c, pool, m);
      if rc != Ok {
        RejectPush();
        return rc, EffectRejected;
      }
      if count == 0 {
        StoreTail(m);
        return Ok, EffectPosted;
      }
      DisposeSlot(pool, 0, 0);
      StoreAt(0, 0, m);
      stats := stats.(replaced := stats.replaced + 1);
      return Ok, EffectReplaced;
    }

    method LossyPush(c: Catalog, pool: LeasePool, m: Msg) returns (rc: Result, ghost effect: Effect)
      requires Valid() && kind == LossyRing8
      modifies this, storage, pool, pool.slots
      ensures Valid()
      ensures PushOutcome(pool.Model(), Model(), rc, effect) == PushLossy(c, old(pool.Model()), old(Model()), m)
    {
      rc := RetainForQueueing(c, pool, m);
      if rc != Ok {
        RejectPush();
        return rc, EffectRejected;
      }
      if count == storage.Length {
        DropHead(pool);
      }
      StoreTail(m);
      return Ok, EffectPosted;
    }

    method FlagPush(m: Msg) returns (rc: Result, ghost effect: Effect)
      requires Valid() && kind == CoalescedFlag
      modifies this, storage
      ensures Valid()
      ensures forall p: Pool :: PushOutcome(p, Model(), rc, effect) == PushFlag(p, old(Model()), m)
    {
      if m.payload != NoPayload || m.payloadSize != 0 {
        RejectPush();
        return ErrContract, EffectRejected;
      }
      if count == 0 {
        StoreTail(m);
        return Ok, EffectPosted;
      }
      if storage[0].eventId != m.eventId {
        RejectPush();
        return ErrContract, EffectRejected;
      }
      stats := stats.(coalesced := stats.coalesced + 1);
      return Ok, EffectCoalesced;
    }

    /** Post one message; the ring does exactly what the sequence specification says. */
    method PushMsg(c: Catalog, pool: LeasePool, m: Msg) returns (rc: Result, ghost effect: Effect)
      requires Valid()
      modifies this, storage, pool, pool.slots
      ensures Valid()
      ensures PushOutcome(pool.Model(), Model(), rc, effect) == Push(c, old(pool.Model()), old(Model()), m)
    {
      rc := Validate(c, m);
      if rc != Ok {
        RejectPush();
        return rc, EffectRejected;
      }
      match kind {
        case Fifo8 => rc, effect := FifoPush(c, pool, m);
        case Fifo16 => rc, effect := FifoPush(c, pool, m);
        case Mailbox1 => rc, effect := SinglePush(c, pool, m);
        case LossyRing8 => rc, effect := LossyPush(c, pool, m);
        case CoalescedFlag => rc, effect := FlagPush(m);
      }
    }

    method PushUnlessFull(c: Catalog, pool: LeasePool, m: Msg) returns (rc: Result, effect: Effect)
      requires Valid()
      modifies this, storage, pool, pool.slots
      ensures Valid()
      ensures PushOutcome(pool.Model(), Model(), rc, effect) == PushOrDrop(c, old(pool.Model()), old(Model()), m)
    {
      if count == storage.Length {
        stats := stats.(dropped := stats.dropped + 1);
        return Ok, EffectDropped;
      }
      ghost var plain;
      rc, plain := PushMsg(c, pool, m);
      return rc, if rc == Ok then EffectPosted else EffectRejected;
    }

    method CoalescedPush(c: Catalog, pool: LeasePool, m: Msg) returns (rc: Result, effect: Effect)
      requires Valid()
      modifies this, storage, pool, pool.slots
      ensures Valid()
      ensures PushOutcome(pool.Model(), Model(), rc, effect) == PushCoalesced(c, old(pool.Model()), old(Model()), m)
    {
      hide Contents, PushOrDrop;
      var slot, at := FindEventSlot(m.eventId, false);
      EventOffsetIs(Contents(), m.eventId, false, at);
      if slot.Some? {
        stats := stats.(coalesced := stats.coalesced + 1);
        return Ok, EffectCoalesced;
      }
      rc, effect := PushUnlessFull(c, pool, m);
    }

    method ReplaceSlot(c: Catalog, pool: LeasePool, index: nat, ghost k: nat, m: Msg)
      returns (rc: Result, effect: Effect)
      requires Valid() && k < count && index == Wrap(head + k)
      modifies this, storage, pool, pool.slots
      ensures Valid()
      ensures PushOutcome(pool.Model(), Model(), rc, effect) == ReplaceEntry(c, old(pool.Model()), old(Model()), k, m)
    {
      rc := RetainForQueueing(c, pool, m);
      if rc != Ok {
        RejectPush();
        return rc, EffectRejected;
      }
      hide Contents, DisposeMsg, BitAnd;
      ghost var s := Contents();
      DisposeSlot(pool, index, k);
      StoreAt(index, k, m);
      assert Contents() == s[k := m];
      stats := stats.(replaced := stats.replaced + 1);
      return Ok, EffectReplaced;
    }

    method LatestOnlyPush(c: Catalog, pool: LeasePool, m: Msg) returns (rc: Result, effect: Effect)
      requires Valid()
      modifies this, storage, pool, pool.slots
      ensures Valid()
      ensures PushOutcome(pool.Model(), Model(), rc, effect) == PushLatestOnly(c, old(pool.Model()), old(Model()), m)
    {
      var slot, at := FindEventSlot(m.eventId, true);
      EventOffsetIs(Contents(), m.eventId, true, at);
      if slot.Some? {
        rc, effect := ReplaceSlot(c, pool, slot.value, at, m);
      } else {
        rc, effect := PushUnlessFull(c, pool, m);
      }
    }

    /** Post one message under a route QoS. */
    method PushWithQos(c: Catalog, pool: LeasePool, m: Msg, qos: Qos) returns (rc: Result, effect: Effect)
      requires Valid()
      modifies this, storage, pool, pool.slots
      ensures Valid()
      ensures PushOutcome(pool.Model(), Model(), rc, effect) == PushQos(c, old(pool.Model()), old(Model()), m, qos)
    {
      hide Contents, Validate, Push, PushCoalesced, PushLatestOnly;
      rc := Validate(c, m);
      if rc != Ok {
        RejectPush();
        return rc, EffectRejected;
      }
      match qos {
        case Coalesced => rc, effect := CoalescedPush(c, pool, m);
        case LatestOnly => rc, effect := LatestOnlyPush(c, pool, m);
        case _ =>
          ghost var plain;
          rc, plain := PushMsg(c, pool, m);
          effect := if rc == Ok then EffectPosted else EffectRejected;
      }
    }

    lemma HeadIsFirst()
      requires Valid() && count > 0
      ensures storage[head] == Contents()[0]
    {
    }

    /** Hand the oldest message, with whatever it owns, to the caller. */
    method PopMsg() returns (rc: Result, out: Option<Msg>)
      requires Valid()
      modifies this, storage
      ensures Valid()
      ensures old(count) == 0 ==> rc == ErrEmpty && out == None && Model() == old(Model())
      ensures old(count) > 0 ==> rc == Ok && out == Some(old(Contents()[0])) && Model() == Pop(old(Model()))
    {
      if count == 0 {
        return ErrEmpty, None;
      }
      hide Contents, BitAnd;
      HeadIsFirst();
      out := Some(storage[head]);
      StoreAt(head, 0, Blank);
      AdvanceHead();
      stats := stats.(popped := stats.popped + 1);
      rc := Ok;
    }

    /** Dispose and blank the whole storage, from index zero on. */
    method ClearStorage(pool: LeasePool)
      modifies storage, pool, pool.slots
      ensures forall j :: 0 <= j < storage.Length ==> storage[j] == Blank
      ensures pool.Model() == DisposeAll(old(pool.Model()), old(storage[..]))
    {
      hide DisposeAll, DisposeMsg;
      ghost var s := storage[..];
      assert s[0..] == s;
      for i := 0 to storage.Length
        invariant forall j :: i <= j < storage.Length ==> storage[j] == s[j]
        invariant forall j :: 0 <= j < i ==> storage[j] == Blank
        invariant DisposeAll(pool.Model(), s[i..]) == DisposeAll(old(pool.Model()), s)
      {
        DisposeAllFrom(pool.Model(), s, i);
        var _ := pool.Dispose(storage[i]);
        storage[i] := Blank;
      }
      assert s[storage.Length..] == [];
      DisposeNothing(pool.Model());
    }

    /** Release everything still queued, whatever order the ring stores it in. */
    method Reset(pool: LeasePool)
      requires Valid()
      modifies this, storage, pool, pool.slots
      ensures Valid() && Model() == Queue(kind, [], ZeroStats, 0)
      ensures pool.Model() == DisposeAll(old(pool.Model()), old(Contents()))
    {
      hide DisposeAll;
      StorageOrder(pool.Model(), storage[..], head, count);
      ClearStorage(pool);
      head, tail, count := 0, 0, 0;
      stats := ZeroStats;
      evicted := 0;
    }
  }
}
