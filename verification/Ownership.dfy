/**
 Message ownership across the messaging kernel: the lease pool, every mailbox and
 every envelope held by code outside a mailbox, as one transition system.

 The theorem is the reference-count invariant: a slot's count is the number of
 outstanding handles plus the number of undisposed envelopes that own a share,
 whatever sequence of acquire, retain, release, attach, push, pop, dispose and
 reset led here.
 */
module Ownership {
  import opened Results
  import opened Bits
  import opened Messages
  import opened Leases
  import opened Mailboxes

  /** `held` lists every envelope outside a mailbox, disposed ones included. */
  datatype State = State(pool: Pool, handles: seq<Handle>, held: seq<Msg>, boxes: seq<Queue>)

  /** What code running on the kernel may do while it handles a message. */
  datatype ClientAction =
    | Acquire(size: nat)
    | Retain(handle: Handle)
    | Release(handle: Handle)
    | InitMsg(event: nat, source: nat)
    | Attach(msg: nat, handle: Handle)
    | SetBytes(msg: nat, bytes: seq<Byte>)
    | SetForeign(msg: nat, data: Pointer, size: nat, retainFn: Callback, releaseFn: Callback, ctx: Option<nat>)
    | Post(box: nat, envelope: Msg, qos: Qos)
    | Dispose(msg: nat)

  datatype Action = Client(act: ClientAction) | Take(box: nat) | ResetBox(box: nat)

  function RemoveFirst(hs: seq<Handle>, h: Handle): seq<Handle> {
    if hs == [] then [] else if hs[0] == h then hs[1..] else [hs[0]] + RemoveFirst(hs[1..], h)
  }

  function AfterAcquire(s: State, size: nat): State {
    var o := AcquireLease(s.pool, size);
    s.(pool := o.pool, handles := if o.rc == Ok then s.handles + [o.handle.value] else s.handles)
  }

  function AfterRetain(s: State, h: Handle): State {
    var (p, rc) := RetainHandle(s.pool, h);
    s.(pool := p, handles := if rc == Ok then s.handles + [h] else s.handles)
  }

  function AfterRelease(s: State, h: Handle): State {
    var (p, rc) := ReleaseHandle(s.pool, h);
    s.(pool := p, handles := if rc == Ok then RemoveFirst(s.handles, h) else s.handles)
  }

  function AfterInit(c: Catalog, s: State, event: nat, source: nat): State {
    s.(held := s.held + [InitPublish(c, Blank, event, source).0])
  }

  function AfterMsg(s: State, k: nat, o: MsgOutcome): State
    requires k < |s.held|
  {
    s.(pool := o.pool, held := s.held[k := o.msg])
  }

  function AfterPost(c: Catalog, s: State, b: nat, m: Msg, qos: Qos): State
    requires b < |s.boxes| && |s.boxes[b].entries| <= Capacity(s.boxes[b].kind)
  {
    var o := PushQos(c, s.pool, s.boxes[b], m, qos);
    s.(pool := o.pool, boxes := s.boxes[b := o.queue])
  }

  function AfterDispose(s: State, k: nat): State
    requires k < |s.held|
  {
    var (p, m) := DisposeMsg(s.pool, s.held[k]);
    s.(pool := p, held := s.held[k := m])
  }

  function AfterTake(s: State, b: nat): State
    requires b < |s.boxes| && s.boxes[b].entries != []
  {
    s.(boxes := s.boxes[b := Pop(s.boxes[b])], held := s.held + [s.boxes[b].entries[0]])
  }

  function AfterReset(s: State, b: nat): State
    requires b < |s.boxes|
  {
    s.(pool := DisposeAll(s.pool, s.boxes[b].entries), boxes := s.boxes[b := Queue(s.boxes[b].kind, [], ZeroStats, 0)])
  }

  ghost predicate BoxesValid(s: State) {
    forall b :: 0 <= b < |s.boxes| ==> s.boxes[b].Valid()
  }

  function ClientStep(c: Catalog, s: State, a: ClientAction): State {
    match a
    case Acquire(size) => AfterAcquire(s, size)
    case Retain(h) => AfterRetain(s, h)
    case Release(h) => AfterRelease(s, h)
    case InitMsg(e, src) => AfterInit(c, s, e, src)
    case Attach(k, h) => if k < |s.held| then AfterMsg(s, k, AttachLease(c, s.pool, s.held[k], h)) else s
    case SetBytes(k, bytes) => if k < |s.held| then AfterMsg(s, k, SetInline(c, s.pool, s.held[k], bytes)) else s
    case SetForeign(k, data, size, retainFn, releaseFn, ctx) =>
      if k < |s.held| then AfterMsg(s, k, SetExternal(c, s.pool, s.held[k], data, size, retainFn, releaseFn, ctx))
          else s
    case Post(b, m, qos) => if b < |s.boxes| && |s.boxes[b].entries| <= Capacity(s.boxes[b].kind)
        then AfterPost(c, s, b, m, qos) else s
    case Dispose(k) => if k < |s.held| then AfterDispose(s, k) else s
  }

  function Step(c: Catalog, s: State, a: Action): State {
    match a
    case Client(act) => ClientStep(c, s, act)
    case Take(b) => if b < |s.boxes| && s.boxes[b].entries != [] then AfterTake(s, b) else s
    case ResetBox(b) => if b < |s.boxes| then AfterReset(s, b) else s
  }

  // ----- counting owners -----

  /** Would disposing `m` give a share of slot `i` back? */
  predicate Owns(m: Msg, i: nat) {
    m.cookie && !m.disposed && HasExternal(m) && m.payload.releaseFn.SlotFn? && m.payload.ctx == Some(i)
  }

  ghost function CountMsgs(ms: seq<Msg>, i: nat): nat {
    if ms == [] then 0 else (if Owns(ms[0], i) then 1 else 0) + CountMsgs(ms[1..], i)
  }

  ghost function CountHandles(hs: seq<Handle>, i: nat): nat {
    if hs == [] then 0 else (if hs[0].slot == Some(i) then 1 else 0) + CountHandles(hs[1..], i)
  }

  ghost function CountBoxes(bs: seq<Queue>, i: nat): nat {
    if bs == [] then 0 else CountMsgs(bs[0].entries, i) + CountBoxes(bs[1..], i)
  }

  ghost function Owners(s: State, i: nat): nat {
    CountHandles(s.handles, i) + CountMsgs(s.held, i) + CountBoxes(s.boxes, i)
  }

  // ----- the invariant -----

  ghost predicate SlotOk(p: Pool, i: nat, owners: nat)
    requires i < |p.slots|
  {
    var s := p.slots[i];
    s.refcount == owners && (s.inUse <==> owners > 0) && owners < WORD && s.payloadSize <= p.slotSize
  }

  ghost predicate CountsAgree(s: State) {
    forall i :: 0 <= i < |s.pool.slots| ==> SlotOk(s.pool, i, Owners(s, i))
  }

  /** A handle names an existing slot in its current generation. */
  ghost predicate HandleCurrent(p: Pool, h: Handle) {
    h.slot.Some? && h.slot.value < |p.slots| && p.slots[h.slot.value].generation == h.generation
  }

  /** An owning envelope points at its slot's bytes and agrees on their size. */
  ghost predicate Backed(p: Pool, m: Msg) {
    forall i: nat :: Owns(m, i) ==>
                  i < |p.slots| && m.payload.data == SlotData(i) && m.payloadSize == p.slots[i].payloadSize
  }

  ghost predicate Present(s: State, m: Msg) {
    m in s.held || exists b :: 0 <= b < |s.boxes| && m in s.boxes[b].entries
  }

  ghost predicate Inv(s: State) {
    && s.pool.slotSize > 0
    && BoxesValid(s)
    && CountsAgree(s)
    && (forall h :: h in s.handles ==> HandleCurrent(s.pool, h))
    && (forall m :: Present(s, m) ==> Backed(s.pool, m))
  }

  // ----- arithmetic of owner counts -----

  lemma {:induction false} CountMsgsConcat(a: seq<Msg>, b: seq<Msg>, i: nat)
    ensures CountMsgs(a + b, i) == CountMsgs(a, i) + CountMsgs(b, i)
  {
    if a == [] {
      assert a + b == b;
    } else {
      assert (a + b)[1..] == a[1..] + b;
      CountMsgsConcat(a[1..], b, i);
    }
  }

  ghost function Share(m: Msg, i: nat): nat {
    if Owns(m, i) then 1 else 0
  }

  lemma CountMsgsSplit(a: seq<Msg>, k: nat, i: nat)
    requires k < |a|
    ensures CountMsgs(a, i) == CountMsgs(a[..k], i) + Share(a[k], i) + CountMsgs(a[k + 1..], i)
  {
    assert a == a[..k] + ([a[k]] + a[k + 1..]);
    CountMsgsConcat(a[..k], [a[k]] + a[k + 1..], i);
    CountMsgsConcat([a[k]], a[k + 1..], i);
  }

  lemma CountMsgsUpdate(a: seq<Msg>, k: nat, m: Msg, i: nat)
    requires k < |a|
    ensures CountMsgs(a[k := m], i) + Share(a[k], i) == CountMsgs(a, i) + Share(m, i)
  {
    CountMsgsSplit(a, k, i);
    var b := a[k := m];
    CountMsgsSplit(b, k, i);
    assert b[..k] == a[..k] && b[k + 1..] == a[k + 1..];
  }

  lemma CountMsgsAppend(a: seq<Msg>, m: Msg, i: nat)
    ensures CountMsgs(a + [m], i) == CountMsgs(a, i) + Share(m, i)
  {
    CountMsgsConcat(a, [m], i);
  }

  lemma {:induction false} CountHandlesAppend(a: seq<Handle>, h: Handle, i: nat)
    ensures CountHandles(a + [h], i) == CountHandles(a, i) + (if h.slot == Some(i) then 1 else 0)
  {
    if a != [] {
      assert (a + [h])[1..] == a[1..] + [h];
      CountHandlesAppend(a[1..], h, i);
    }
  }

  lemma {:induction false} RemoveFirstCount(a: seq<Handle>, h: Handle, i: nat)
    requires h in a
    ensures CountHandles(RemoveFirst(a, h), i) + (if h.slot == Some(i) then 1 else 0) == CountHandles(a, i)
    ensures forall x :: x in RemoveFirst(a, h) ==> x in a
  {
    if a[0] != h {
      RemoveFirstCount(a[1..], h, i);
    }
  }

  lemma {:induction false} CountHandlesPositive(a: seq<Handle>, h: Handle, i: nat)
    requires h in a && h.slot == Some(i)
    ensures CountHandles(a, i) > 0
  {
    if a[0] != h {
      CountHandlesPositive(a[1..], h, i);
    }
  }

  lemma {:induction false} CountBoxesUpdate(bs: seq<Queue>, b: nat, q: Queue, i: nat)
    requires b < |bs|
    ensures CountBoxes(bs[b := q], i) + CountMsgs(bs[b].entries, i) == CountBoxes(bs, i) + CountMsgs(q.entries, i)
  {
    if b > 0 {
      assert bs[b := q][1..] == bs[1..][b - 1 := q];
      CountBoxesUpdate(bs[1..], b - 1, q, i);
    }
  }

  lemma {:induction false} CountBoxesAtLeast(bs: seq<Queue>, b: nat, i: nat)
    requires b < |bs|
    ensures CountBoxes(bs, i) >= CountMsgs(bs[b].entries, i)
  {
    if b > 0 {
      CountBoxesAtLeast(bs[1..], b - 1, i);
    }
  }

  /** A present owner is counted. */
  lemma PresentIsCounted(s: State, m: Msg, i: nat)
    requires Present(s, m) && Owns(m, i)
    ensures Owners(s, i) > 0
  {
    if m in s.held {
      var k :| 0 <= k < |s.held| && s.held[k] == m;
      CountMsgsSplit(s.held, k, i);
    } else {
      var b :| 0 <= b < |s.boxes| && m in s.boxes[b].entries;
      var k :| 0 <= k < |s.boxes[b].entries| && s.boxes[b].entries[k] == m;
      CountMsgsSplit(s.boxes[b].entries, k, i);
      CountBoxesAtLeast(s.boxes, b, i);
    }
  }

  // ----- how one pool operation moves one count -----

  /** `q` is `p` with the count of slot `i` moved by `d`; a slot that stays owned keeps its identity. */
  ghost predicate Shifted(p: Pool, q: Pool, i: nat, d: int)
    requires i < |p.slots|
  {
    && |q.slots| == |p.slots| && q.slotSize == p.slotSize
    && (forall j :: 0 <= j < |p.slots| && j != i ==> q.slots[j] == p.slots[j])
    && var a, b := p.slots[i], q.slots[i];
    && b.refcount == a.refcount + d
    && (b.inUse <==> b.refcount > 0)
    && (b.inUse && a.inUse ==> b.payloadSize == a.payloadSize && b.generation == a.generation)
    && b.payloadSize <= p.slotSize
  }

  ghost predicate SameSlots(p: Pool, q: Pool) {
    p.slots == q.slots && p.slotSize == q.slotSize
  }

  /** The slot counts before and after differ as the owners of the two states do. */
  ghost predicate Tracks(s: State, t: State) {
    || (SameSlots(s.pool, t.pool) && forall j :: 0 <= j < |s.pool.slots| ==> Owners(t, j) == Owners(s, j))
    || exists i: nat, d: int {:trigger Shifted(s.pool, t.pool, i, d)} ::
         && i < |s.pool.slots| && Shifted(s.pool, t.pool, i, d) && 0 <= Owners(s, i) + d < WORD
         && Owners(t, i) == Owners(s, i) + d
         && forall j :: 0 <= j < |s.pool.slots| && j != i ==> Owners(t, j) == Owners(s, j)
  }

  lemma TracksKeepsCounts(s: State, t: State)
    requires CountsAgree(s) && Tracks(s, t)
    ensures CountsAgree(t) && |t.pool.slots| == |s.pool.slots| && t.pool.slotSize == s.pool.slotSize
    ensures forall i :: 0 <= i < |s.pool.slots| && Owners(s, i) > 0 && Owners(t, i) > 0 ==>
                          && t.pool.slots[i].payloadSize == s.pool.slots[i].payloadSize
                          && t.pool.slots[i].generation == s.pool.slots[i].generation
  {
    forall i | 0 <= i < |s.pool.slots|
      ensures SlotOk(s.pool, i, Owners(s, i))
    {
    }
  }

  /**
   The frame of every preservation proof: once the counts are tracked, the
   invariant holds as soon as whatever is new in the state is itself sound.
   */
  lemma Conclude(s: State, t: State)
    requires Inv(s) && Tracks(s, t) && BoxesValid(t)
    requires forall h :: h in t.handles ==> h in s.handles || HandleCurrent(t.pool, h)
    requires forall m :: Present(t, m) ==> Present(s, m) || Backed(t.pool, m)
    ensures Inv(t)
  {
    TracksKeepsCounts(s, t);
    forall m | Present(t, m)
      ensures Backed(t.pool, m)
    {
      if Present(s, m) {
        forall i: nat | Owns(m, i)
          ensures i < |t.pool.slots| && m.payload.data == SlotData(i) && m.payloadSize == t.pool.slots[i].payloadSize
        {
          PresentIsCounted(s, m, i);
          PresentIsCounted(t, m, i);
        }
      }
    }
    forall h | h in t.handles
      ensures HandleCurrent(t.pool, h)
    {
      if h in s.handles {
        CountHandlesPositive(s.handles, h, h.slot.value);
        CountHandlesPositive(t.handles, h, h.slot.value);
      }
    }
  }

  // ----- pool operations -----

  lemma RetainedShifts(p: Pool, i: nat, n: nat)
    requires i < |p.slots| && SlotOk(p, i, n) && 0 < n < WORD - 1
    ensures Shifted(p, Retained(p, i), i, 1)
  {
  }

  lemma ReleasedShifts(p: Pool, i: nat, n: nat)
    requires i < |p.slots| && SlotOk(p, i, n) && 0 < n
    ensures Shifted(p, Released(p, i), i, -1)
  {
  }

  /** Disposing an owner gives its share back; disposing anything else leaves the slots alone. */
  lemma DisposeShifts(s: State, m: Msg)
    requires Inv(s) && Present(s, m)
    ensures
      var (q, d) := DisposeMsg(s.pool, m);
      && (forall i: nat :: !Owns(d, i))
      && ((SameSlots(s.pool, q) && forall i: nat :: !Owns(m, i)) ||
          exists i: nat :: i < |s.pool.slots| && Owns(m, i) && Shifted(s.pool, q, i, -1))
  {
    if m.cookie && !m.disposed && HasExternal(m) && m.payload.releaseFn.SlotFn? && m.payload.ctx.Some? {
      var i := m.payload.ctx.value;
      assert Owns(m, i) && Backed(s.pool, m);
      PresentIsCounted(s, m, i);
      assert SlotOk(s.pool, i, Owners(s, i));
      ReleasedShifts(s.pool, i, Owners(s, i));
    }
  }

  // ----- preservation, action by action -----

  /** Dispose a held envelope. */
  lemma DisposeKeeps(s: State, k: nat)
    requires Inv(s) && k < |s.held|
    ensures Inv(AfterDispose(s, k))
  {
    var t := AfterDispose(s, k);
    var m, d := s.held[k], t.held[k];
    DisposeShifts(s, m);
    forall i: nat
      ensures Owners(t, i) + Share(m, i) == Owners(s, i)
    {
      CountMsgsUpdate(s.held, k, d, i);
    }
    assert Tracks(s, t);
    assert Backed(t.pool, d);
    Conclude(s, t);
  }

  /** Same slots, same owners, nothing new: the invariant carries over. */
  lemma Rearranged(s: State, t: State)
    requires Inv(s) && BoxesValid(t) && SameSlots(s.pool, t.pool) && t.handles == s.handles
    requires forall i: nat :: Owners(t, i) == Owners(s, i)
    requires forall m :: Present(t, m) ==> Present(s, m) || forall i: nat :: !Owns(m, i)
    ensures Inv(t)
  {
    Conclude(s, t);
  }

  /** A held envelope may be dropped from the books once it owns nothing. */
  lemma DropLast(s: State, m: Msg)
    requires Inv(s.(held := s.held + [m])) && forall i: nat :: !Owns(m, i)
    ensures Inv(s)
  {
    forall i: nat
      ensures Owners(s, i) == Owners(s.(held := s.held + [m]), i)
    {
      CountMsgsAppend(s.held, m, i);
    }
    Rearranged(s.(held := s.held + [m]), s);
  }

  /** The 32-bit counter of slot `i` can take one more share. */
  predicate Room(p: Pool, i: nat) {
    i < |p.slots| ==> p.slots[i].refcount < WORD - 1
  }

  /** A valid lease envelope whose payload names a slot the way the slot currently is. */
  predicate NamesSlot(c: Catalog, p: Pool, m: Msg) {
    && Validate(c, m) == Ok && HasExternal(m) && c.events[m.eventId].KindLease?
    && Matches(p, m.payload.ctx, m.payload.data, m.payloadSize)
  }

  /** A plain push of a lease envelope stores it. */
  predicate StoresPlain(q: Queue) {
    match q.kind
    case Fifo8 => |q.entries| < Capacity(q.kind)
    case Fifo16 => |q.entries| < Capacity(q.kind)
    case Mailbox1 => true
    case LossyRing8 => true
    case CoalescedFlag => false
  }

  /** A push of a lease envelope of event `e` stores it, by the guards of the mailbox kind and the QoS. */
  predicate Stores(q: Queue, e: nat, qos: Qos) {
    match qos
    case Coalesced => FindFirst(q.entries, e) == |q.entries| < Capacity(q.kind) && StoresPlain(q)
    case LatestOnly => FindLast(q.entries, e) < |q.entries| || (|q.entries| < Capacity(q.kind) && StoresPlain(q))
    case _ => StoresPlain(q)
  }

  /** A post takes a share of the slot its envelope names. */
  predicate TakesShare(c: Catalog, p: Pool, q: Queue, m: Msg, qos: Qos) {
    NamesSlot(c, p, m) && Stores(q, m.eventId, qos)
  }

  /** Taking a share for a sound copy and holding the copy. */
  lemma RetainCopyKeeps(s: State, m: Msg, i: nat)
    requires Inv(s) && Room(s.pool, i)
    requires i < |s.pool.slots| && s.pool.slots[i].inUse && Owns(m, i) && Backed(s.pool, m)
    ensures Inv(s.(pool := Retained(s.pool, i), held := s.held + [m]))
  {
    var t := s.(pool := Retained(s.pool, i), held := s.held + [m]);
    assert SlotOk(s.pool, i, Owners(s, i));
    RetainedShifts(s.pool, i, Owners(s, i));
    forall j: nat
      ensures Owners(t, j) == Owners(s, j) + Share(m, j)
    {
      CountMsgsAppend(s.held, m, j);
    }
    assert Tracks(s, t);
    assert Backed(t.pool, m);
    Conclude(s, t);
  }

  /** A queue takes its share exactly when the copy it stores will own one. */
  lemma QueueShareKeeps(c: Catalog, s: State, m: Msg)
    requires Inv(s) && Validate(c, m) == Ok && (NamesSlot(c, s.pool, m) ==> Room(s.pool, m.payload.ctx.value))
    ensures
      var (p1, rc) := RetainForQueue(c, s.pool, m);
      if rc == Ok then Inv(s.(pool := p1, held := s.held + [m])) else SameSlots(s.pool, p1)
  {
    var (p1, rc) := RetainForQueue(c, s.pool, m);
    if rc == Ok {
      if HasExternal(m) {
        var i := m.payload.ctx.value;
        assert SlotOk(s.pool, i, Owners(s, i));
        RetainCopyKeeps(s, m, i);
      } else {
        HoldInertKeeps(s, m);
      }
    }
  }

  lemma HoldInertKeeps(s: State, m: Msg)
    requires Inv(s) && forall i: nat :: !Owns(m, i)
    ensures Inv(s.(held := s.held + [m]))
  {
    forall i: nat
      ensures Owners(s.(held := s.held + [m]), i) == Owners(s, i)
    {
      CountMsgsAppend(s.held, m, i);
    }
    Rearranged(s, s.(held := s.held + [m]));
  }

  /** What any push does to the entries, and which pool it leaves. */
  ghost predicate PushShape(c: Catalog, p: Pool, q: Queue, m: Msg, o: PushOutcome) {
    || (o.queue.entries == q.entries && SameSlots(p, o.pool))
    || (&& Validate(c, m) == Ok
        && var (p1, rc) := RetainForQueue(c, p, m);
        && rc == Ok
        && ((o.queue.entries == q.entries + [m] && o.pool == p1) ||
            exists k :: 0 <= k < |q.entries| && o.pool == DisposeMsg(p1, q.entries[k]).0
                && Displaces(q.entries, k, m, o.queue.entries)))
  }

  /** `m` takes the place of entry `k`: in that place, or at the tail when the oldest is evicted. */
  ghost predicate Displaces(s: seq<Msg>, k: nat, m: Msg, t: seq<Msg>)
    requires k < |s|
  {
    t == s[k := m] || (k == 0 && t == s[1..] + [m])
  }

  lemma PlainPushShape(c: Catalog, p: Pool, q: Queue, m: Msg)
    requires |q.entries| <= Capacity(q.kind)
    ensures Validate(c, m) == Ok ==> PushShape(c, p, q, m, Push(c, p, q, m))
  {
    if Validate(c, m) == Ok && !q.kind.CoalescedFlag? {
      var (p1, rc) := RetainForQueue(c, p, m);
      if rc != Ok {
        RetainFailureIsInert(c, p, m);
      } else if q.entries != [] {
        assert q.kind.Mailbox1? ==> Displaces(q.entries, 0, m, Push(c, p, q, m).queue.entries);
        assert q.kind.LossyRing8? && |q.entries| == Capacity(q.kind) ==>
            Displaces(q.entries, 0, m, Push(c, p, q, m).queue.entries);
      }
    }
  }

  lemma RetainFailureIsInert(c: Catalog, p: Pool, m: Msg)
    requires RetainForQueue(c, p, m).1 != Ok
    ensures SameSlots(p, RetainForQueue(c, p, m).0)
  {
  }

  lemma AnyPushShape(c: Catalog, p: Pool, q: Queue, m: Msg, qos: Qos)
    requires |q.entries| <= Capacity(q.kind)
    ensures PushShape(c, p, q, m, PushQos(c, p, q, m, qos))
  {
    if Validate(c, m) == Ok {
      PlainPushShape(c, p, q, m);
      var k := FindLast(q.entries, m.eventId);
      if qos == LatestOnly && k < |q.entries| {
        if RetainForQueue(c, p, m).1 != Ok {
          RetainFailureIsInert(c, p, m);
        } else {
          assert Displaces(q.entries, k, m, PushQos(c, p, q, m, qos).queue.entries);
        }
      }
    }
  }

  // ----- moving envelopes between holders and mailboxes -----

  ghost function WithBox(s: State, b: nat, q: Queue): State
    requires b < |s.boxes|
  {
    s.(boxes := s.boxes[b := q])
  }

  /** The held copy becomes the newest entry of a mailbox. */
  lemma MoveIntoBox(s: State, m: Msg, b: nat, q: Queue)
    requires Inv(s.(held := s.held + [m])) && b < |s.boxes|
    requires q.Valid() && q.entries == s.boxes[b].entries + [m]
    ensures Inv(WithBox(s, b, q))
  {
    var s1, t := s.(held := s.held + [m]), WithBox(s, b, q);
    forall i: nat
      ensures Owners(t, i) == Owners(s1, i)
    {
      CountMsgsAppend(s.held, m, i);
      CountMsgsAppend(s.boxes[b].entries, m, i);
      CountBoxesUpdate(s.boxes, b, q, i);
    }
    Rearranged(s1, t);
  }

  /** The held copy displaces entry `k`, which becomes the held one. */
  lemma ExchangeWithBox(s: State, m: Msg, b: nat, k: nat, q: Queue)
    requires Inv(s.(held := s.held + [m])) && b < |s.boxes| && k < |s.boxes[b].entries|
    requires q.Valid() && Displaces(s.boxes[b].entries, k, m, q.entries)
    ensures Inv(WithBox(s, b, q).(held := s.held + [s.boxes[b].entries[k]]))
  {
    var es := s.boxes[b].entries;
    var s1, t := s.(held := s.held + [m]), WithBox(s, b, q).(held := s.held + [es[k]]);
    forall i: nat
      ensures Owners(t, i) == Owners(s1, i)
    {
      CountMsgsAppend(s.held, m, i);
      CountMsgsAppend(s.held, es[k], i);
      CountMsgsUpdate(es, k, m, i);
      CountMsgsAppend(es[1..], m, i);
      CountBoxesUpdate(s.boxes, b, q, i);
    }
    forall x | Present(t, x)
      ensures Present(s1, x)
    {
      assert Present(s, es[k]);
    }
    Rearranged(s1, t);
  }

  lemma DisposeLast(s: State, m: Msg)
    requires Inv(s.(held := s.held + [m]))
    ensures Inv(s.(pool := DisposeMsg(s.pool, m).0))
  {
    var s1 := s.(held := s.held + [m]);
    var k := |s.held|;
    DisposeKeeps(s1, k);
    DisposeShifts(s1, m);
    var d := DisposeMsg(s.pool, m).1;
    assert AfterDispose(s1, k).held == s.held + [d];
    DropLast(s.(pool := DisposeMsg(s.pool, m).0), d);
  }

  /** Entries change, or the pool does, only when the envelope was stored. */
  lemma PlainPushStores(c: Catalog, p: Pool, q: Queue, m: Msg)
    requires |q.entries| <= Capacity(q.kind) && HasExternal(m) && !StoresPlain(q)
    ensures var o := Push(c, p, q, m); o.queue.entries == q.entries && o.pool == p
  {
    hide Validate, RetainForQueue, DisposeMsg;
  }

  lemma PushStores(c: Catalog, p: Pool, q: Queue, m: Msg, qos: Qos)
    requires |q.entries| <= Capacity(q.kind) && HasExternal(m) && !Stores(q, m.eventId, qos)
    ensures var o := PushQos(c, p, q, m, qos); o.queue.entries == q.entries && o.pool == p
  {
    hide Validate, RetainForQueue, DisposeMsg, Push, StoresPlain;
    if !StoresPlain(q) {
      PlainPushStores(c, p, q, m);
    }
  }

  /** Posting any envelope, sound or forged, keeps the books as long as the slot it takes a share of has room. */
  lemma PostKeeps(c: Catalog, s: State, b: nat, m: Msg, qos: Qos)
    requires Inv(s) && b < |s.boxes|
    requires TakesShare(c, s.pool, s.boxes[b], m, qos) ==> Room(s.pool, m.payload.ctx.value)
    ensures Inv(AfterPost(c, s, b, m, qos))
  {
    hide PushQos, Stores, RetainForQueue, DisposeMsg;
    var q := s.boxes[b];
    assert q.Valid();
    var o := PushQos(c, s.pool, q, m, qos);
    var t := AfterPost(c, s, b, m, qos);
    PushKeepsQueueValid(c, s.pool, q, m, qos);
    AnyPushShape(c, s.pool, q, m, qos);
    if o.queue.entries == q.entries && SameSlots(s.pool, o.pool) {
      forall i: nat
        ensures Owners(t, i) == Owners(s, i)
      {
        CountBoxesUpdate(s.boxes, b, o.queue, i);
      }
      Rearranged(s, t);
    } else {
      if NamesSlot(c, s.pool, m) && !Stores(q, m.eventId, qos) {
        PushStores(c, s.pool, q, m, qos);
      }
      StoredPostKeeps(c, s, b, m, o);
    }
  }

  /** The part of a post after the queue took its share. */
  lemma StoredPostKeeps(c: Catalog, s: State, b: nat, m: Msg, o: PushOutcome)
    requires Inv(s) && b < |s.boxes| && o.queue.Valid()
    requires NamesSlot(c, s.pool, m) ==> Room(s.pool, m.payload.ctx.value)
    requires PushShape(c, s.pool, s.boxes[b], m, o)
    requires !(o.queue.entries == s.boxes[b].entries && SameSlots(s.pool, o.pool))
    ensures Inv(WithBox(s, b, o.queue).(pool := o.pool))
  {
    hide NamesSlot, RetainForQueue, DisposeMsg, Inv;
    var q := s.boxes[b];
    QueueShareKeeps(c, s, m);
    var p1 := RetainForQueue(c, s.pool, m).0;
    var s1 := s.(pool := p1);
    if o.queue.entries == q.entries + [m] && o.pool == p1 {
      MoveIntoBox(s1, m, b, o.queue);
    } else {
      var k :| 0 <= k < |q.entries| && o.pool == DisposeMsg(p1, q.entries[k]).0
          && Displaces(q.entries, k, m, o.queue.entries);
      ExchangeWithBox(s1, m, b, k, o.queue);
      DisposeLast(WithBox(s1, b, o.queue), q.entries[k]);
    }
  }

  /** A slot in use whose counter has wrapped to zero. */
  ghost predicate Wrapped(p: Pool, i: nat) {
    i < |p.slots| && p.slots[i].inUse && p.slots[i].refcount == 0
  }

  /** Nothing releases a wrapped slot. */
  lemma WrappedStays(p: Pool, m: Msg, i: nat)
    requires Wrapped(p, i)
    ensures Wrapped(DisposeMsg(p, m).0, i) && Wrapped(ReleasePayload(p, m), i)
  {
  }

  lemma RetainKeepsWrapped(c: Catalog, p: Pool, m: Msg, i: nat)
    requires Wrapped(p, i)
    ensures Wrapped(RetainForQueue(c, p, m).0, i)
  {
  }

  /** ... and nothing retains it, so no push repairs it. */
  lemma PushKeepsWrapped(c: Catalog, p: Pool, q: Queue, m: Msg, qos: Qos, i: nat)
    requires |q.entries| <= Capacity(q.kind) && Wrapped(p, i)
    ensures Wrapped(PushQos(c, p, q, m, qos).pool, i)
  {
    hide Validate, DisposeMsg, RetainForQueue, Wrapped, Push;
    RetainKeepsWrapped(c, p, m, i);
    forall x: Msg
      ensures Wrapped(DisposeMsg(RetainForQueue(c, p, m).0, x).0, i)
    {
      WrappedStays(RetainForQueue(c, p, m).0, x, i);
    }
    PlainPushKeepsWrapped(c, p, q, m, i);
  }

  lemma PlainPushKeepsWrapped(c: Catalog, p: Pool, q: Queue, m: Msg, i: nat)
    requires |q.entries| <= Capacity(q.kind) && Wrapped(p, i)
    ensures Wrapped(Push(c, p, q, m).pool, i)
  {
    hide Validate, DisposeMsg, RetainForQueue, Wrapped;
    RetainKeepsWrapped(c, p, m, i);
    if q.entries != [] {
      WrappedStays(RetainForQueue(c, p, m).0, q.entries[0], i);
    }
  }

  lemma SoundIsNotWrapped(s: State, i: nat)
    requires Inv(s)
    ensures !Wrapped(s.pool, i)
  {
    if i < |s.pool.slots| {
      assert SlotOk(s.pool, i, Owners(s, i));
    }
  }

  lemma WrappedIsUnsound(s: State, i: nat)
    requires Wrapped(s.pool, i)
    ensures !Inv(s)
  {
    hide Inv, Wrapped;
    if Inv(s) {
      SoundIsNotWrapped(s, i);
    }
  }

  lemma PushWraps(c: Catalog, p: Pool, q: Queue, m: Msg, qos: Qos)
    requires |q.entries| <= Capacity(q.kind) && TakesShare(c, p, q, m, qos)
    requires p.slots[m.payload.ctx.value].refcount == WORD - 1
    ensures Wrapped(PushQos(c, p, q, m, qos).pool, m.payload.ctx.value)
  {
    hide Validate, DisposeMsg;
    var i := m.payload.ctx.value;
    RetainWraps(c, p, m);
    var p1 := RetainForQueue(c, p, m).0;
    forall x: Msg
      ensures Wrapped(DisposeMsg(p1, x).0, i)
    {
      WrappedStays(p1, x, i);
    }
    PlainPushWraps(c, p, q, m);
    hide RetainForQueue, Push, StoresPlain;
  }

  lemma RetainWraps(c: Catalog, p: Pool, m: Msg)
    requires NamesSlot(c, p, m) && p.slots[m.payload.ctx.value].refcount == WORD - 1
    ensures RetainForQueue(c, p, m).1 == Ok && Wrapped(RetainForQueue(c, p, m).0, m.payload.ctx.value)
  {
  }

  lemma PlainPushWraps(c: Catalog, p: Pool, q: Queue, m: Msg)
    requires |q.entries| <= Capacity(q.kind) && NamesSlot(c, p, m) && p.slots[m.payload.ctx.value].refcount == WORD - 1
    ensures StoresPlain(q) ==> Wrapped(Push(c, p, q, m).pool, m.payload.ctx.value)
  {
    hide DisposeMsg, RetainForQueue;
    var i := m.payload.ctx.value;
    RetainWraps(c, p, m);
    var p1 := RetainForQueue(c, p, m).0;
    if q.entries != [] {
      WrappedStays(p1, q.entries[0], i);
    }
  }

  lemma PostWraps(c: Catalog, s: State, b: nat, m: Msg, qos: Qos)
    requires Inv(s) && b < |s.boxes| && TakesShare(c, s.pool, s.boxes[b], m, qos) && !Room(s.pool, m.payload.ctx.value)
    ensures Wrapped(AfterPost(c, s, b, m, qos).pool, m.payload.ctx.value)
    ensures exists i: nat :: Wrapped(AfterPost(c, s, b, m, qos).pool, i)
  {
    hide PushQos, Stores, Capacity, Wrapped;
    var i := m.payload.ctx.value;
    assert SlotOk(s.pool, i, Owners(s, i));
    assert s.boxes[b].Valid();
    PushWraps(c, s.pool, s.boxes[b], m, qos);
  }

  /**
   Posting is sound exactly when the post takes no share or the slot it takes one of has
   room.  Which posts take a share is decided by the guards: the envelope names a slot as
   it is, and the mailbox kind and QoS store it.
   */
  lemma PostKeepsExactly(c: Catalog, s: State, b: nat, m: Msg, qos: Qos)
    requires Inv(s) && b < |s.boxes|
    ensures Inv(AfterPost(c, s, b, m, qos)) <==>
            (TakesShare(c, s.pool, s.boxes[b], m, qos) ==> Room(s.pool, m.payload.ctx.value))
  {
    hide PushQos, Stores, Capacity;
    if TakesShare(c, s.pool, s.boxes[b], m, qos) && !Room(s.pool, m.payload.ctx.value) {
      PostWraps(c, s, b, m, qos);
      WrappedIsUnsound(AfterPost(c, s, b, m, qos), m.payload.ctx.value);
    } else {
      PostKeeps(c, s, b, m, qos);
    }
  }

  /** The consumer becomes the owner of what the mailbox owned. */
  lemma TakeKeeps(s: State, b: nat)
    requires Inv(s) && b < |s.boxes| && s.boxes[b].entries != []
    ensures Inv(AfterTake(s, b))
  {
    var t := AfterTake(s, b);
    var es := s.boxes[b].entries;
    assert s.boxes[b].Valid();
    forall i: nat
      ensures Owners(t, i) == Owners(s, i)
    {
      CountMsgsAppend(s.held, es[0], i);
      CountBoxesUpdate(s.boxes, b, Pop(s.boxes[b]), i);
    }
    Rearranged(s, t);
  }

  lemma {:induction false} DisposeSuffix(s: State, es: seq<Msg>)
    requires Inv(s.(held := s.held + es))
    ensures Inv(s.(pool := DisposeAll(s.pool, es)))
    decreases |es|
  {
    if es == [] {
      assert s.held + es == s.held;
    } else {
      var rest := es[1..];
      var s1 := s.(held := s.held + es);
      var s2 := s.(held := s.held + rest);
      assert s.held + es == s.held + [es[0]] + rest;
      forall i: nat
        ensures Owners(s2.(held := s2.held + [es[0]]), i) == Owners(s1, i)
      {
        CountMsgsConcat(s.held, rest, i);
        CountMsgsConcat(s.held, es, i);
        CountMsgsAppend(s.held + rest, es[0], i);
      }
      Rearranged(s1, s2.(held := s2.held + [es[0]]));
      DisposeLast(s2, es[0]);
      DisposeSuffix(s.(pool := DisposeMsg(s.pool, es[0]).0), rest);
    }
  }

  lemma ResetKeeps(s: State, b: nat)
    requires Inv(s) && b < |s.boxes|
    ensures Inv(AfterReset(s, b))
  {
    var es := s.boxes[b].entries;
    var empty := Queue(s.boxes[b].kind, [], ZeroStats, 0);
    var t := WithBox(s, b, empty);
    assert s.boxes[b].Valid();
    forall i: nat
      ensures Owners(t.(held := s.held + es), i) == Owners(s, i)
    {
      CountMsgsConcat(s.held, es, i);
      CountBoxesUpdate(s.boxes, b, empty, i);
    }
    Rearranged(s, t.(held := s.held + es));
    DisposeSuffix(t, es);
  }

  lemma AcquireKeeps(s: State, size: nat)
    requires Inv(s)
    ensures Inv(AfterAcquire(s, size))
  {
    var t := AfterAcquire(s, size);
    var o := AcquireLease(s.pool, size);
    if o.rc == Ok {
      var i := FirstFree(s.pool.slots, 0);
      assert SlotOk(s.pool, i, Owners(s, i));
      forall j: nat
        ensures Owners(t, j) == Owners(s, j) + (if j == i then 1 else 0)
      {
        CountHandlesAppend(s.handles, o.handle.value, j);
      }
      assert Shifted(s.pool, t.pool, i, 1);
      assert Tracks(s, t);
    }
    Conclude(s, t);
  }

  /** Retaining a handle is sound exactly when the handle is dead or its counter has room. */
  lemma RetainKeepsExactly(s: State, h: Handle)
    requires Inv(s)
    ensures Inv(AfterRetain(s, h)) <==> !Live(s.pool, h) || s.pool.slots[h.slot.value].refcount < WORD - 1
  {
    var t := AfterRetain(s, h);
    if Live(s.pool, h) {
      var i := h.slot.value;
      assert SlotOk(s.pool, i, Owners(s, i));
      forall j: nat
        ensures Owners(t, j) == Owners(s, j) + (if j == i then 1 else 0)
      {
        CountHandlesAppend(s.handles, h, j);
      }
      if s.pool.slots[i].refcount < WORD - 1 {
        RetainedShifts(s.pool, i, Owners(s, i));
        assert Tracks(s, t);
        Conclude(s, t);
      } else {
        assert !SlotOk(t.pool, i, Owners(t, i));
      }
    } else {
      Conclude(s, t);
    }
  }

  /** Releasing a handle is sound exactly when the handle is dead or the caller really holds it. */
  lemma ReleaseKeepsExactly(s: State, h: Handle)
    requires Inv(s)
    ensures Inv(AfterRelease(s, h)) <==> !Live(s.pool, h) || h in s.handles
  {
    var t := AfterRelease(s, h);
    if Live(s.pool, h) {
      var i := h.slot.value;
      assert SlotOk(s.pool, i, Owners(s, i));
      ReleasedShifts(s.pool, i, Owners(s, i));
      if h in s.handles {
        forall j: nat
          ensures Owners(t, j) + (if j == i then 1 else 0) == Owners(s, j)
        {
          RemoveFirstCount(s.handles, h, j);
        }
        RemoveFirstCount(s.handles, h, i);
        assert Tracks(s, t);
        Conclude(s, t);
      } else {
        RemoveAbsent(s.handles, h);
        assert !SlotOk(t.pool, i, Owners(t, i));
      }
    } else {
      Conclude(s, t);
    }
  }

  lemma {:induction false} RemoveAbsent(a: seq<Handle>, h: Handle)
    requires h !in a
    ensures RemoveFirst(a, h) == a
  {
    if a != [] {
      RemoveAbsent(a[1..], h);
    }
  }

  lemma InitKeeps(c: Catalog, s: State, event: nat, source: nat)
    requires Inv(s)
    ensures Inv(AfterInit(c, s, event, source))
  {
    HoldInertKeeps(s, InitPublish(c, Blank, event, source).0);
  }

  /** A held envelope gives up what it owned and then owns nothing. */
  lemma ReplaceByInert(s: State, k: nat, m: Msg)
    requires Inv(s) && k < |s.held| && forall i: nat :: !Owns(m, i)
    ensures Inv(s.(pool := DisposeMsg(s.pool, s.held[k]).0, held := s.held[k := m]))
  {
    DisposeKeeps(s, k);
    DisposeShifts(s, s.held[k]);
    var t := AfterDispose(s, k);
    var u := t.(held := s.held[k := m]);
    forall i: nat
      ensures Owners(u, i) == Owners(t, i)
    {
      CountMsgsUpdate(s.held, k, m, i);
      CountMsgsUpdate(s.held, k, t.held[k], i);
    }
    forall x | Present(u, x)
      ensures x == m || Present(t, x)
    {
      if x in u.held {
        var j :| 0 <= j < |u.held| && u.held[j] == x;
        assert j != k ==> t.held[j] == x;
      }
    }
    Rearranged(t, u);
  }

  lemma SetBytesKeeps(c: Catalog, s: State, k: nat, bytes: seq<Byte>)
    requires Inv(s) && k < |s.held|
    ensures Inv(AfterMsg(s, k, SetInline(c, s.pool, s.held[k], bytes)))
  {
    var o := SetInline(c, s.pool, s.held[k], bytes);
    if o.rc == Ok {
      ReplaceByInert(s, k, o.msg);
    } else {
      assert AfterMsg(s, k, o) == s;
    }
  }

  /** The held copy replaces what envelope `k` was, whose payload has been given back. */
  lemma CopyOver(s: State, g: Msg, k: nat)
    requires Inv(s.(held := s.held + [g])) && k < |s.held| && forall i: nat :: !Owns(s.held[k], i)
    ensures Inv(s.(held := s.held[k := g]))
  {
    var s1, t := s.(held := s.held + [g]), s.(held := s.held[k := g]);
    forall i: nat
      ensures Owners(t, i) == Owners(s1, i)
    {
      CountMsgsUpdate(s.held, k, g, i);
      CountMsgsAppend(s.held, g, i);
    }
    forall x | Present(t, x)
      ensures Present(s1, x)
    {
      if x in t.held {
        var j :| 0 <= j < |t.held| && t.held[j] == x;
        assert s1.held[if j == k then |s.held| else j] == x;
      }
    }
    Rearranged(s1, t);
  }

  /** Attaching a live lease, with the payload the envelope had before released on the way. */
  lemma AttachLiveKeeps(s: State, k: nat, i: nat, g: Msg)
    requires Inv(s) && Room(s.pool, i) && k < |s.held| && s.held[k].cookie && !s.held[k].disposed
    requires i < |s.pool.slots| && s.pool.slots[i].inUse && Owns(g, i) && Backed(s.pool, g)
    ensures Inv(s.(pool := ReleasePayload(Retained(s.pool, i), s.held[k]), held := s.held[k := g]))
  {
    RetainCopyKeeps(s, g, i);
    var p1 := Retained(s.pool, i);
    var s1 := s.(pool := p1, held := s.held + [g]);
    DisposeKeeps(s1, k);
    DisposeShifts(s1, s.held[k]);
    var (p2, d) := DisposeMsg(p1, s.held[k]);
    var s2 := s.(pool := p2, held := s.held[k := d]);
    assert AfterDispose(s1, k).held == s2.held + [g];
    CopyOver(s2, g, k);
    assert s2.held[k := g] == s.held[k := g];
  }

  /** An attach takes a share first, whether or not the message then accepts the lease. */
  predicate AttachTakes(p: Pool, h: Handle) {
    Live(p, h) && p.slots[h.slot.value].payloadSize > 0
  }

  lemma AttachKeeps(c: Catalog, s: State, k: nat, h: Handle)
    requires Inv(s) && k < |s.held| && (AttachTakes(s.pool, h) ==> Room(s.pool, h.slot.value))
    ensures Inv(AfterMsg(s, k, AttachLease(c, s.pool, s.held[k], h)))
  {
    var o := AttachLease(c, s.pool, s.held[k], h);
    var t := AfterMsg(s, k, o);
    if o.rc == Ok {
      var i := h.slot.value;
      assert SlotOk(s.pool, i, Owners(s, i));
      if s.pool.slots[i].payloadSize == 0 {
        ReplaceByInert(s, k, o.msg);
      } else {
        AttachLiveKeeps(s, k, i, o.msg);
      }
    } else {
      RefusedAttach(c, s, k, h);
      assert t.held == s.held;
      Rearranged(s, t);
    }
  }

  /** A refused attach leaves the slots as they were: the share taken first is given back. */
  lemma RefusedAttach(c: Catalog, s: State, k: nat, h: Handle)
    requires Inv(s) && k < |s.held| && (AttachTakes(s.pool, h) ==> Room(s.pool, h.slot.value))
    requires AttachLease(c, s.pool, s.held[k], h).rc != Ok
    ensures SameSlots(s.pool, AttachLease(c, s.pool, s.held[k], h).pool)
    ensures AttachLease(c, s.pool, s.held[k], h).msg == s.held[k]
  {
    if Live(s.pool, h) {
      var i := h.slot.value;
      assert SlotOk(s.pool, i, Owners(s, i));
      assert Released(Retained(s.pool, i), i).slots == s.pool.slots;
    }
  }

  /** Attaching is sound exactly when it takes no share or the slot of the handle has room. */
  lemma AttachKeepsExactly(c: Catalog, s: State, k: nat, h: Handle)
    requires Inv(s) && k < |s.held|
    ensures Inv(AfterMsg(s, k, AttachLease(c, s.pool, s.held[k], h))) <==>
            (AttachTakes(s.pool, h) ==> Room(s.pool, h.slot.value))
  {
    if AttachTakes(s.pool, h) && !Room(s.pool, h.slot.value) {
      var i := h.slot.value;
      assert SlotOk(s.pool, i, Owners(s, i));
      AttachWraps(c, s.pool, s.held[k], h);
      WrappedIsUnsound(AfterMsg(s, k, AttachLease(c, s.pool, s.held[k], h)), i);
    } else {
      AttachKeeps(c, s, k, h);
    }
  }

  lemma AttachWraps(c: Catalog, p: Pool, m: Msg, h: Handle)
    requires AttachTakes(p, h) && p.slots[h.slot.value].refcount == WORD - 1
    ensures Wrapped(AttachLease(c, p, m, h).pool, h.slot.value)
  {
    hide ReleasePayload;
    WrappedStays(Retained(p, h.slot.value), m, h.slot.value);
  }

  /** Setting an external payload directly claims a share of a slot that nobody took. */
  predicate ClaimsShare(c: Catalog, m: Msg, data: Pointer, size: nat, retainFn: Callback, releaseFn: Callback,
                        ctx: Option<nat>) {
    && m.cookie && !m.disposed && c.EventValid(m.eventId) && c.events[m.eventId].KindLease?
    && size > 0 && !data.Null? && retainFn.SlotFn? && releaseFn.SlotFn? && ctx.Some?
  }

  /** Setting an external payload is sound exactly when it does not claim a share. */
  lemma SetExternalKeepsExactly(c: Catalog, s: State, k: nat, data: Pointer, size: nat,
                                retainFn: Callback, releaseFn: Callback, ctx: Option<nat>)
    requires Inv(s) && k < |s.held|
    ensures Inv(AfterMsg(s, k, SetExternal(c, s.pool, s.held[k], data, size, retainFn, releaseFn, ctx))) <==>
            !ClaimsShare(c, s.held[k], data, size, retainFn, releaseFn, ctx)
  {
    var m := s.held[k];
    var o := SetExternal(c, s.pool, m, data, size, retainFn, releaseFn, ctx);
    if o.rc != Ok {
      assert AfterMsg(s, k, o) == s;
    } else if ClaimsShare(c, m, data, size, retainFn, releaseFn, ctx) {
      ReplaceByInert(s, k, Blank);
      ClaimIsUnsound(s.(pool := o.pool, held := s.held[k := Blank]), k, o.msg, ctx.value);
      assert s.held[k := Blank][k := o.msg] == s.held[k := o.msg];
    } else {
      ReplaceByInert(s, k, o.msg);
    }
  }

  /** An envelope that owns a share nobody took unbalances its slot, or names none. */
  lemma ClaimIsUnsound(s: State, k: nat, m: Msg, i: nat)
    requires Inv(s) && k < |s.held| && (forall j: nat :: !Owns(s.held[k], j)) && Owns(m, i)
    ensures !Inv(s.(held := s.held[k := m]))
  {
    var t := s.(held := s.held[k := m]);
    if i < |s.pool.slots| {
      CountMsgsUpdate(s.held, k, m, i);
      assert SlotOk(s.pool, i, Owners(s, i));
      assert !SlotOk(t.pool, i, Owners(t, i));
    } else {
      assert t.held[k] == m;
      assert Present(t, m) && !Backed(t.pool, m);
    }
  }

  // ----- runs -----

  /**
   What the pool's clients owe it: release only what is held, claim no share by hand,
   and never take a share from a counter at its 32-bit maximum.
   */
  ghost predicate Disciplined(c: Catalog, s: State, a: ClientAction) {
    match a
    case Retain(h) => Live(s.pool, h) ==> Room(s.pool, h.slot.value)
    case Release(h) => Live(s.pool, h) ==> h in s.handles
    case Attach(k, h) => k < |s.held| && AttachTakes(s.pool, h) ==> Room(s.pool, h.slot.value)
    case SetForeign(k, data, size, retainFn, releaseFn, ctx) =>
      k < |s.held| ==> !ClaimsShare(c, s.held[k], data, size, retainFn, releaseFn, ctx)
    case Post(b, m, qos) =>
      b < |s.boxes| && TakesShare(c, s.pool, s.boxes[b], m, qos) ==> Room(s.pool, m.payload.ctx.value)
    case _ => true
  }

  function ClientRun(c: Catalog, s: State, acts: seq<ClientAction>): State
    decreases |acts|
  {
    if acts == [] then s else ClientRun(c, ClientStep(c, s, acts[0]), acts[1..])
  }

  ghost predicate ClientDisciplined(c: Catalog, s: State, acts: seq<ClientAction>)
    decreases |acts|
  {
    acts != [] ==> Disciplined(c, s, acts[0]) && ClientDisciplined(c, ClientStep(c, s, acts[0]), acts[1..])
  }

  function Run(c: Catalog, s: State, acts: seq<Action>): State
    decreases |acts|
  {
    if acts == [] then s else Run(c, Step(c, s, acts[0]), acts[1..])
  }

  ghost predicate RunDisciplined(c: Catalog, s: State, acts: seq<Action>)
    decreases |acts|
  {
    acts != [] ==>
      && (acts[0].Client? ==> Disciplined(c, s, acts[0].act))
      && RunDisciplined(c, Step(c, s, acts[0]), acts[1..])
  }

  /** One action keeps the invariant exactly when it is disciplined. */
  lemma ClientStepKeeps(c: Catalog, s: State, a: ClientAction)
    requires Inv(s)
    ensures Inv(ClientStep(c, s, a)) <==> Disciplined(c, s, a)
  {
    hide Inv, AttachTakes, ClaimsShare, TakesShare;
    BoxesInRoom(s);
    match a {
      case Acquire(size) => AcquireKeeps(s, size);
      case Retain(h) => RetainKeepsExactly(s, h);
      case Release(h) => ReleaseKeepsExactly(s, h);
      case InitMsg(e, src) => InitKeeps(c, s, e, src);
      case Attach(k, h) => if k < |s.held| { AttachKeepsExactly(c, s, k, h); }
      case SetBytes(k, bytes) => if k < |s.held| { SetBytesKeeps(c, s, k, bytes); }
      case SetForeign(k, data, size, retainFn, releaseFn, ctx) =>
        if k < |s.held| { SetExternalKeepsExactly(c, s, k, data, size, retainFn, releaseFn, ctx); }
      case Post(b, m, qos) => if b < |s.boxes| { PostKeepsExactly(c, s, b, m, qos); }
      case Dispose(k) => if k < |s.held| { DisposeKeeps(s, k); }
    }
  }

  lemma BoxesInRoom(s: State)
    requires Inv(s)
    ensures forall b :: 0 <= b < |s.boxes| ==> |s.boxes[b].entries| <= Capacity(s.boxes[b].kind)
  {
    forall b | 0 <= b < |s.boxes|
      ensures |s.boxes[b].entries| <= Capacity(s.boxes[b].kind)
    {
      assert s.boxes[b].Valid();
    }
  }

  lemma {:induction false} ClientRunKeeps(c: Catalog, s: State, acts: seq<ClientAction>)
    requires Inv(s) && ClientDisciplined(c, s, acts)
    ensures Inv(ClientRun(c, s, acts))
    decreases |acts|
  {
    if acts != [] {
      ClientStepKeeps(c, s, acts[0]);
      ClientRunKeeps(c, ClientStep(c, s, acts[0]), acts[1..]);
    }
  }

  lemma StepKeeps(c: Catalog, s: State, a: Action)
    requires Inv(s)
    ensures Inv(Step(c, s, a)) <==> (a.Client? ==> Disciplined(c, s, a.act))
  {
    match a {
      case Client(act) => ClientStepKeeps(c, s, act);
      case Take(b) => if b < |s.boxes| && s.boxes[b].entries != [] { TakeKeeps(s, b); }
      case ResetBox(b) => if b < |s.boxes| { ResetKeeps(s, b); }
    }
  }

  /** A pool just initialised, with empty mailboxes. */
  ghost predicate Initial(s: State) {
    && s.pool.slotSize > 0
    && (forall i :: 0 <= i < |s.pool.slots| ==> s.pool.slots[i] == FreshSlot)
    && s.handles == [] && s.held == []
    && forall b :: 0 <= b < |s.boxes| ==> s.boxes[b] == Queue(s.boxes[b].kind, [], ZeroStats, 0)
  }

  lemma {:induction false} EmptyBoxesCount(bs: seq<Queue>, i: nat)
    requires forall b :: 0 <= b < |bs| ==> bs[b].entries == []
    ensures CountBoxes(bs, i) == 0
  {
    if bs != [] {
      EmptyBoxesCount(bs[1..], i);
    }
  }

  lemma InitialInv(s: State)
    requires Initial(s)
    ensures Inv(s)
  {
    forall i: nat
      ensures Owners(s, i) == 0
    {
      EmptyBoxesCount(s.boxes, i);
    }
  }

  /**
   In every reachable state, every slot's count is its number of owners and the
   slot is in use exactly when it has one.
   */
  lemma {:induction false} RefcountsAreOwners(c: Catalog, s: State, acts: seq<Action>)
    requires Inv(s) && RunDisciplined(c, s, acts)
    ensures Inv(Run(c, s, acts))
    ensures
      var t := Run(c, s, acts);
      forall i :: 0 <= i < |t.pool.slots| ==>
                    && t.pool.slots[i].refcount == Owners(t, i)
                    && (t.pool.slots[i].inUse <==> Owners(t, i) > 0)
    decreases |acts|
  {
    if acts == [] {
      assert forall i :: 0 <= i < |s.pool.slots| ==> SlotOk(s.pool, i, Owners(s, i));
    } else {
      StepKeeps(c, s, acts[0]);
      RefcountsAreOwners(c, Step(c, s, acts[0]), acts[1..]);
    }
  }

  /** The invariant holds before a run and after each of its steps. */
  ghost predicate SoundThroughout(c: Catalog, s: State, acts: seq<Action>) {
    forall n :: 0 <= n <= |acts| ==> Inv(Run(c, s, acts[..n]))
  }

  lemma SoundStepwise(c: Catalog, s: State, acts: seq<Action>)
    requires acts != []
    ensures SoundThroughout(c, s, acts) <==> Inv(s) && SoundThroughout(c, Step(c, s, acts[0]), acts[1..])
  {
    hide Inv, Step;
    var t := Step(c, s, acts[0]);
    forall n | 0 < n <= |acts|
      ensures Run(c, s, acts[..n]) == Run(c, t, acts[1..][..n - 1])
    {
      assert acts[..n][1..] == acts[1..][..n - 1];
    }
    assert Run(c, s, acts[..0]) == s;
    if SoundThroughout(c, s, acts) {
      forall n | 0 <= n <= |acts[1..]|
        ensures Inv(Run(c, t, acts[1..][..n]))
      {
        assert Inv(Run(c, s, acts[..n + 1]));
      }
    }
  }

  /**
   The discipline is exactly what the books need: the invariant holds after every step
   of a run if and only if every client action of the run is disciplined.
   */
  lemma {:induction false} DisciplineIsExact(c: Catalog, s: State, acts: seq<Action>)
    requires Inv(s)
    ensures RunDisciplined(c, s, acts) <==> SoundThroughout(c, s, acts)
    decreases |acts|
  {
    hide Inv, Step, Disciplined;
    if acts == [] {
      assert acts[..0] == [];
    } else {
      StepKeeps(c, s, acts[0]);
      SoundStepwise(c, s, acts);
      if Inv(Step(c, s, acts[0])) {
        DisciplineIsExact(c, Step(c, s, acts[0]), acts[1..]);
      } else {
        UnsoundStart(c, Step(c, s, acts[0]), acts[1..]);
      }
    }
  }

  lemma UnsoundStart(c: Catalog, s: State, acts: seq<Action>)
    requires !Inv(s)
    ensures !SoundThroughout(c, s, acts)
  {
    hide Inv;
    assert acts[..0] == [] && Run(c, s, acts[..0]) == s;
  }

  /** An owned slot is never handed out again: acquiring skips it. */
  lemma OwnedSlotsAreNotReused(s: State, size: nat)
    requires Inv(s)
    ensures
      var o := AcquireLease(s.pool, size);
      o.rc == Ok ==> o.handle.Some? && o.handle.value.slot.Some? && Owners(s, o.handle.value.slot.value) == 0
  {
    var i := FirstFree(s.pool.slots, 0);
    if i < |s.pool.slots| {
      assert SlotOk(s.pool, i, Owners(s, i));
    }
  }

  /** Disposing twice, at any later time, releases once. */
  lemma DisposeTwice(p: Pool, later: Pool, m: Msg)
    ensures DisposeMsg(later, DisposeMsg(p, m).1) == (later, DisposeMsg(p, m).1)
  {
  }

  // ----- what the scheduler relies on -----

  /** Client code never takes mail out of a mailbox. */
  ghost predicate NothingDrained(s: State, t: State) {
    && |t.boxes| == |s.boxes|
    && forall b :: 0 <= b < |s.boxes| ==>
                     && t.boxes[b].kind == s.boxes[b].kind
                     && |s.boxes[b].entries| <= |t.boxes[b].entries|
                     && t.boxes[b].stats.popped == s.boxes[b].stats.popped
  }

  lemma ClientStepDrainsNothing(c: Catalog, s: State, a: ClientAction)
    requires BoxesValid(s)
    ensures BoxesValid(ClientStep(c, s, a)) && NothingDrained(s, ClientStep(c, s, a))
    ensures |s.held| <= |ClientStep(c, s, a).held|
  {
    if a.Post? && a.box < |s.boxes| {
      PushKeepsQueueValid(c, s.pool, s.boxes[a.box], a.envelope, a.qos);
    }
  }

  lemma {:induction false} ClientRunDrainsNothing(c: Catalog, s: State, acts: seq<ClientAction>)
    requires BoxesValid(s)
    ensures BoxesValid(ClientRun(c, s, acts)) && NothingDrained(s, ClientRun(c, s, acts))
    ensures |s.held| <= |ClientRun(c, s, acts).held|
    decreases |acts|
  {
    if acts != [] {
      ClientStepDrainsNothing(c, s, acts[0]);
      ClientRunDrainsNothing(c, ClientStep(c, s, acts[0]), acts[1..]);
    }
  }
}
