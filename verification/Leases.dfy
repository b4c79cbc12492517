/**
 The lease pool (`core/src/ev_lease_pool.c`) and the message operations that move
 ownership shares through it (`core/src/ev_msg.c`, `core/src/ev_dispose.c`).

 The functions over the value `Pool` say what each operation does to the slot
 table; class `LeasePool` is the table itself, updated in place.
 */
module Leases {
  import opened Results
  import opened Messages
  import opened Bits

  datatype Slot = Slot(generation: nat, refcount: nat, payloadSize: nat, inUse: bool)

  datatype PoolStats = PoolStats(
    acquires: nat, failedAcquires: nat, retains: nat, releases: nat, staleHandles: nat,
    inUse: nat, highWatermark: nat)

  datatype Pool = Pool(slots: seq<Slot>, slotSize: nat, stats: PoolStats)

  datatype Handle = Handle(slot: Option<nat>, generation: nat)

  const NoStats: PoolStats := PoolStats(0, 0, 0, 0, 0, 0, 0)
  const FreshSlot: Slot := Slot(0, 0, 0, false)

  function Inc32(x: nat): nat { (x + 1) % WORD }
  function Dec32(x: nat): nat { (x + WORD - 1) % WORD }

  /** 32-bit generation counter that skips zero. */
  function NextGeneration(g: nat): (r: nat)
    ensures r != 0
  {
    if Inc32(g) == 0 then 1 else Inc32(g)
  }

  predicate MetadataValid(p: Pool, i: nat) {
    i < |p.slots| && p.slotSize > 0 && !(p.slots[i].inUse && p.slots[i].payloadSize > p.slotSize)
  }

  predicate Live(p: Pool, h: Handle) {
    && h.slot.Some?
    && MetadataValid(p, h.slot.value)
    && var s := p.slots[h.slot.value];
    && s.inUse && s.generation == h.generation && s.refcount > 0
  }

  function CountStale(p: Pool, known: bool): Pool {
    if known then p.(stats := p.stats.(staleHandles := p.stats.staleHandles + 1)) else p
  }

  function Retained(p: Pool, i: nat): Pool
    requires i < |p.slots|
  {
    p.(slots := p.slots[i := p.slots[i].(refcount := Inc32(p.slots[i].refcount))],
       stats := p.stats.(retains := p.stats.retains + 1))
  }

  function ReleasedSlot(s: Slot): Slot {
    if Dec32(s.refcount) == 0
    then s.(refcount := 0, payloadSize := 0, inUse := false)
    else s.(refcount := Dec32(s.refcount))
  }

  function Released(p: Pool, i: nat): Pool
    requires i < |p.slots|
  {
    p.(slots := p.slots[i := ReleasedSlot(p.slots[i])],
       stats := p.stats.(releases := p.stats.releases + 1,
                         inUse := if Dec32(p.slots[i].refcount) == 0 then Dec32(p.stats.inUse) else p.stats.inUse))
  }

  function RetainHandle(p: Pool, h: Handle): (Pool, Result) {
    if Live(p, h) then (Retained(p, h.slot.value), Ok) else (CountStale(p, h.slot.Some?), ErrState)
  }

  function ReleaseHandle(p: Pool, h: Handle): (Pool, Result) {
    if Live(p, h) then (Released(p, h.slot.value), Ok) else (CountStale(p, h.slot.Some?), ErrState)
  }

  /** Does an external payload name slot `ctx` the way the slot currently is? */
  predicate Matches(p: Pool, ctx: Option<nat>, data: Pointer, size: nat) {
    && ctx.Some? && MetadataValid(p, ctx.value) && p.slots[ctx.value].inUse
    && data == SlotData(ctx.value) && p.slots[ctx.value].payloadSize == size
  }

  function RetainFromSlot(p: Pool, ctx: Option<nat>, data: Pointer, size: nat): (Pool, Result) {
    if Matches(p, ctx, data, size)
    then RetainHandle(p, Handle(ctx, p.slots[ctx.value].generation))
    else (CountStale(p, ctx.Some?), ErrState)
  }

  function ReleaseFromSlot(p: Pool, ctx: Option<nat>, data: Pointer, size: nat): Pool {
    if Matches(p, ctx, data, size)
    then ReleaseHandle(p, Handle(ctx, p.slots[ctx.value].generation)).0
    else CountStale(p, ctx.Some?)
  }

  /** The first slot not in use, or the slot count. */
  function FirstFree(slots: seq<Slot>, from: nat): (i: nat)
    requires from <= |slots|
    ensures from <= i <= |slots|
    ensures i < |slots| ==> !slots[i].inUse
    ensures forall j :: from <= j < i ==> slots[j].inUse
    decreases |slots| - from
  {
    if from == |slots| || !slots[from].inUse then from else FirstFree(slots, from + 1)
  }

  function AcquiredSlot(s: Slot, size: nat): Slot {
    Slot(NextGeneration(s.generation), 1, size, true)
  }

  function AcquiredStats(st: PoolStats): PoolStats {
    var n := Inc32(st.inUse);
    st.(acquires := st.acquires + 1, inUse := n, highWatermark := Max(n, st.highWatermark))
  }

  datatype AcquireOutcome = AcquireOutcome(pool: Pool, handle: Option<Handle>, rc: Result)

  function AcquireLease(p: Pool, size: nat): AcquireOutcome {
    if size > p.slotSize then AcquireOutcome(p, None, ErrOutOfRange)
    else
      var i := FirstFree(p.slots, 0);
      if i == |p.slots|
      then AcquireOutcome(p.(stats := p.stats.(failedAcquires := p.stats.failedAcquires + 1)), None, ErrFull)
      else
        var s := AcquiredSlot(p.slots[i], size);
        AcquireOutcome(Pool(p.slots[i := s], p.slotSize, AcquiredStats(p.stats)), Some(Handle(Some(i), s.generation)),
                       Ok)
  }

  // ----- message operations -----

  function ReleasePayload(p: Pool, m: Msg): Pool {
    if HasExternal(m) && m.payload.releaseFn.SlotFn?
    then ReleaseFromSlot(p, m.payload.ctx, m.payload.data, m.payloadSize)
    else p
  }

  function DisposeMsg(p: Pool, m: Msg): (Pool, Msg) {
    if !m.cookie then (p, Blank.(disposed := true))
    else if m.disposed then (p, m)
    else (ReleasePayload(p, m), m.(payload := NoPayload, payloadSize := 0, disposed := true))
  }

  function MsgRetain(c: Catalog, p: Pool, m: Msg): (Pool, Result) {
    if !m.cookie then (p, ErrState)
    else if !c.EventValid(m.eventId) then (p, ErrOutOfRange)
    else if !HasExternal(m) then (p, Ok)
    else match c.events[m.eventId]
      case KindLease =>
        if m.payload.retainFn.NullFn? then (p, ErrUnsupported)
        else RetainFromSlot(p, m.payload.ctx, m.payload.data, m.payloadSize)
      case KindStreamView => (p, ErrUnsupported)
      case KindInline => (p, ErrContract)
      case KindCopyFixed => (p, ErrContract)
  }

  datatype MsgOutcome = MsgOutcome(pool: Pool, msg: Msg, rc: Result)

  function SetInline(c: Catalog, p: Pool, m: Msg, bytes: seq<Byte>): MsgOutcome {
    if !m.cookie || m.disposed then MsgOutcome(p, m, ErrState)
    else if |bytes| > INLINE_CAPACITY then MsgOutcome(p, m, ErrOutOfRange)
    else if !c.EventValid(m.eventId) then MsgOutcome(p, m, ErrOutOfRange)
    else if !c.events[m.eventId].KindInline? && !c.events[m.eventId].KindCopyFixed? then MsgOutcome(p, m, ErrContract)
    else MsgOutcome(ReleasePayload(p, m),
                    m.(payload := if bytes == [] then NoPayload else InlinePayload(bytes), payloadSize := |bytes|), Ok)
  }

  function SetExternal(c: Catalog, p: Pool, m: Msg, data: Pointer, size: nat,
                       retainFn: Callback, releaseFn: Callback, ctx: Option<nat>): MsgOutcome
  {
    if !m.cookie || m.disposed then MsgOutcome(p, m, ErrState)
    else if size > 0 && data.Null? then MsgOutcome(p, m, ErrInvalidArg)
    else if !c.EventValid(m.eventId) then MsgOutcome(p, m, ErrOutOfRange)
    else
      var kind := c.events[m.eventId];
      if !kind.KindLease? && !kind.KindStreamView? then MsgOutcome(p, m, ErrContract)
      else if kind.KindLease? && size > 0 && (retainFn.NullFn? || releaseFn.NullFn?) then MsgOutcome(p, m, ErrContract)
      else if kind.KindStreamView? && (retainFn.SlotFn? || releaseFn.SlotFn? || ctx.Some?)
          then MsgOutcome(p, m, ErrContract)
      else MsgOutcome(ReleasePayload(p, m),
                      m.(payload := if size > 0 then ExternalPayload(data, size, retainFn, releaseFn, ctx)
                         else NoPayload,
                         payloadSize := size), Ok)
  }

  /** Attach a lease to a message: take a share first, give it back if the message refuses it. */
  function AttachLease(c: Catalog, p: Pool, m: Msg, h: Handle): MsgOutcome {
    if !Live(p, h) then MsgOutcome(CountStale(p, h.slot.Some?), m, ErrState)
    else
      var i := h.slot.value;
      var size := p.slots[i].payloadSize;
      if size == 0 then SetExternal(c, p, m, Null, 0, NullFn, NullFn, h.slot)
      else
        var o := SetExternal(c, Retained(p, i), m, SlotData(i), size, SlotFn, SlotFn, h.slot);
        if o.rc == Ok then o else MsgOutcome(ReleaseHandle(o.pool, h).0, o.msg, o.rc)
  }

  // ----- laws of the pool -----

  /**
   A lease is granted exactly when the size fits and a slot is free: the first free slot,
   under a generation it did not have, with one share.  A refusal changes no slot.
   */
  lemma AcquireIsExact(p: Pool, size: nat)
    ensures
      var o := AcquireLease(p, size);
      && (o.rc == Ok <==> size <= p.slotSize && exists i :: 0 <= i < |p.slots| && !p.slots[i].inUse)
      && (o.rc != Ok ==>
            && o.rc == (if size > p.slotSize then ErrOutOfRange else ErrFull)
            && o.handle == None && o.pool.slots == p.slots
            && o.pool.stats == p.stats.(failedAcquires := p.stats.failedAcquires + if o.rc == ErrFull then 1 else 0))
      && (o.rc == Ok ==> exists i: nat, g: nat ::
            && o.handle == Some(Handle(Some(i), g)) && i < |p.slots| && !p.slots[i].inUse
            && (forall j :: 0 <= j < i ==> p.slots[j].inUse)
            && g != p.slots[i].generation && g != 0
            && (p.slots[i].generation < WORD - 1 ==> g == p.slots[i].generation + 1)
            && o.pool.slots == p.slots[i := Slot(g, 1, size, true)]
            && o.pool.stats.acquires == p.stats.acquires + 1)
  {
    var o := AcquireLease(p, size);
    if o.rc == Ok {
      var i := FirstFree(p.slots, 0);
      assert o.handle == Some(Handle(Some(i), NextGeneration(p.slots[i].generation)));
    }
  }

  /** The handle of a new lease is live, no handle before it was, and all that were live still are. */
  lemma AcquiredIsLive(p: Pool, size: nat, h: Handle)
    requires AcquireLease(p, size).rc == Ok && p.slotSize > 0
    ensures
      var o := AcquireLease(p, size);
      && o.handle.Some? && Live(o.pool, o.handle.value) && !Live(p, o.handle.value)
      && (Live(o.pool, h) <==> Live(p, h) || h == o.handle.value)
  {
  }

  /** A retain and a release that both find the handle live undo each other. */
  lemma ReleaseUndoesRetain(p: Pool, h: Handle)
    requires Live(p, h) && p.slots[h.slot.value].refcount < WORD - 1
    ensures
      var r := RetainHandle(p, h);
      && r.1 == Ok && Live(r.0, h) && ReleaseHandle(r.0, h).1 == Ok
      && ReleaseHandle(r.0, h).0.slots == p.slots
      && RetainHandle(p, h).0.slots[h.slot.value].refcount == p.slots[h.slot.value].refcount + 1
  {
    var r := RetainHandle(p, h).0;
    assert ReleasedSlot(r.slots[h.slot.value]) == p.slots[h.slot.value];
  }

  /** A release takes one share; the last one frees the slot and kills every handle to it. */
  lemma LastReleaseFrees(p: Pool, h: Handle, k: Handle)
    requires Live(p, h) && p.slots[h.slot.value].refcount < WORD
    ensures
      var i := h.slot.value;
      var r := ReleaseHandle(p, h);
      && r.1 == Ok && |r.0.slots| == |p.slots|
      && (forall j :: 0 <= j < |p.slots| && j != i ==> r.0.slots[j] == p.slots[j])
      && (p.slots[i].refcount > 1 ==> Live(r.0, h) && r.0.slots[i].refcount == p.slots[i].refcount - 1)
      && (p.slots[i].refcount == 1 ==> !r.0.slots[i].inUse && (k.slot == Some(i) ==> !Live(r.0, k)))
  {
  }

  /** A dead handle changes no slot and no message: it is only counted, if it names a slot at all. */
  lemma DeadHandleChangesNothing(c: Catalog, p: Pool, m: Msg, h: Handle)
    requires !Live(p, h)
    ensures
      var counted := p.(stats := p.stats.(staleHandles := p.stats.staleHandles + if h.slot.Some? then 1 else 0));
      && RetainHandle(p, h) == (counted, ErrState) && ReleaseHandle(p, h) == (counted, ErrState)
      && AttachLease(c, p, m, h) == MsgOutcome(counted, m, ErrState)
  {
  }

  /**
   A live lease is attached exactly to an undisposed message of a known lease event.  The
   message then names the slot with the lease's size, or carries nothing for an empty lease;
   refused, message and slots are as they were.
   */
  lemma AttachIsExact(c: Catalog, p: Pool, m: Msg, h: Handle)
    requires Live(p, h) && p.slots[h.slot.value].refcount < WORD - 1
    ensures
      var i := h.slot.value;
      var size := p.slots[i].payloadSize;
      var o := AttachLease(c, p, m, h);
      && (o.rc == Ok <==> m.cookie && !m.disposed && c.EventValid(m.eventId) && c.events[m.eventId].KindLease?)
      && (o.rc != Ok ==> o.msg == m && o.pool.slots == p.slots)
      && (o.rc == Ok ==>
            && o.msg == m.(payloadSize := size,
                           payload := if size == 0 then NoPayload
                           else ExternalPayload(SlotData(i), size, SlotFn, SlotFn, Some(i)))
            && o.pool == ReleasePayload(if size == 0 then p else RetainHandle(p, h).0, m))
  {
    ReleaseUndoesRetain(p, h);
  }

  // ----- what a valid message is -----

  /** An envelope before it carries anything. */
  function Bare(m: Msg): Msg {
    m.(payload := NoPayload, payloadSize := 0)
  }

  /** `m` is what a setter makes of its bare envelope. */
  ghost predicate Built(c: Catalog, p: Pool, m: Msg) {
    || (exists bytes :: SetInline(c, p, Bare(m), bytes) == MsgOutcome(p, m, Ok))
    || (exists data, size, retainFn, releaseFn, ctx ::
          SetExternal(c, p, Bare(m), data, size, retainFn, releaseFn, ctx) == MsgOutcome(p, m, Ok))
  }

  /**
   The validator accepts exactly the messages the setters build: an undisposed envelope with
   known event, source and target, carrying what a successful setter put there.
   */
  lemma ValidIsBuilt(c: Catalog, p: Pool, m: Msg)
    requires m.payload.InlinePayload? ==> |m.payload.bytes| == m.payloadSize
    ensures Validate(c, m) == Ok <==>
            && m.cookie && !m.disposed && c.EventValid(m.eventId) && c.ActorValid(m.source)
            && (m.target == None || c.ActorValid(m.target.value))
            && Built(c, p, m)
  {
    if Validate(c, m) == Ok {
      ValidMessageIsBuilt(c, p, m);
    }
  }

  lemma ValidMessageIsBuilt(c: Catalog, p: Pool, m: Msg)
    requires m.payload.InlinePayload? ==> |m.payload.bytes| == m.payloadSize
    requires Validate(c, m) == Ok
    ensures Built(c, p, m)
  {
    match m.payload
    case InlinePayload(bytes) => assert SetInline(c, p, Bare(m), bytes) == MsgOutcome(p, m, Ok);
    case ExternalPayload(data, size, retainFn, releaseFn, ctx) =>
      assert SetExternal(c, p, Bare(m), data, size, retainFn, releaseFn, ctx) == MsgOutcome(p, m, Ok);
    case NoPayload =>
      if c.events[m.eventId].KindInline? || c.events[m.eventId].KindCopyFixed? {
        assert SetInline(c, p, Bare(m), []) == MsgOutcome(p, m, Ok);
      } else {
        assert SetExternal(c, p, Bare(m), Null, 0, NullFn, NullFn, None) == MsgOutcome(p, m, Ok);
      }
  }

  /** The slot table, updated in place. */
  class LeasePool {
    const slots: array<Slot>
    const slotSize: nat
    var stats: PoolStats

    ghost function Model(): Pool
      reads this, slots
    {
      Pool(slots[..], slotSize, stats)
    }

    constructor (slotCount: nat, slotSize: nat)
      ensures fresh(slots)
      ensures Model() == Pool(seq(slotCount, _ => FreshSlot), slotSize, NoStats)
    {
      slots := new Slot[slotCount](_ => FreshSlot);
      this.slotSize := slotSize;
      stats := NoStats;
    }

    /** Initialisation refuses a pool without slots or without room in a slot. */
    static method Init(slotCount: nat, slotSize: nat) returns (rc: Result, pool: LeasePool?)
      ensures rc == (if slotCount == 0 || slotSize == 0 then ErrOutOfRange else Ok)
      ensures rc != Ok ==> pool == null
      ensures rc == Ok ==>
                && pool != null && fresh(pool) && fresh(pool.slots)
                && pool.Model() == Pool(seq(slotCount, _ => FreshSlot), slotSize, NoStats)
    {
      if slotCount == 0 || slotSize == 0 {
        return ErrOutOfRange, null;
      }
      var p := new LeasePool(slotCount, slotSize);
      return Ok, p;
    }

    method CountStaleHandle(known: bool)
      modifies this
      ensures Model() == CountStale(old(Model()), known)
    {
      if known {
        stats := stats.(staleHandles := stats.staleHandles + 1);
      }
    }

    method IsLive(h: Handle) returns (live: bool)
      ensures live == Live(Model(), h)
    {
      live := h.slot.Some? && h.slot.value < slots.Length && slotSize > 0;
      if live {
        var s := slots[h.slot.value];
        live := s.inUse && s.payloadSize <= slotSize && s.generation == h.generation && s.refcount > 0;
      }
    }

    method Acquire(size: nat) returns (rc: Result, handle: Option<Handle>)
      modifies this, slots
      ensures AcquireOutcome(Model(), handle, rc) == AcquireLease(old(Model()), size)
    {
      if size > slotSize {
        return ErrOutOfRange, None;
      }
      var i := 0;
      while i < slots.Length && slots[i].inUse
        invariant 0 <= i <= slots.Length
        invariant FirstFree(slots[..], 0) == FirstFree(slots[..], i)
        invariant Model() == old(Model())
      {
        i := i + 1;
      }
      if i == slots.Length {
        stats := stats.(failedAcquires := stats.failedAcquires + 1);
        return ErrFull, None;
      }
      slots[i] := AcquiredSlot(slots[i], size);
      stats := AcquiredStats(stats);
      return Ok, Some(Handle(Some(i), slots[i].generation));
    }

    method Retain(h: Handle) returns (rc: Result)
      modifies this, slots
      ensures (Model(), rc) == RetainHandle(old(Model()), h)
    {
      var live := IsLive(h);
      if !live {
        CountStaleHandle(h.slot.Some?);
        return ErrState;
      }
      var i := h.slot.value;
      slots[i] := slots[i].(refcount := Inc32(slots[i].refcount));
      stats := stats.(retains := stats.retains + 1);
      return Ok;
    }

    method Release(h: Handle) returns (rc: Result)
      modifies this, slots
      ensures (Model(), rc) == ReleaseHandle(old(Model()), h)
    {
      var live := IsLive(h);
      if !live {
        CountStaleHandle(h.slot.Some?);
        return ErrState;
      }
      var i := h.slot.value;
      slots[i] := slots[i].(refcount := Dec32(slots[i].refcount));
      stats := stats.(releases := stats.releases + 1);
      if slots[i].refcount == 0 {
        slots[i] := slots[i].(payloadSize := 0, inUse := false);
        stats := stats.(inUse := Dec32(stats.inUse));
      }
      assert slots[..] == old(slots[..])[i := ReleasedSlot(old(slots[i]))];
      return Ok;
    }

    method SlotMatches(ctx: Option<nat>, data: Pointer, size: nat) returns (b: bool)
      ensures b == Matches(Model(), ctx, data, size)
    {
      b := ctx.Some? && ctx.value < slots.Length && slotSize > 0;
      if b {
        var s := slots[ctx.value];
        b := s.inUse && s.payloadSize <= slotSize && data == SlotData(ctx.value) && s.payloadSize == size;
      }
    }

    /** The retain callback a lease-backed message carries. */
    method RetainSlot(ctx: Option<nat>, data: Pointer, size: nat) returns (rc: Result)
      modifies this, slots
      ensures (Model(), rc) == RetainFromSlot(old(Model()), ctx, data, size)
    {
      var b := SlotMatches(ctx, data, size);
      if !b {
        CountStaleHandle(ctx.Some?);
        return ErrState;
      }
      rc := Retain(Handle(ctx, slots[ctx.value].generation));
    }

    /** The release callback a lease-backed message carries. */
    method ReleaseSlot(ctx: Option<nat>, data: Pointer, size: nat)
      modifies this, slots
      ensures Model() == ReleaseFromSlot(old(Model()), ctx, data, size)
    {
      var b := SlotMatches(ctx, data, size);
      if !b {
        CountStaleHandle(ctx.Some?);
        return;
      }
      var _ := Release(Handle(ctx, slots[ctx.value].generation));
    }

    method ReleaseAttached(m: Msg)
      modifies this, slots
      ensures Model() == ReleasePayload(old(Model()), m)
    {
      if HasExternal(m) && m.payload.releaseFn.SlotFn? {
        ReleaseSlot(m.payload.ctx, m.payload.data, m.payloadSize);
      }
    }

    /** Dispose is idempotent: the flag it leaves behind stops a second release. */
    method Dispose(m: Msg) returns (d: Msg)
      modifies this, slots
      ensures (Model(), d) == DisposeMsg(old(Model()), m)
    {
      if !m.cookie {
        return Blank.(disposed := true);
      }
      if m.disposed {
        return m;
      }
      ReleaseAttached(m);
      return m.(payload := NoPayload, payloadSize := 0, disposed := true);
    }

    method RetainMsg(c: Catalog, m: Msg) returns (rc: Result)
      modifies this, slots
      ensures (Model(), rc) == MsgRetain(c, old(Model()), m)
    {
      if !m.cookie {
        return ErrState;
      }
      if !c.EventValid(m.eventId) {
        return ErrOutOfRange;
      }
      if !HasExternal(m) {
        return Ok;
      }
      match c.events[m.eventId] {
        case KindLease =>
          if m.payload.retainFn.NullFn? {
            return ErrUnsupported;
          }
          rc := RetainSlot(m.payload.ctx, m.payload.data, m.payloadSize);
        case KindStreamView => return ErrUnsupported;
        case KindInline => return ErrContract;
        case KindCopyFixed => return ErrContract;
      }
    }

    method SetInlinePayload(c: Catalog, m: Msg, bytes: seq<Byte>) returns (rc: Result, d: Msg)
      modifies this, slots
      ensures MsgOutcome(Model(), d, rc) == SetInline(c, old(Model()), m, bytes)
    {
      if !m.cookie || m.disposed {
        return ErrState, m;
      }
      if |bytes| > INLINE_CAPACITY || !c.EventValid(m.eventId) {
        return ErrOutOfRange, m;
      }
      if !c.events[m.eventId].KindInline? && !c.events[m.eventId].KindCopyFixed? {
        return ErrContract, m;
      }
      ReleaseAttached(m);
      return Ok, m.(payload := if bytes == [] then NoPayload else InlinePayload(bytes), payloadSize := |bytes|);
    }

    method SetExternalPayload(c: Catalog, m: Msg, data: Pointer, size: nat,
                              retainFn: Callback, releaseFn: Callback, ctx: Option<nat>)
      returns (rc: Result, d: Msg)
      modifies this, slots
      ensures MsgOutcome(Model(), d, rc) == SetExternal(c, old(Model()), m, data, size, retainFn, releaseFn, ctx)
    {
      if !m.cookie || m.disposed {
        return ErrState, m;
      }
      if size > 0 && data.Null? {
        return ErrInvalidArg, m;
      }
      if !c.EventValid(m.eventId) {
        return ErrOutOfRange, m;
      }
      match c.events[m.eventId] {
        case KindLease =>
          if size > 0 && (retainFn.NullFn? || releaseFn.NullFn?) {
            return ErrContract, m;
          }
        case KindStreamView =>
          if retainFn.SlotFn? || releaseFn.SlotFn? || ctx.Some? {
            return ErrContract, m;
          }
        case KindInline => return ErrContract, m;
        case KindCopyFixed => return ErrContract, m;
      }
      ReleaseAttached(m);
      return Ok, m.(payload := if size > 0 then ExternalPayload(data, size, retainFn, releaseFn, ctx) else NoPayload,
                    payloadSize := size);
    }

    method Attach(c: Catalog, m: Msg, h: Handle) returns (rc: Result, d: Msg)
      modifies this, slots
      ensures MsgOutcome(Model(), d, rc) == AttachLease(c, old(Model()), m, h)
    {
      var live := IsLive(h);
      if !live {
        CountStaleHandle(h.slot.Some?);
        return ErrState, m;
      }
      var size := slots[h.slot.value].payloadSize;
      if size == 0 {
        rc, d := SetExternalPayload(c, m, Null, 0, NullFn, NullFn, h.slot);
        return;
      }
      rc := Retain(h);
      rc, d := SetExternalPayload(c, m, SlotData(h.slot.value), size, SlotFn, SlotFn, h.slot);
      if rc != Ok {
        var _ := Release(h);
      }
    }
  }
}
