/**
 Runtime envelopes (`core/src/ev_msg.c`).  An envelope is a value: mailboxes copy
 it in and out.  What it owns, if anything, is named by its external payload.
 */
module Messages {
  import opened Results
  import opened Bits

  const INLINE_CAPACITY: nat := 24

  datatype PayloadKind = KindInline | KindCopyFixed | KindLease | KindStreamView

  /** The event and actor catalogs the framework is configured with. */
  datatype Catalog = Catalog(events: seq<PayloadKind>, actorCount: nat) {
    predicate EventValid(e: nat) { e < |events| }
    predicate ActorValid(a: nat) { a < actorCount }
  }

  /** Where payload bytes live: in a lease slot, or in memory the pool does not own. */
  datatype Pointer = Null | SlotData(slot: nat) | ForeignData(id: nat)

  /** A lifecycle callback is absent or is the lease pool's own retain/release. */
  datatype Callback = NullFn | SlotFn

  datatype Payload =
    | NoPayload
    | InlinePayload(bytes: seq<Byte>)
    | ExternalPayload(data: Pointer, size: nat, retainFn: Callback, releaseFn: Callback, ctx: Option<nat>)

  datatype Msg = Msg(
    cookie: bool,
    eventId: nat,
    source: nat,
    target: Option<nat>,
    disposed: bool,
    payload: Payload,
    payloadSize: nat)

  /** A reset envelope. */
  const Blank: Msg := Msg(true, 0, 0, Some(0), false, NoPayload, 0)

  /** Zeroed storage: not even the cookie is set. */
  const Zeroed: Msg := Blank.(cookie := false)

  predicate HasExternal(m: Msg) {
    m.payload.ExternalPayload? && m.payloadSize > 0
  }

  function InitPublish(c: Catalog, m: Msg, event: nat, source: nat): (r: (Msg, Result))
    ensures r.1 == Ok ==> Validate(c, r.0) == Ok && !HasExternal(r.0)
    ensures r.1 != Ok ==> r.0 == m
  {
    if !c.EventValid(event) || !c.ActorValid(source) then (m, ErrOutOfRange)
    else (Blank.(eventId := event, source := source, target := None), Ok)
  }

  function Validate(c: Catalog, m: Msg): Result
  {
    if !m.cookie || m.disposed then ErrState
    else if !c.EventValid(m.eventId) || !c.ActorValid(m.source) then ErrOutOfRange
    else if m.target.Some? && !c.ActorValid(m.target.value) then ErrOutOfRange
    else if m.payload.NoPayload? && m.payloadSize != 0 then ErrContract
    else if !m.payload.NoPayload? && m.payloadSize == 0 then ErrContract
    else match c.events[m.eventId]
      case KindInline => ValidateInline(m)
      case KindCopyFixed => ValidateInline(m)
      case KindLease =>
        if m.payload.InlinePayload? then ErrContract
        else if m.payload.ExternalPayload? && (m.payload.data.Null? || m.payload.size != m.payloadSize ||
                                               m.payload.retainFn.NullFn? || m.payload.releaseFn.NullFn?)
    then ErrContract
        else Ok
      case KindStreamView =>
        if m.payload.InlinePayload? then ErrContract
        else if m.payload.ExternalPayload? && (m.payload.retainFn.SlotFn? || m.payload.releaseFn.SlotFn? ||
                                               m.payload.ctx.Some?) then ErrContract
        else if m.payload.ExternalPayload? && (m.payload.data.Null? || m.payload.size != m.payloadSize) then ErrContract
        else Ok
  }

  function ValidateInline(m: Msg): Result {
    if m.payload.ExternalPayload? then ErrContract
    else if m.payloadSize > INLINE_CAPACITY then ErrOutOfRange
    else Ok
  }
}
