/**
 Routes and the table that indexes them by event
 (`runtime/src/ev_active_route_table.c`), and how a graph binds them
 (`runtime/src/ev_runtime_graph.c`).
 */
module Routes {
  import opened Results
  import opened Mailboxes
  import opened QosContract

  const TABLE_CAPACITY: nat := 96

  datatype Route = Route(event: nat, target: nat, qos: Option<Qos>)

  datatype RouteState =
    | Enabled
    | OptionalDisabled
    | RejectedInvalidEvent
    | RejectedInvalidActor
    | RejectedMissingMandatoryActor
    | RejectedQosConflict
    | RejectedOverflow

  datatype Entry = Entry(route: Route, state: RouteState, reason: Result)

  datatype Span = Span(start: nat, count: nat)

  predicate IsRejected(s: RouteState) {
    s != Enabled && s != OptionalDisabled
  }

  const REJECTIONS: set<RouteState> :=
    {RejectedInvalidEvent, RejectedInvalidActor, RejectedMissingMandatoryActor, RejectedQosConflict, RejectedOverflow}

  /** How many entries are in one of the states. */
  function CountIn(es: seq<Entry>, states: set<RouteState>): (n: nat)
    ensures n <= |es|
  {
    if es == [] then 0 else (if es[0].state in states then 1 else 0) + CountIn(es[1..], states)
  }

  lemma {:induction false} CountInAppend(es: seq<Entry>, e: Entry, states: set<RouteState>)
    ensures CountIn(es + [e], states) == CountIn(es, states) + if e.state in states then 1 else 0
  {
    if es == [] {
      assert (es + [e])[1..] == [];
    } else {
      assert (es + [e])[1..] == es[1..] + [e];
      CountInAppend(es[1..], e, states);
    }
  }

  /** The three counts of a table are a partition of its entries. */
  lemma {:induction false} CountsPartition(es: seq<Entry>)
    ensures CountIn(es, {Enabled}) + CountIn(es, {OptionalDisabled}) + CountIn(es, REJECTIONS) == |es|
  {
    if es != [] {
      assert es[0].state in REJECTIONS <==> IsRejected(es[0].state);
      CountsPartition(es[1..]);
    }
  }

  // ----- what a table of entries is worth -----

  ghost predicate EventsValid(es: seq<Entry>, n: nat, events: nat)
    requires n <= |es|
  {
    forall i :: 0 <= i < n ==> es[i].route.event < events
  }

  /** The entries of each event stand together. */
  ghost predicate Grouped(es: seq<Entry>, n: nat)
    requires n <= |es|
  {
    forall i, j, k :: 0 <= i < j < k < n && es[i].route.event == es[k].route.event ==>
        es[j].route.event == es[i].route.event
  }

  /** `s` covers the entries of event `e` among the first `n`, and nothing else. */
  ghost predicate Covers(es: seq<Entry>, n: nat, e: nat, s: Span)
    requires n <= |es|
  {
    && s.start + s.count <= n
    && (forall i :: 0 <= i < n ==> (es[i].route.event == e <==> s.start <= i < s.start + s.count))
    && (s.count == 0 ==> s.start == 0)
  }

  /** The linear scan: entries of event `e`, in table order. */
  function Matching(es: seq<Entry>, e: nat): seq<Entry> {
    if es == [] then []
    else if es[0].route.event == e then [es[0]] + Matching(es[1..], e)
    else Matching(es[1..], e)
  }

  lemma {:induction false} MatchingConcat(a: seq<Entry>, b: seq<Entry>, e: nat)
    ensures Matching(a + b, e) == Matching(a, e) + Matching(b, e)
  {
    if a == [] {
      assert a + b == b;
    } else {
      assert (a + b)[1..] == a[1..] + b;
      MatchingConcat(a[1..], b, e);
    }
  }

  lemma {:induction false} MatchingAll(es: seq<Entry>, e: nat)
    requires forall i :: 0 <= i < |es| ==> es[i].route.event == e
    ensures Matching(es, e) == es
  {
    if es != [] {
      MatchingAll(es[1..], e);
    }
  }

  lemma {:induction false} MatchingNone(es: seq<Entry>, e: nat)
    requires forall i :: 0 <= i < |es| ==> es[i].route.event != e
    ensures Matching(es, e) == []
  {
    if es != [] {
      MatchingNone(es[1..], e);
    }
  }

  /** A covering span is the linear scan. */
  lemma SpanIsScan(es: seq<Entry>, e: nat, s: Span)
    requires Covers(es, |es|, e, s)
    ensures es[s.start..s.start + s.count] == Matching(es, e)
  {
    hide Matching;
    var a, b, c := es[..s.start], es[s.start..s.start + s.count], es[s.start + s.count..];
    MatchingNone(a, e);
    MatchingAll(b, e);
    MatchingNone(c, e);
    hide Covers;
    MatchingConcat(a, b + c, e);
    MatchingConcat(b, c, e);
    assert es == a + (b + c);
    assert Matching(es, e) == [] + (b + []);
  }

  /** Room for entry `i` at the end of its event's span. */
  predicate CanExtend(s: Span, i: nat) {
    s.count == 0 || s.start + s.count == i
  }

  function Extend(s: Span, i: nat): Span {
    if s.count == 0 then Span(i, 1) else Span(s.start, s.count + 1)
  }

  lemma CoversStep(es: seq<Entry>, i: nat, e: nat, s: Span)
    requires i < |es| && Covers(es, i, e, s) && (es[i].route.event == e ==> CanExtend(s, i))
    ensures Covers(es, i + 1, e, if es[i].route.event == e then Extend(s, i) else s)
  {
  }

  lemma NothingClosed(es: seq<Entry>, spans: seq<Span>, closed: seq<bool>)
    requires |closed| == |spans| && forall e :: 0 <= e < |spans| ==> spans[e] == Span(0, 0) && !closed[e]
    ensures Grouped(es, 0) && AllCover(es, 0, spans) && ClosedAre(spans, closed, 0)
  {
  }

  lemma SpanCovers(es: seq<Entry>, i: nat, spans: seq<Span>, e: nat)
    requires i <= |es| && e < |spans| && AllCover(es, i, spans)
    ensures Covers(es, i, e, spans[e])
  {
  }

  lemma AllCovered(es: seq<Entry>, spans: seq<Span>)
    requires AllCover(es, |es|, spans)
    ensures forall e :: 0 <= e < |spans| ==> Covers(es, |es|, e, spans[e])
  {
  }

  /** A span ends where its last entry stands. */
  lemma SpanEnds(es: seq<Entry>, i: nat, e: nat, s: Span)
    requires i <= |es| && Covers(es, i, e, s)
    ensures s.start + s.count <= i
    ensures s.count > 0 && s.start + s.count == i <==> i > 0 && es[i - 1].route.event == e
  {
    if i > 0 && es[i - 1].route.event == e {
      assert s.start <= i - 1 < s.start + s.count;
    }
  }

  lemma GroupedStep(es: seq<Entry>, i: nat, s: Span)
    requires i < |es| && Grouped(es, i) && Covers(es, i, es[i].route.event, s) && CanExtend(s, i)
    ensures Grouped(es, i + 1)
  {
  }

  /** Every event's span covers its entries among the first `i`. */
  ghost predicate AllCover(es: seq<Entry>, i: nat, spans: seq<Span>)
    requires i <= |es|
  {
    forall e :: 0 <= e < |spans| ==> Covers(es, i, e, spans[e])
  }

  /** The closed events are those whose last entry is not the one before entry `i`. */
  ghost predicate ClosedAre(spans: seq<Span>, closed: seq<bool>, i: nat) {
    && |closed| == |spans|
    && forall e :: 0 <= e < |spans| ==> (closed[e] <==> spans[e].count > 0 && spans[e].start + spans[e].count < i)
  }

  /** One more entry extends its event's span and leaves the others. */
  lemma SpansStep(es: seq<Entry>, i: nat, spans: seq<Span>, e: nat)
    requires i < |es| && e == es[i].route.event < |spans| && CanExtend(spans[e], i) && AllCover(es, i, spans)
    ensures AllCover(es, i + 1, spans[e := Extend(spans[e], i)])
  {
    hide Covers;
    forall x | 0 <= x < |spans|
      ensures Covers(es, i + 1, x, if x == e then Extend(spans[x], i) else spans[x])
    {
      CoversStep(es, i, x, spans[x]);
    }
  }

  /** A change of event closes the event before. */
  function Close(es: seq<Entry>, i: nat, closed: seq<bool>): seq<bool>
    requires i < |es|
  {
    if i > 0 && es[i].route.event != es[i - 1].route.event && es[i - 1].route.event < |closed|
    then closed[es[i - 1].route.event := true] else closed
  }

  /** A closed event cannot be extended; extending the event of entry `i` keeps track of the closed ones. */
  lemma ClosedStep(es: seq<Entry>, i: nat, spans: seq<Span>, closed: seq<bool>, e: nat)
    requires i < |es| && e == es[i].route.event < |spans| && AllCover(es, i, spans) && ClosedAre(spans, closed, i)
    ensures Close(es, i, closed)[e] ==> !CanExtend(spans[e], i)
    ensures CanExtend(spans[e], i) ==> ClosedAre(spans[e := Extend(spans[e], i)], Close(es, i, closed), i + 1)
  {
    hide Covers;
    forall x | 0 <= x < |spans|
      ensures spans[x].start + spans[x].count <= i
      ensures spans[x].count > 0 && spans[x].start + spans[x].count == i <==> i > 0 && es[i - 1].route.event == x
    {
      SpanEnds(es, i, x, spans[x]);
    }
  }

  lemma TornApart(es: seq<Entry>, i: nat, s: Span)
    requires i < |es| && Covers(es, i, es[i].route.event, s) && !CanExtend(s, i)
    ensures !Grouped(es, |es|)
  {
    var last, gap := s.start, s.start + s.count;
    assert es[last].route.event == es[i].route.event && es[gap].route.event != es[i].route.event;
  }

  class ActiveRouteTable {
    const events: nat
    const spans: array<Span>
    var entries: seq<Entry>
    var activeCount: nat
    var optionalDisabledCount: nat
    var rejectedCount: nat
    var finalized: bool

    /** Once finalized, every span is exactly its event's entries; the counts always add up. */
    ghost predicate Valid()
      reads this, spans
    {
      && spans.Length == events && |entries| <= TABLE_CAPACITY
      && activeCount == CountIn(entries, {Enabled})
      && optionalDisabledCount == CountIn(entries, {OptionalDisabled})
      && rejectedCount == CountIn(entries, REJECTIONS)
      && (finalized ==>
            && EventsValid(entries, |entries|, events)
            && forall e :: 0 <= e < events ==> Covers(entries, |entries|, e, spans[e]))
    }

    constructor (events: nat)
      ensures Valid() && fresh(spans) && this.events == events && entries == [] && !finalized
    {
      this.events := events;
      spans := new Span[events](_ => Span(0, 0));
      entries, finalized := [], false;
      activeCount, optionalDisabledCount, rejectedCount := 0, 0, 0;
    }

    method Add(route: Route, state: RouteState, reason: Result) returns (rc: Result)
      requires Valid()
      modifies this
      ensures Valid()
      ensures rc == if |old(entries)| < TABLE_CAPACITY then Ok else ErrFull
      ensures entries == if rc == Ok then old(entries) + [Entry(route, state, reason)] else old(entries)
      ensures finalized == (rc != Ok && old(finalized))
    {
      if |entries| >= TABLE_CAPACITY {
        return ErrFull;
      }
      CountInAppend(entries, Entry(route, state, reason), {Enabled});
      CountInAppend(entries, Entry(route, state, reason), {OptionalDisabled});
      CountInAppend(entries, Entry(route, state, reason), REJECTIONS);
      entries := entries + [Entry(route, state, reason)];
      finalized := false;
      match state {
        case Enabled => activeCount := activeCount + 1;
        case OptionalDisabled => optionalDisabledCount := optionalDisabledCount + 1;
        case _ => rejectedCount := rejectedCount + 1;
      }
      return Ok;
    }

    /**
     Build the span of every event, in one walk over the entries.  It succeeds exactly
     when every event is known and the entries of each event stand together.
     */
    method FinalizeSpans() returns (rc: Result)
      requires Valid()
      modifies this`finalized, spans
      ensures Valid()
      ensures rc == Ok <==> EventsValid(entries, |entries|, events) && Grouped(entries, |entries|)
      ensures finalized <==> rc == Ok
      ensures rc == ErrOutOfRange || rc == ErrContract || rc == Ok
      ensures rc == ErrOutOfRange ==> !EventsValid(entries, |entries|, events)
      ensures rc == ErrContract ==> !Grouped(entries, |entries|)
    {
      hide Grouped, Covers, Extend, AllCover, ClosedAre, CanExtend;
      finalized := false;
      forall e | 0 <= e < events {
        spans[e] := Span(0, 0);
      }
      var closed := new bool[events](_ => false);
      NothingClosed(entries, spans[..], closed[..]);
      var i := 0;
      while i < |entries|
        invariant i <= |entries| && fresh(closed) && closed.Length == events && !finalized
        invariant EventsValid(entries, i, events) && Grouped(entries, i)
        invariant AllCover(entries, i, spans[..]) && ClosedAre(spans[..], closed[..], i)
      {
        var e := entries[i].route.event;
        if e >= events {
          return ErrOutOfRange;
        }
        ClosedStep(entries, i, spans[..], closed[..], e);
        SpanCovers(entries, i, spans[..], e);
        ghost var c := Close(entries, i, closed[..]);
        if i > 0 && e != entries[i - 1].route.event {
          closed[entries[i - 1].route.event] := true;
        }
        assert closed[..] == c;
        if closed[e] || !CanExtend(spans[e], i) {
          TornApart(entries, i, spans[e]);
          return ErrContract;
        }
        GroupedStep(entries, i, spans[e]);
        SpansStep(entries, i, spans[..], e);
        spans[e] := Extend(spans[e], i);
        i := i + 1;
      }
      assert forall e :: 0 <= e < events ==> spans[..][e] == spans[e];
      AllCovered(entries, spans[..]);
      finalized := true;
      return Ok;
    }

    /** The span of an event; empty for unknown events and before finalizing. */
    method SpanForEvent(e: nat) returns (s: Span)
      requires Valid()
      ensures s.start + s.count <= |entries|
      ensures entries[s.start..s.start + s.count] == if finalized then Matching(entries, e) else []
    {
      if !finalized {
        return Span(0, 0);
      }
      if e >= events {
        MatchingNone(entries, e);
        return Span(0, 0);
      }
      SpanIsScan(entries, e, spans[e]);
      return spans[e];
    }
  }

  // ----- binding a graph's routes -----

  datatype Module = Module(policy: nat, boardCaps: set<nat>, runtimeCaps: set<nat>)

  /** What the builder knows: modules per actor, requested actors, capabilities and strictness. */
  datatype Builder = Builder(
    events: nat,
    modules: seq<Option<Module>>,
    requested: set<nat>,
    boardCaps: set<nat>,
    runtimeCaps: set<nat>,
    strictMandatory: bool)

  function Classify(b: Builder, r: Route): (RouteState, Result) {
    if r.event >= b.events then (RejectedInvalidEvent, ErrOutOfRange)
    else if r.target >= |b.modules| then (RejectedInvalidActor, ErrOutOfRange)
    else if b.modules[r.target].None? then (RejectedInvalidActor, ErrNotFound)
    else
      var m := b.modules[r.target].value;
      var qos := ValidateRoute(r.qos, m.policy);
      if qos != Ok then (RejectedQosConflict, qos)
      else if r.target in b.requested then (Enabled, Ok)
      else if !(m.boardCaps <= b.boardCaps) || !(m.runtimeCaps <= b.runtimeCaps) || !b.strictMandatory
      then (OptionalDisabled, ErrNoCapability)
      else (RejectedMissingMandatoryActor, ErrNotFound)
  }

  /** The module that would receive the route, if event, target and module are known. */
  function Receiver(b: Builder, r: Route): Option<Module> {
    if r.event < b.events && r.target < |b.modules| then b.modules[r.target] else None
  }

  predicate Capable(b: Builder, m: Module) {
    && (forall x :: x in m.boardCaps ==> x in b.boardCaps)
    && (forall x :: x in m.runtimeCaps ==> x in b.runtimeCaps)
  }

  /**
   Exactly when a route is in each state.  It is enabled if its module takes its class and was
   requested; a module that was not requested is missing only where it could have run and
   strictness asks for it, and otherwise it is optional.
   */
  lemma ClassifyIsExact(b: Builder, r: Route)
    ensures
      var (state, reason) := Classify(b, r);
      var to := Receiver(b, r);
      && (state == Enabled <==>
            to.Some? && Compatible(r.qos, to.value.policy) && r.target in b.requested)
      && (state == OptionalDisabled <==>
            && to.Some? && Compatible(r.qos, to.value.policy) && r.target !in b.requested
            && (!Capable(b, to.value) || !b.strictMandatory))
      && (state == RejectedMissingMandatoryActor <==>
            && to.Some? && Compatible(r.qos, to.value.policy) && r.target !in b.requested
            && Capable(b, to.value) && b.strictMandatory)
      && (state == RejectedQosConflict <==> to.Some? && !Compatible(r.qos, to.value.policy))
      && (state == RejectedInvalidEvent <==> r.event >= b.events)
      && (state == RejectedInvalidActor <==> r.event < b.events && to.None?)
      && reason == match state
                   case Enabled => Ok
                   case OptionalDisabled => ErrNoCapability
                   case RejectedInvalidEvent => ErrOutOfRange
                   case RejectedQosConflict => if r.qos.None? then ErrOutOfRange else ErrPolicy
                   case _ => if r.target < |b.modules| then ErrNotFound else ErrOutOfRange
  {
    if Receiver(b, r).Some? {
      CompatibilityTable(r.qos, Receiver(b, r).value.policy);
    }
  }

  function Bound(b: Builder, routes: seq<Route>): (es: seq<Entry>)
    ensures |es| == |routes|
  {
    seq(|routes|, i requires 0 <= i < |routes| => Entry(routes[i], Classify(b, routes[i]).0, Classify(b, routes[i]).1))
  }

  /** Rejected entries carry the error that rejected them. */
  ghost predicate ReasonsSound(es: seq<Entry>) {
    forall i :: 0 <= i < |es| && IsRejected(es[i].state) ==> es[i].reason != Ok
  }

  lemma BoundReasonsSound(b: Builder, routes: seq<Route>)
    ensures ReasonsSound(Bound(b, routes))
  {
  }

  ghost predicate NoneRejected(es: seq<Entry>, n: nat)
    requires n <= |es|
  {
    forall i :: 0 <= i < n ==> !IsRejected(es[i].state)
  }

  /**
   Fill and index a fresh table.  Binding succeeds exactly when the routes fit, every
   event is known and grouped, and strict validation finds no rejected route; only
   then are the routes in force.
   */
  method BindRoutes(b: Builder, routes: seq<Route>) returns (rc: Result, table: ActiveRouteTable)
    ensures fresh(table) && fresh(table.spans) && table.Valid()
    ensures
      var es := Bound(b, routes);
      && (rc == Ok <==>
            && |routes| <= TABLE_CAPACITY
            && (b.strictMandatory ==> NoneRejected(es, |es|))
            && EventsValid(es, |es|, b.events) && Grouped(es, |es|))
      && (rc == Ok ==> table.entries == es && ReasonsSound(es))
      && table.entries <= es
      && (table.finalized <==> rc == Ok)
  {
    ghost var es := Bound(b, routes);
    table := new ActiveRouteTable(b.events);
    BoundReasonsSound(b, routes);
    var i := 0;
    while i < |routes|
      invariant i <= |routes| && fresh(table) && fresh(table.spans) && table.Valid() && !table.finalized
      invariant table.entries == es[..i] && table.events == b.events
      invariant b.strictMandatory ==> NoneRejected(es, i)
    {
      var (state, reason) := Classify(b, routes[i]);
      rc := table.Add(routes[i], state, reason);
      if rc != Ok {
        return;
      }
      if IsRejected(state) && b.strictMandatory {
        assert IsRejected(es[i].state);
        return reason, table;
      }
      i := i + 1;
    }
    assert table.entries == es;
    rc := table.FinalizeSpans();
  }
}
