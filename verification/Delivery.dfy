/**
 Publishing one message along its routes (`runtime/src/ev_delivery_service.c`): each
 enabled route posts to its target's mailbox; strict failures stop the fan-out,
 droppable ones do not, and every matched route is accounted for.
 */
module Delivery {
  import opened Results
  import opened Messages
  import opened Mailboxes
  import opened Ownership
  import opened QosContract
  import opened Routes

  datatype Report = Report(
    matched: nat, attempted: nat, delivered: nat, dropped: nat,
    firstError: Result, firstFailed: Option<nat>,
    optionalDisabled: nat, rejected: nat, qosConflicts: nat,
    coalesced: nat, replaced: nat, qosDropped: nat, policyRejected: nat)

  const NoReport: Report := Report(0, 0, 0, 0, Ok, None, 0, 0, 0, 0, 0, 0, 0)

  /** One delivery attempt and how it ended. */
  datatype Attempt = Attempt(route: Route, rc: Result, effect: Effect)

  /** The part of the graph a publish works on: catalog, bound actors and kernel. */
  datatype Net = Net(catalog: Catalog, bound: seq<bool>, kernel: State)

  ghost predicate NetValid(n: Net) {
    |n.bound| == |n.kernel.boxes| && BoxesValid(n.kernel)
  }

  /** Registry delivery: a missing target is an error, otherwise the mailbox decides. */
  ghost function Send(n: Net, r: Route, m: Msg): (o: (Net, Result, Effect))
    requires NetValid(n)
  {
    if r.target >= |n.bound| || !n.bound[r.target] then (n, ErrNotFound, EffectRejected)
    else
      var qos := if r.qos.Some? then r.qos.value else Critical;
      var m' := m.(target := Some(r.target));
      var o := PushQos(n.catalog, n.kernel.pool, n.kernel.boxes[r.target], m', qos);
      (n.(kernel := AfterPost(n.catalog, n.kernel, r.target, m', qos)), o.rc, o.effect)
  }

  lemma SendKeepsValid(n: Net, r: Route, m: Msg)
    requires NetValid(n)
    ensures NetValid(Send(n, r, m).0) && NothingDrained(n.kernel, Send(n, r, m).0.kernel)
  {
    if r.target < |n.bound| && n.bound[r.target] {
      var qos := if r.qos.Some? then r.qos.value else Critical;
      var m' := m.(target := Some(r.target));
      PushKeepsQueueValid(n.catalog, n.kernel.pool, n.kernel.boxes[r.target], m', qos);
    }
  }

  /**
   A post reaches its own target only.  A refused or dropped one moves no entry; a posted one is
   the newest entry there, addressed to that actor, unless a pending flag absorbed it.
   */
  lemma SendReaches(n: Net, r: Route, m: Msg)
    requires NetValid(n)
    ensures
      var (z, rc, effect) := Send(n, r, m);
      var bound := r.target < |n.bound| && n.bound[r.target];
      && z.catalog == n.catalog && z.bound == n.bound && |z.kernel.boxes| == |n.kernel.boxes|
      && (forall b :: 0 <= b < |n.kernel.boxes| && b != r.target ==> z.kernel.boxes[b] == n.kernel.boxes[b])
      && (!bound ==> rc == ErrNotFound && effect == EffectRejected && z == n)
      && (bound ==>
            var s, t := n.kernel.boxes[r.target], z.kernel.boxes[r.target];
            var sent := m.(target := Some(r.target));
            && (rc != Ok || effect in {EffectDropped, EffectCoalesced} ==> t.entries == s.entries)
            && (effect == EffectPosted && !Absorbed(s) ==> t.entries != [] && t.entries[|t.entries| - 1] == sent)
            && (effect == EffectReplaced ==> sent in t.entries && |t.entries| == |s.entries|)
            && (effect == EffectRejected <==> rc != Ok))
  {
    hide PushQos, Newest, Validate;
    if r.target < |n.bound| && n.bound[r.target] {
      var qos := if r.qos.Some? then r.qos.value else Critical;
      var m', s, p := m.(target := Some(r.target)), n.kernel.boxes[r.target], n.kernel.pool;
      PostReaches(n.catalog, p, s, m', qos);
    }
  }

  /** The post of a route takes no share, or the slot it takes one of has room. */
  ghost predicate SendRoom(n: Net, r: Route, m: Msg)
    requires NetValid(n)
  {
    var qos := if r.qos.Some? then r.qos.value else Critical;
    r.target < |n.bound| && n.bound[r.target]
    && TakesShare(n.catalog, n.kernel.pool, n.kernel.boxes[r.target], m.(target := Some(r.target)), qos) ==>
      Room(n.kernel.pool, m.payload.ctx.value)
  }

  lemma SendKeepsExactly(n: Net, r: Route, m: Msg)
    requires NetValid(n) && Inv(n.kernel)
    ensures Inv(Send(n, r, m).0.kernel) <==> SendRoom(n, r, m)
    ensures !SendRoom(n, r, m) ==> exists i: nat :: Wrapped(Send(n, r, m).0.kernel.pool, i)
  {
    hide Inv, PushQos, TakesShare, Room;
    if r.target < |n.bound| && n.bound[r.target] {
      var qos := if r.qos.Some? then r.qos.value else Critical;
      var m' := m.(target := Some(r.target));
      PostKeepsExactly(n.catalog, n.kernel, r.target, m', qos);
      if !SendRoom(n, r, m) {
        PostWraps(n.catalog, n.kernel, r.target, m', qos);
        var i: nat :| Wrapped(AfterPost(n.catalog, n.kernel, r.target, m', qos).pool, i);
        assert Wrapped(Send(n, r, m).0.kernel.pool, i);
      }
    }
  }

  lemma SendKeepsWrapped(n: Net, r: Route, m: Msg, i: nat)
    requires NetValid(n) && Wrapped(n.kernel.pool, i)
    ensures Wrapped(Send(n, r, m).0.kernel.pool, i)
  {
    hide Wrapped;
    if r.target < |n.bound| && n.bound[r.target] {
      var qos := if r.qos.Some? then r.qos.value else Critical;
      PushKeepsWrapped(n.catalog, n.kernel.pool, n.kernel.boxes[r.target], m.(target := Some(r.target)), qos, i);
    }
  }

  function RecordEffect(e: Effect, r: Report): Report {
    match e
    case EffectCoalesced => r.(coalesced := r.coalesced + 1)
    case EffectReplaced => r.(replaced := r.replaced + 1)
    case EffectDropped => r.(qosDropped := r.qosDropped + 1)
    case EffectRejected => r.(policyRejected := r.policyRejected + 1)
    case EffectPosted => r
  }

  /** Books one attempt; the result is an error only for a strict failure. */
  function RecordAttempt(a: Attempt, r: Report): (Report, Result) {
    var r1 := RecordEffect(a.effect, r.(attempted := r.attempted + 1));
    if a.rc == Ok && a.effect != EffectDropped then (r1.(delivered := r1.delivered + 1), Ok)
    else if a.rc == Ok || !IsStrict(a.route.qos) then (r1.(dropped := r1.dropped + 1), Ok)
    else if r1.firstError == Ok
    then (r1.(dropped := r1.dropped + 1, firstError := a.rc, firstFailed := Some(a.route.target)), a.rc)
    else (r1.(dropped := r1.dropped + 1), a.rc)
  }

  /** A disabled or rejected route. */
  function RecordSkip(e: Entry, r: Report): Report {
    if e.state == OptionalDisabled then r.(dropped := r.dropped + 1, optionalDisabled := r.optionalDisabled + 1)
    else
      var r1 := r.(dropped := r.dropped + 1, rejected := r.rejected + 1,
                   qosConflicts := if e.state == RejectedQosConflict then r.qosConflicts + 1 else r.qosConflicts);
      if r1.firstError == Ok then r1.(firstError := e.reason, firstFailed := Some(e.route.target)) else r1
  }

  function SkipResult(e: Entry, rc: Result): Result {
    if e.state == OptionalDisabled then rc else e.reason
  }

  datatype Outcome = Outcome(net: Net, report: Report, rc: Result, log: seq<Attempt>)

  function AttemptOf(r: Route, o: (Net, Result, Effect)): Attempt {
    Attempt(r, o.1, o.2)
  }

  /** Fan-out along a sequence of entries: what publishing means, without any index. */
  ghost function FanOut(n: Net, es: seq<Entry>, m: Msg, r: Report, rc: Result): (o: Outcome)
    requires NetValid(n)
    ensures NetValid(o.net)
    decreases |es|
  {
    if es == [] then Outcome(n, r, rc, [])
    else
      var r0 := r.(matched := r.matched + 1);
      if es[0].state != Enabled then FanOut(n, es[1..], m, RecordSkip(es[0], r0), SkipResult(es[0], rc))
      else
        var sent := Send(n, es[0].route, m);
        var a := AttemptOf(es[0].route, sent);
        var (r1, failure) := RecordAttempt(a, r0);
        SendKeepsValid(n, es[0].route, m);
        if failure != Ok then Outcome(sent.0, r1, failure, [a])
        else
          var o := FanOut(sent.0, es[1..], m, r1, rc);
          o.(log := [a] + o.log)
  }

  /** Fan-out over a static route table, which knows no states. */
  ghost function StaticFanOut(n: Net, rs: seq<Route>, m: Msg, r: Report): (o: Outcome)
    requires NetValid(n)
    decreases |rs|
  {
    if rs == [] then Outcome(n, r, Ok, [])
    else
      var sent := Send(n, rs[0], m);
      var a := AttemptOf(rs[0], sent);
      var (r1, failure) := RecordAttempt(a, r);
      SendKeepsValid(n, rs[0], m);
      if failure != Ok then Outcome(sent.0, r1, failure, [a])
      else
        var o := StaticFanOut(sent.0, rs[1..], m, r1);
        o.(log := [a] + o.log)
  }

  // ----- laws of the fan-out -----

  /** An error on a route that must arrive. */
  predicate FailsStrictly(a: Attempt) {
    a.rc != Ok && MustArrive(a.route.qos)
  }

  ghost predicate Accounted(r: Report) {
    && r.delivered + r.dropped == r.matched
    && r.matched == r.attempted + r.optionalDisabled + r.rejected
  }

  /** The result agrees with the first error the report names. */
  ghost predicate Agrees(r: Report, rc: Result) {
    rc == Ok <==> r.firstError == Ok
  }

  /** One more matched route, attempted: counted once each way, and an error exactly on a strict failure. */
  lemma AttemptAccounts(a: Attempt, r: Report, rc: Result)
    ensures
      var (q, failure) := RecordAttempt(a, r.(matched := r.matched + 1));
      && failure == (if FailsStrictly(a) then a.rc else Ok)
      && q.attempted == r.attempted + 1
      && (Accounted(r) ==> Accounted(q))
      && (Agrees(r, rc) ==> if failure == Ok then Agrees(q, rc) else Agrees(q, failure))
  {
    StrictClasses(a.route.qos);
  }

  lemma NothingToAccount()
    ensures Accounted(NoReport) && Agrees(NoReport, Ok)
  {
  }

  lemma SkipAccounts(e: Entry, r: Report, rc: Result)
    requires e.state != Enabled && (IsRejected(e.state) ==> e.reason != Ok)
    ensures
      var q := RecordSkip(e, r.(matched := r.matched + 1));
      && q.attempted == r.attempted
      && (Accounted(r) ==> Accounted(q))
      && (Agrees(r, rc) ==> Agrees(q, SkipResult(e, rc)))
  {
  }

  /**
   Every matched route is delivered or dropped, and attempted, disabled or rejected;
   the result is an error exactly when the report names one.
   */
  lemma {:induction false} FanOutAccounts(n: Net, es: seq<Entry>, m: Msg, r: Report, rc: Result)
    requires NetValid(n) && ReasonsSound(es) && Accounted(r) && Agrees(r, rc)
    ensures
      var o := FanOut(n, es, m, r, rc);
      Accounted(o.report) && Agrees(o.report, o.rc) && o.report.attempted == r.attempted + |o.log|
    decreases |es|
  {
    hide Send, NetValid, RecordSkip, RecordAttempt, Accounted, Agrees;
    if es != [] {
      if es[0].state != Enabled {
        SkipAccounts(es[0], r, rc);
        FanOutAccounts(n, es[1..], m, RecordSkip(es[0], r.(matched := r.matched + 1)), SkipResult(es[0], rc));
      } else {
        var sent := Send(n, es[0].route, m);
        var a := AttemptOf(es[0].route, sent);
        SendKeepsValid(n, es[0].route, m);
        AttemptAccounts(a, r, rc);
        var (r1, failure) := RecordAttempt(a, r.(matched := r.matched + 1));
        if failure == Ok {
          FanOutAccounts(sent.0, es[1..], m, r1, rc);
        }
      }
    }
  }

  ghost predicate OnlyLastFailsStrictly(log: seq<Attempt>) {
    forall i :: 0 <= i < |log| - 1 ==> !FailsStrictly(log[i])
  }

  lemma PrependHarmless(a: Attempt, rest: seq<Attempt>)
    requires !FailsStrictly(a) && OnlyLastFailsStrictly(rest)
    ensures OnlyLastFailsStrictly([a] + rest)
  {
  }

  /** Nothing is attempted after the first strict failure. */
  lemma {:induction false} NothingAfterStrictFailure(n: Net, es: seq<Entry>, m: Msg, r: Report, rc: Result)
    requires NetValid(n)
    ensures OnlyLastFailsStrictly(FanOut(n, es, m, r, rc).log)
    decreases |es|
  {
    hide Send, NetValid, RecordSkip, RecordAttempt;
    if es != [] {
      if es[0].state != Enabled {
        NothingAfterStrictFailure(n, es[1..], m, RecordSkip(es[0], r.(matched := r.matched + 1)),
                                  SkipResult(es[0], rc));
      } else {
        var sent := Send(n, es[0].route, m);
        var a := AttemptOf(es[0].route, sent);
        SendKeepsValid(n, es[0].route, m);
        AttemptAccounts(a, r, rc);
        var (r1, failure) := RecordAttempt(a, r.(matched := r.matched + 1));
        if failure == Ok {
          NothingAfterStrictFailure(sent.0, es[1..], m, r1, rc);
          PrependHarmless(a, FanOut(sent.0, es[1..], m, r1, rc).log);
        }
      }
    }
  }

  // ----- what a fan-out tells, entry by entry and attempt by attempt -----

  function EnabledRoutes(es: seq<Entry>): seq<Route> {
    if es == [] then []
    else if es[0].state == Enabled then [es[0].route] + EnabledRoutes(es[1..])
    else EnabledRoutes(es[1..])
  }

  function RoutesOf(log: seq<Attempt>): seq<Route> {
    if log == [] then [] else [log[0].route] + RoutesOf(log[1..])
  }

  /** Attempts whose message reached its mailbox. */
  function Arrived(log: seq<Attempt>): (n: nat)
    ensures n <= |log|
  {
    if log == [] then 0 else (if log[0].rc == Ok && log[0].effect != EffectDropped then 1 else 0) + Arrived(log[1..])
  }

  function EffectsIn(log: seq<Attempt>, e: Effect): nat {
    if log == [] then 0 else (if log[0].effect == e then 1 else 0) + EffectsIn(log[1..], e)
  }

  /** The last attempt is an error on a route that must arrive. */
  predicate StrictEnd(log: seq<Attempt>) {
    log != [] && FailsStrictly(log[|log| - 1])
  }

  function FirstRejected(es: seq<Entry>): Option<Entry> {
    if es == [] then None else if IsRejected(es[0].state) then Some(es[0]) else FirstRejected(es[1..])
  }

  function LastRejected(es: seq<Entry>): Option<Entry> {
    if es == [] then None
    else if LastRejected(es[1..]).Some? then LastRejected(es[1..])
    else if IsRejected(es[0].state) then Some(es[0])
    else None
  }

  /** The attempts were posts of `m` along their routes, each from where the one before had led. */
  ghost predicate Posted(n: Net, m: Msg, log: seq<Attempt>, z: Net)
    decreases |log|
  {
    if log == [] then z == n
    else
      && NetValid(n)
      && var sent := Send(n, log[0].route, m);
      && log[0].rc == sent.1 && log[0].effect == sent.2 && Posted(sent.0, m, log[1..], z)
  }

  /** Every counter of report `q` is that of `r` and one for each entry or attempt of its sort. */
  ghost predicate AddsUp(r: Report, q: Report, walked: seq<Entry>, log: seq<Attempt>) {
    && q.matched == r.matched + |walked|
    && q.attempted == r.attempted + |log|
    && q.delivered == r.delivered + Arrived(log)
    && q.dropped == r.dropped + |walked| - Arrived(log)
    && q.optionalDisabled == r.optionalDisabled + CountIn(walked, {OptionalDisabled})
    && q.rejected == r.rejected + CountIn(walked, REJECTIONS)
    && q.qosConflicts == r.qosConflicts + CountIn(walked, {RejectedQosConflict})
    && q.coalesced == r.coalesced + EffectsIn(log, EffectCoalesced)
    && q.replaced == r.replaced + EffectsIn(log, EffectReplaced)
    && q.qosDropped == r.qosDropped + EffectsIn(log, EffectDropped)
    && q.policyRejected == r.policyRejected + EffectsIn(log, EffectRejected)
  }

  /** The first error is the first rejected entry's, or else the one that stopped the walk. */
  function FirstBlamed(walked: seq<Entry>, log: seq<Attempt>): (Result, Option<nat>) {
    if FirstRejected(walked).Some?
    then (FirstRejected(walked).value.reason, Some(FirstRejected(walked).value.route.target))
    else if StrictEnd(log) then (log[|log| - 1].rc, Some(log[|log| - 1].route.target))
    else (Ok, None)
  }

  ghost predicate Blames(r: Report, q: Report, walked: seq<Entry>, log: seq<Attempt>) {
    var first := FirstBlamed(walked, log);
    if r.firstError != Ok || first.0 == Ok then q.firstError == r.firstError && q.firstFailed == r.firstFailed
    else (q.firstError, q.firstFailed) == first
  }

  /** The result is the error that stopped the walk, or else the last rejected entry's. */
  function Conclusion(walked: seq<Entry>, log: seq<Attempt>, rc: Result): Result {
    if StrictEnd(log) then log[|log| - 1].rc
    else if LastRejected(walked).Some? then LastRejected(walked).value.reason
    else rc
  }

  /** The fan-out walked exactly these entries. */
  ghost predicate Walked(n: Net, walked: seq<Entry>, m: Msg, r: Report, rc: Result, o: Outcome) {
    && AddsUp(r, o.report, walked, o.log) && Blames(r, o.report, walked, o.log)
    && o.rc == Conclusion(walked, o.log, rc)
    && RoutesOf(o.log) == EnabledRoutes(walked) && Posted(n, m, o.log, o.net) && OnlyLastFailsStrictly(o.log)
  }

  /**
   What publishing along entries means: they are walked in order, the enabled ones attempted,
   until the first error on a route that must arrive, or to the end.
   */
  ghost predicate Tells(n: Net, es: seq<Entry>, m: Msg, r: Report, rc: Result, o: Outcome) {
    exists k: nat :: k <= |es| && (k == |es| || StrictEnd(o.log)) && Walked(n, es[..k], m, r, rc, o)
  }

  lemma WalkedNothing(n: Net, m: Msg, r: Report, rc: Result)
    ensures Walked(n, [], m, r, rc, Outcome(n, r, rc, []))
  {
  }

  lemma WalkedSkip(n: Net, e: Entry, w: seq<Entry>, m: Msg, r: Report, rc: Result, o: Outcome)
    requires e.state != Enabled && (IsRejected(e.state) ==> e.reason != Ok)
    requires Walked(n, w, m, RecordSkip(e, r.(matched := r.matched + 1)), SkipResult(e, rc), o)
    ensures Walked(n, [e] + w, m, r, rc, o)
  {
    hide StrictEnd, Posted, OnlyLastFailsStrictly;
    assert ([e] + w)[1..] == w;
  }

  /** An attempt that goes on adds up, whatever follows; so does one that stops the walk. */
  lemma AttemptAddsUp(a: Attempt, e: Entry, w: seq<Entry>, log: seq<Attempt>, r: Report, q: Report)
    requires e.state == Enabled && AddsUp(RecordAttempt(a, r.(matched := r.matched + 1)).0, q, w, log)
    ensures AddsUp(r, q, [e] + w, [a] + log)
  {
    assert ([e] + w)[1..] == w && ([a] + log)[1..] == log;
  }

  lemma AttemptBlames(a: Attempt, e: Entry, w: seq<Entry>, log: seq<Attempt>, r: Report, q: Report, rc: Result)
    requires e.state == Enabled && !FailsStrictly(a)
    requires Blames(RecordAttempt(a, r.(matched := r.matched + 1)).0, q, w, log)
    ensures Blames(r, q, [e] + w, [a] + log) && Conclusion([e] + w, [a] + log, rc) == Conclusion(w, log, rc)
  {
    StrictClasses(a.route.qos);
    assert ([e] + w)[1..] == w;
    assert StrictEnd([a] + log) <==> StrictEnd(log);
  }

  lemma WalkedAttempt(n: Net, e: Entry, w: seq<Entry>, m: Msg, r: Report, rc: Result, o: Outcome)
    requires NetValid(n) && e.state == Enabled
    requires
      var sent := Send(n, e.route, m);
      var a := AttemptOf(e.route, sent);
      !FailsStrictly(a) && Walked(sent.0, w, m, RecordAttempt(a, r.(matched := r.matched + 1)).0, rc, o)
    ensures Walked(n, [e] + w, m, r, rc, o.(log := [AttemptOf(e.route, Send(n, e.route, m))] + o.log))
  {
    hide Send, NetValid, AddsUp, Blames, Conclusion, RecordAttempt, FailsStrictly;
    var a := AttemptOf(e.route, Send(n, e.route, m));
    AttemptAddsUp(a, e, w, o.log, r, o.report);
    AttemptBlames(a, e, w, o.log, r, o.report, rc);
    assert ([e] + w)[1..] == w && ([a] + o.log)[1..] == o.log;
    PrependHarmless(a, o.log);
  }

  lemma WalkedStop(n: Net, e: Entry, m: Msg, r: Report, rc: Result)
    requires NetValid(n) && e.state == Enabled
    requires FailsStrictly(AttemptOf(e.route, Send(n, e.route, m)))
    ensures
      var sent := Send(n, e.route, m);
      var a := AttemptOf(e.route, sent);
      var (q, failure) := RecordAttempt(a, r.(matched := r.matched + 1));
      failure == a.rc && Walked(n, [e], m, r, rc, Outcome(sent.0, q, failure, [a]))
  {
    hide Send, NetValid, AddsUp, Blames, RecordAttempt;
    var sent := Send(n, e.route, m);
    var a := AttemptOf(e.route, sent);
    var q := RecordAttempt(a, r.(matched := r.matched + 1)).0;
    NothingMore(q);
    AttemptAddsUp(a, e, [], [], r, q);
    assert [e] + [] == [e] && [a] + [] == [a];
    StopBlames(a, e, r);
    assert [e][1..] == [] && [a][1..] == [];
    assert EnabledRoutes([e]) == [e.route] + EnabledRoutes([]) && RoutesOf([a]) == [a.route] + RoutesOf([]);
    assert AddsUp(r, q, [e], [a]) && Posted(n, m, [a], sent.0);
    assert Conclusion([e], [a], rc) == a.rc;
  }

  lemma NothingMore(q: Report)
    ensures AddsUp(q, q, [], [])
  {
  }

  lemma StopBlames(a: Attempt, e: Entry, r: Report)
    requires e.state == Enabled && FailsStrictly(a)
    ensures
      var (q, failure) := RecordAttempt(a, r.(matched := r.matched + 1));
      failure == a.rc && Blames(r, q, [e], [a])
  {
    StrictClasses(a.route.qos);
    assert [e][1..] == [] && FirstRejected([e]) == None && StrictEnd([a]);
  }

  /** One more entry in front of what a fan-out tells. */
  lemma TellsMore(n: Net, n': Net, es: seq<Entry>, m: Msg, r: Report, r': Report, rc: Result, rc': Result, o: Outcome,
                  o': Outcome)
    requires es != [] && Tells(n', es[1..], m, r', rc', o') && (StrictEnd(o'.log) ==> StrictEnd(o.log))
    requires forall w :: Walked(n', w, m, r', rc', o') ==> Walked(n, [es[0]] + w, m, r, rc, o)
    ensures Tells(n, es, m, r, rc, o)
  {
    hide Walked, StrictEnd;
    var k: nat :| k <= |es[1..]| && (k == |es[1..]| || StrictEnd(o'.log)) && Walked(n', es[1..][..k], m, r', rc', o');
    assert [es[0]] + es[1..][..k] == es[..k + 1];
  }

  /** The fan-out does what publishing along its entries means. */
  lemma {:induction false} FanOutTells(n: Net, es: seq<Entry>, m: Msg, r: Report, rc: Result)
    requires NetValid(n) && ReasonsSound(es)
    ensures Tells(n, es, m, r, rc, FanOut(n, es, m, r, rc))
    decreases |es|, 1
  {
    hide Send, NetValid, RecordSkip, RecordAttempt, Walked, FailsStrictly;
    var o := FanOut(n, es, m, r, rc);
    if es == [] {
      WalkedNothing(n, m, r, rc);
      assert es[..0] == [];
    } else if es[0].state != Enabled {
      var r', rc' := RecordSkip(es[0], r.(matched := r.matched + 1)), SkipResult(es[0], rc);
      FanOutTells(n, es[1..], m, r', rc');
      forall w | Walked(n, w, m, r', rc', o)
        ensures Walked(n, [es[0]] + w, m, r, rc, o)
      {
        WalkedSkip(n, es[0], w, m, r, rc, o);
      }
      TellsMore(n, n, es, m, r, r', rc, rc', o, o);
    } else {
      AttemptTells(n, es, m, r, rc);
    }
  }

  lemma {:induction false} AttemptTells(n: Net, es: seq<Entry>, m: Msg, r: Report, rc: Result)
    requires NetValid(n) && ReasonsSound(es) && es != [] && es[0].state == Enabled
    ensures Tells(n, es, m, r, rc, FanOut(n, es, m, r, rc))
    decreases |es|, 0
  {
    hide Send, NetValid, RecordSkip, RecordAttempt, Walked, FailsStrictly;
    var o := FanOut(n, es, m, r, rc);
    var sent := Send(n, es[0].route, m);
    var a := AttemptOf(es[0].route, sent);
    SendKeepsValid(n, es[0].route, m);
    AttemptAccounts(a, r, rc);
    StrictFailureIsError(a);
    var (r1, failure) := RecordAttempt(a, r.(matched := r.matched + 1));
    if failure != Ok {
      WalkedStop(n, es[0], m, r, rc);
      assert es[..1] == [es[0]];
    } else {
      FanOutTells(sent.0, es[1..], m, r1, rc);
      var o' := FanOut(sent.0, es[1..], m, r1, rc);
      forall w | Walked(sent.0, w, m, r1, rc, o')
        ensures Walked(n, [es[0]] + w, m, r, rc, o)
      {
        WalkedAttempt(n, es[0], w, m, r, rc, o');
      }
      TellsMore(n, sent.0, es, m, r, r1, rc, rc, o, o');
    }
  }

  /** Every attempt the fan-out makes has the room it needs. */
  ghost predicate FanOutRoom(n: Net, es: seq<Entry>, m: Msg)
    requires NetValid(n)
    decreases |es|
  {
    if es == [] then true
    else if es[0].state != Enabled then FanOutRoom(n, es[1..], m)
    else
      var sent := Send(n, es[0].route, m);
      SendKeepsValid(n, es[0].route, m);
      && SendRoom(n, es[0].route, m)
      && (!FailsStrictly(AttemptOf(es[0].route, sent)) ==> FanOutRoom(sent.0, es[1..], m))
  }

  lemma {:induction false} FanOutKeepsWrapped(n: Net, es: seq<Entry>, m: Msg, r: Report, rc: Result, i: nat)
    requires NetValid(n) && Wrapped(n.kernel.pool, i)
    ensures Wrapped(FanOut(n, es, m, r, rc).net.kernel.pool, i)
    decreases |es|
  {
    hide Send, RecordSkip, RecordAttempt, Wrapped, NetValid;
    if es != [] {
      if es[0].state != Enabled {
        FanOutKeepsWrapped(n, es[1..], m, RecordSkip(es[0], r.(matched := r.matched + 1)), SkipResult(es[0], rc), i);
      } else {
        var sent := Send(n, es[0].route, m);
        SendKeepsValid(n, es[0].route, m);
        SendKeepsWrapped(n, es[0].route, m, i);
        var (r1, failure) := RecordAttempt(AttemptOf(es[0].route, sent), r.(matched := r.matched + 1));
        if failure == Ok {
          FanOutKeepsWrapped(sent.0, es[1..], m, r1, rc, i);
        }
      }
    }
  }

  /**
   The posted copies are aliases and each queued one takes its own share: a fan-out keeps
   the ownership invariant exactly when every attempt finds the room it needs.
   */
  lemma {:induction false} FanOutKeepsOwnership(n: Net, es: seq<Entry>, m: Msg, r: Report, rc: Result)
    requires NetValid(n) && Inv(n.kernel)
    ensures Inv(FanOut(n, es, m, r, rc).net.kernel) <==> FanOutRoom(n, es, m)
    decreases |es|
  {
    hide Send, SendRoom, RecordSkip, RecordAttempt, Inv, Wrapped, NetValid, FailsStrictly;
    if es != [] {
      if es[0].state != Enabled {
        FanOutKeepsOwnership(n, es[1..], m, RecordSkip(es[0], r.(matched := r.matched + 1)), SkipResult(es[0], rc));
      } else {
        var sent := Send(n, es[0].route, m);
        var a := AttemptOf(es[0].route, sent);
        SendKeepsValid(n, es[0].route, m);
        SendKeepsExactly(n, es[0].route, m);
        AttemptAccounts(a, r, rc);
        StrictFailureIsError(a);
        var (r1, failure) := RecordAttempt(a, r.(matched := r.matched + 1));
        if !SendRoom(n, es[0].route, m) {
          var i: nat :| Wrapped(sent.0.kernel.pool, i);
          if failure == Ok {
            FanOutKeepsWrapped(sent.0, es[1..], m, r1, rc, i);
          }
          WrappedIsUnsound(FanOut(n, es, m, r, rc).net.kernel, i);
        } else if failure == Ok {
          FanOutKeepsOwnership(sent.0, es[1..], m, r1, rc);
        }
      }
    }
  }

  lemma StrictFailureIsError(a: Attempt)
    ensures FailsStrictly(a) ==> a.rc != Ok
  {
  }

  /**
   Static publishing books the same way, except that all routes of the span count as
   matched from the start: what is delivered or dropped is what was attempted, and that is
   everything unless a strict failure came last.
   */
  lemma {:induction false} StaticFanOutAccounts(n: Net, rs: seq<Route>, m: Msg, r: Report)
    requires NetValid(n) && Agrees(r, Ok)
    ensures
      var o := StaticFanOut(n, rs, m, r);
      && o.report.matched == r.matched && o.report.attempted == r.attempted + |o.log|
      && o.report.delivered + o.report.dropped == r.delivered + r.dropped + |o.log|
      && |o.log| <= |rs| && OnlyLastFailsStrictly(o.log) && Agrees(o.report, o.rc)
      && (|o.log| < |rs| ==> o.log != [] && FailsStrictly(o.log[|o.log| - 1]))
    decreases |rs|
  {
    hide Send, RecordAttempt, NetValid, Agrees, FailsStrictly;
    if rs != [] {
      var sent := Send(n, rs[0], m);
      var a := AttemptOf(rs[0], sent);
      SendKeepsValid(n, rs[0], m);
      StaticAttempt(a, r);
      var (r1, failure) := RecordAttempt(a, r);
      if failure == Ok {
        StaticFanOutAccounts(sent.0, rs[1..], m, r1);
        PrependHarmless(a, StaticFanOut(sent.0, rs[1..], m, r1).log);
      }
    }
  }

  lemma StaticAttempt(a: Attempt, r: Report)
    requires Agrees(r, Ok)
    ensures
      var (q, failure) := RecordAttempt(a, r);
      && failure == (if FailsStrictly(a) then a.rc else Ok) && (FailsStrictly(a) ==> a.rc != Ok)
      && q.matched == r.matched && q.attempted == r.attempted + 1
      && q.delivered + q.dropped == r.delivered + r.dropped + 1
      && Agrees(q, failure)
  {
    StrictClasses(a.route.qos);
  }

  /** How many routes matched plays no part in what an attempt records. */
  lemma MatchedIsFree(a: Attempt, r: Report, x: nat)
    ensures RecordAttempt(a, r.(matched := x)) ==
            (RecordAttempt(a, r).0.(matched := x), RecordAttempt(a, r).1)
  {
  }

  /** With every route enabled, active publishing does what static publishing does. */
  lemma {:induction false} ActiveIsStatic(n: Net, es: seq<Entry>, rs: seq<Route>, m: Msg, r: Report, x: nat)
    requires NetValid(n) && |es| == |rs|
    requires forall i :: 0 <= i < |es| ==> es[i].state == Enabled && es[i].route == rs[i]
    ensures
      var a, s := FanOut(n, es, m, r, Ok), StaticFanOut(n, rs, m, r.(matched := x));
      a.net == s.net && a.rc == s.rc && a.log == s.log && s.report == a.report.(matched := x)
    decreases |es|
  {
    hide Send, NetValid, RecordSkip, RecordAttempt;
    if es != [] {
      var sent := Send(n, es[0].route, m);
      var a := AttemptOf(es[0].route, sent);
      SendKeepsValid(n, es[0].route, m);
      MatchedIsFree(a, r, r.matched + 1);
      MatchedIsFree(a, r, x);
      var (r1, failure) := RecordAttempt(a, r.(matched := r.matched + 1));
      if failure == Ok {
        assert r1.(matched := x) == RecordAttempt(a, r.(matched := x)).0;
        ActiveIsStatic(sent.0, es[1..], rs[1..], m, r1, x);
      }
    }
  }

  /** A static route is an entry that is always enabled. */
  function AllEnabled(rs: seq<Route>): (es: seq<Entry>)
    ensures |es| == |rs|
  {
    seq(|rs|, i requires 0 <= i < |rs| => Entry(rs[i], Enabled, Ok))
  }

  lemma {:induction false} RoutesOfLength(log: seq<Attempt>)
    ensures |RoutesOf(log)| == |log|
  {
    if log != [] {
      RoutesOfLength(log[1..]);
    }
  }

  lemma {:induction false} EnabledRoutesLength(es: seq<Entry>)
    requires forall i :: 0 <= i < |es| ==> es[i].state == Enabled
    ensures |EnabledRoutes(es)| == |es|
  {
    if es != [] {
      EnabledRoutesLength(es[1..]);
    }
  }

  /** Walking enabled entries only, every one walked was attempted. */
  lemma WalkedIsAttempted(n: Net, es: seq<Entry>, m: Msg, o: Outcome)
    requires Tells(n, es, m, NoReport, Ok, o) && forall i :: 0 <= i < |es| ==> es[i].state == Enabled
    ensures o.report.matched == |o.log|
  {
    hide Posted, Blames, OnlyLastFailsStrictly, Conclusion;
    var k: nat :| k <= |es| && Walked(n, es[..k], m, NoReport, Ok, o);
    RoutesOfLength(o.log);
    EnabledRoutesLength(es[..k]);
    assert Walked(n, es[..k], m, NoReport, Ok, o);
  }

  /** Unless there was nothing to walk, something was. */
  lemma SomethingWalked(n: Net, es: seq<Entry>, m: Msg, o: Outcome)
    requires Tells(n, es, m, NoReport, Ok, o) && es != []
    ensures o.report.matched > 0
  {
    hide Posted, Blames, OnlyLastFailsStrictly, Conclusion;
    var k: nat :| k <= |es| && (k == |es| || StrictEnd(o.log)) && Walked(n, es[..k], m, NoReport, Ok, o);
    assert Walked(n, es[..k], m, NoReport, Ok, o);
    RoutesOfLength(o.log);
    assert es[..0] == [] && EnabledRoutes([]) == [];
  }

  /** Static publishing does what publishing along enabled entries means, but counts the whole span as matched. */
  lemma StaticTells(n: Net, rs: seq<Route>, m: Msg, x: nat)
    requires NetValid(n)
    ensures
      var o := StaticFanOut(n, rs, m, NoReport.(matched := x));
      && Tells(n, AllEnabled(rs), m, NoReport, Ok, o.(report := o.report.(matched := |o.log|)))
      && o.report.matched == x
  {
    hide FanOut, StaticFanOut, Tells, NetValid;
    var es := AllEnabled(rs);
    var a := FanOut(n, es, m, NoReport, Ok);
    ActiveIsStatic(n, es, rs, m, NoReport, x);
    FanOutTells(n, es, m, NoReport, Ok);
    WalkedIsAttempted(n, es, m, a);
    var o := StaticFanOut(n, rs, m, NoReport.(matched := x));
    assert o.(report := o.report.(matched := |o.log|)) == a;
  }

  class DeliveryService {
    const catalog: Catalog
    const bound: seq<bool>
    const table: ActiveRouteTable
    const staticRoutes: seq<Route>
    const staticSpans: seq<Span>
    /** The active table was bound, so it is in force. */
    const activeBound: bool
    var kernel: State

    ghost predicate Valid()
      reads this, table, table.spans
    {
      && table.Valid() && NetValid(Net(catalog, bound, kernel))
      && (activeBound ==> table.finalized && ReasonsSound(table.entries))
    }

    ghost function View(): Net
      reads this
    {
      Net(catalog, bound, kernel)
    }

    constructor (catalog: Catalog, bound: seq<bool>, table: ActiveRouteTable, staticRoutes: seq<Route>,
                 staticSpans: seq<Span>, activeBound: bool, kernel: State)
      requires table.Valid() && NetValid(Net(catalog, bound, kernel))
      requires activeBound ==> table.finalized && ReasonsSound(table.entries)
      ensures Valid() && this.table == table && this.activeBound == activeBound && View() == Net(catalog, bound, kernel)
      ensures this.staticRoutes == staticRoutes && this.staticSpans == staticSpans
    {
      this.catalog, this.bound, this.table, this.kernel := catalog, bound, table, kernel;
      this.staticRoutes, this.staticSpans, this.activeBound := staticRoutes, staticSpans, activeBound;
    }

    /** Post to one route's target and book the attempt. */
    method DeliverOne(r: Route, m: Msg, report: Report) returns (rc: Result, q: Report, ghost a: Attempt)
      requires Valid()
      modifies this`kernel
      ensures Valid() && View() == Send(old(View()), r, m).0
      ensures a == AttemptOf(r, Send(old(View()), r, m)) && (q, rc) == RecordAttempt(a, report)
    {
      SendKeepsValid(View(), r, m);
      var sent, effect := ErrNotFound, EffectRejected;
      if r.target < |bound| && bound[r.target] {
        var qos := if r.qos.Some? then r.qos.value else Critical;
        var m' := m.(target := Some(r.target));
        var o := PushQos(catalog, kernel.pool, kernel.boxes[r.target], m', qos);
        kernel := kernel.(pool := o.pool, boxes := kernel.boxes[r.target := o.queue]);
        sent, effect := o.rc, o.effect;
      }
      var attempt := Attempt(r, sent, effect);
      a := attempt;
      var b := RecordAttempt(attempt, report);
      return b.1, b.0, a;
    }

    /** Publish along the active table: the entries of the message's event, found through its span. */
    method PublishActive(m: Msg) returns (rc: Result, report: Report, ghost log: seq<Attempt>)
      requires Valid()
      modifies this`kernel
      ensures Valid()
      ensures
        var es := if table.finalized then Matching(table.entries, m.eventId) else [];
        Outcome(View(), report, rc, log) == FanOut(old(View()), es, m, NoReport, Ok)
    {
      hide Send, RecordAttempt, RecordSkip, SkipResult, BoxesValid, ActiveRouteTable.Valid, ReasonsSound, Matching;
      var span := table.SpanForEvent(m.eventId);
      ghost var es := table.entries[span.start..span.start + span.count];
      ghost var all := FanOut(View(), es, m, NoReport, Ok);
      rc, report, log := Ok, NoReport, [];
      var i := 0;
      while i < span.count
        invariant i <= span.count && Valid() && es == table.entries[span.start..span.start + span.count]
        invariant Prepend(log, FanOut(View(), es[i..], m, report, rc)) == all
      {
        var e := table.entries[span.start + i];
        assert e == es[i] && es[i..][0] == e && es[i..][1..] == es[i + 1..];
        report := report.(matched := report.matched + 1);
        if e.state != Enabled {
          report, rc := RecordSkip(e, report), SkipResult(e, rc);
        } else {
          var failure;
          ghost var a;
          failure, report, a := DeliverOne(e.route, m, report);
          log := log + [a];
          if failure != Ok {
            rc := failure;
            return;
          }
        }
        i := i + 1;
      }
    }

    ghost function Prepend(log: seq<Attempt>, o: Outcome): Outcome {
      o.(log := log + o.log)
    }

    /** The static span of an event; empty for an unknown event or a span outside the table. */
    function StaticSpan(e: nat): (s: Span)
      ensures s.start + s.count <= |staticRoutes|
    {
      if e < |staticSpans| && staticSpans[e].start + staticSpans[e].count <= |staticRoutes| then staticSpans[e]
      else Span(0, 0)
    }

    /** Publish along the static table, whose spans were generated with it. */
    method PublishStatic(m: Msg) returns (rc: Result, report: Report, ghost log: seq<Attempt>)
      requires Valid()
      modifies this`kernel
      ensures Valid()
      ensures
        var s := StaticSpan(m.eventId);
        Outcome(View(), report, rc, log) ==
        StaticFanOut(old(View()), staticRoutes[s.start..s.start + s.count], m, NoReport.(matched := s.count))
    {
      hide Send, RecordAttempt, BoxesValid, FanOut, ActiveRouteTable.Valid, ReasonsSound;
      var span := StaticSpan(m.eventId);
      ghost var rs := staticRoutes[span.start..span.start + span.count];
      rc, report, log := Ok, NoReport.(matched := span.count), [];
      ghost var all := StaticFanOut(View(), rs, m, report);
      var i := 0;
      while i < span.count
        invariant i <= span.count && Valid() && rc == Ok
        invariant Prepend(log, StaticFanOut(View(), rs[i..], m, report)) == all
      {
        assert rs[i..][0] == rs[i] && rs[i..][1..] == rs[i + 1..];
        var failure;
        ghost var a;
        failure, report, a := DeliverOne(staticRoutes[span.start + i], m, report);
        log := log + [a];
        if failure != Ok {
          rc := failure;
          return;
        }
        i := i + 1;
      }
    }

    /** The entries a message is published along: those of its event in the table in force. */
    ghost function Followed(m: Msg): seq<Entry>
      reads table
    {
      if activeBound then Matching(table.entries, m.eventId)
      else
        var s := StaticSpan(m.eventId);
        AllEnabled(staticRoutes[s.start..s.start + s.count])
    }

    /** What publishing does in the mode the graph is in, before an event without routes is turned into an error. */
    ghost function Fanned(m: Msg): Outcome
      requires Valid()
      reads this, table, table.spans
    {
      if activeBound then FanOut(View(), Matching(table.entries, m.eventId), m, NoReport, Ok)
      else
        var s := StaticSpan(m.eventId);
        StaticFanOut(View(), staticRoutes[s.start..s.start + s.count], m, NoReport.(matched := s.count))
    }

    /** Publishing in the mode in force does what publishing along the followed entries means. */
    lemma FannedTells(m: Msg)
      requires Valid()
      ensures
        var o := Fanned(m);
        && Tells(View(), Followed(m), m, NoReport, Ok,
                 if activeBound then o else o.(report := o.report.(matched := |o.log|)))
        && (!activeBound ==> o.report.matched == |Followed(m)|)
        && (o.report.matched == 0 <==> Followed(m) == [])
    {
      hide Send, FanOut, StaticFanOut, BoxesValid, Covers, EventsValid, ReasonsSound, Matching, Tells;
      if activeBound {
        var es := Matching(table.entries, m.eventId);
        MatchingReasons(table.entries, m.eventId);
        FanOutTells(View(), es, m, NoReport, Ok);
        if es == [] {
          NothingFanned(View(), m);
        } else {
          SomethingWalked(View(), es, m, Fanned(m));
        }
      } else {
        var s := StaticSpan(m.eventId);
        StaticTells(View(), staticRoutes[s.start..s.start + s.count], m, s.count);
      }
    }

    /**
     Publish one message along the bound routes, or along the static ones before any were
     bound.  The entries of the event are walked in order and the enabled ones attempted, up
     to the first error on a route that must arrive; that error is the result.  Every counter
     is the number of entries or attempts of its sort, and an event without routes is
     reported as not found.
     */
    method Publish(m: Msg) returns (rc: Result, report: Report, ghost log: seq<Attempt>)
      requires Valid()
      modifies this`kernel
      ensures Valid()
      ensures
        var o := old(Fanned(m));
        View() == o.net && log == o.log && (report, rc) == Final(o.report, o.rc)
      ensures
        if Followed(m) == []
        then rc == ErrNotFound && report == NoReport.(firstError := ErrNotFound) && log == [] && View() == old(View())
        else
          && Tells(old(View()), Followed(m), m, NoReport, Ok,
                   Outcome(View(), if activeBound then report else report.(matched := |log|), rc, log))
          && (!activeBound ==> report.matched == |Followed(m)|)
      ensures OnlyLastFailsStrictly(log) && (StrictEnd(log) ==> rc == log[|log| - 1].rc)
      ensures report.attempted == |log| && Agrees(report, rc)
      ensures activeBound ==> Accounted(report)
    {
      hide Send, FanOut, StaticFanOut, BoxesValid, Covers, EventsValid, ReasonsSound, Matching, Final, Accounted,
           Agrees, FailsStrictly, Tells;
      NothingToAccount();
      FannedTells(m);
      if activeBound {
        MatchingReasons(table.entries, m.eventId);
        FanOutAccounts(View(), Matching(table.entries, m.eventId), m, NoReport, Ok);
        rc, report, log := PublishActive(m);
      } else {
        ghost var s := StaticSpan(m.eventId);
        StaticStart(s.count);
        StaticFanOutAccounts(View(), staticRoutes[s.start..s.start + s.count], m, NoReport.(matched := s.count));
        rc, report, log := PublishStatic(m);
      }
      FinalAccounts(report, rc);
      FinalTells(old(View()), Followed(m), m, old(Fanned(m)), activeBound);
      var final := Final(report, rc);
      report, rc := final.0, final.1;
    }
  }

  lemma NothingFanned(n: Net, m: Msg)
    requires NetValid(n)
    ensures FanOut(n, [], m, NoReport, Ok) == Outcome(n, NoReport, Ok, [])
  {
  }

  /** Only an event without routes is turned into an error. */
  lemma FinalTells(n: Net, es: seq<Entry>, m: Msg, o: Outcome, active: bool)
    requires Tells(n, es, m, NoReport, Ok, if active then o else o.(report := o.report.(matched := |o.log|)))
    requires o.report.matched == 0 <==> es == []
    ensures es != [] ==> Final(o.report, o.rc) == (o.report, o.rc)
    ensures es == [] ==>
              && o.net == n && o.log == []
              && Final(o.report, o.rc) == (NoReport.(firstError := ErrNotFound), ErrNotFound)
    ensures OnlyLastFailsStrictly(o.log) && (StrictEnd(o.log) ==> o.rc == o.log[|o.log| - 1].rc)
  {
    hide OnlyLastFailsStrictly;
    RoutesOfLength(o.log);
    if es == [] {
      assert es[..0] == [] && EnabledRoutes(es) == [];
      assert o.log == [];
    }
  }

  lemma StaticStart(count: nat)
    ensures Agrees(NoReport.(matched := count), Ok)
  {
  }

  /** An event without routes is an error even though nothing failed. */
  function Final(r: Report, rc: Result): (Report, Result) {
    if r.matched == 0 then (r.(firstError := ErrNotFound), ErrNotFound) else (r, rc)
  }

  lemma FinalAccounts(r: Report, rc: Result)
    requires Agrees(r, rc)
    ensures (Accounted(r) ==> Accounted(Final(r, rc).0)) && Agrees(Final(r, rc).0, Final(r, rc).1)
    ensures Final(r, rc).0 == r.(firstError := Final(r, rc).0.firstError)
  {
  }

  lemma {:induction false} MatchingReasons(es: seq<Entry>, e: nat)
    requires ReasonsSound(es)
    ensures ReasonsSound(Matching(es, e))
  {
    if es != [] {
      MatchingReasons(es[1..], e);
    }
  }

  /**
   Active and static publishing agree: when the active table holds the static routes,
   all enabled, and the static span is exact, both make the same deliveries with the
   same results and leave the same kernel.
   */
  lemma PublishModesAgree(n: Net, es: seq<Entry>, rs: seq<Route>, span: Span, m: Msg)
    requires NetValid(n) && |es| == |rs|
    requires forall i :: 0 <= i < |es| ==> es[i].state == Enabled && es[i].route == rs[i]
    requires Covers(es, |es|, m.eventId, span)
    ensures
      var a := FanOut(n, Matching(es, m.eventId), m, NoReport, Ok);
      var s := StaticFanOut(n, rs[span.start..span.start + span.count], m, NoReport.(matched := span.count));
      a.net == s.net && a.rc == s.rc && a.log == s.log && s.report == a.report.(matched := span.count)
  {
    SpanIsScan(es, m.eventId, span);
    ActiveIsStatic(n, Matching(es, m.eventId), rs[span.start..span.start + span.count], m, NoReport, span.count);
  }
}
