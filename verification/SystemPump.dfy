/**
 Budgeted round robin over execution domains (`core/src/ev_system_pump.c`), and the
 scheduler's poll that wraps it (`runtime/src/ev_runtime_scheduler.c`).
 */
module SystemPump {
  import opened Results
  import opened Messages
  import opened Ownership
  import opened ActorRuntime
  import opened Rotation
  import DP = DomainPump

  const DOMAIN_COUNT: nat := 4

  function DomainAt(i: nat): Domain
    requires i < DOMAIN_COUNT
  {
    if i == 0 then Isr else if i == 1 then FastLoop else if i == 2 then SlowIo else Network
  }

  datatype Report = Report(
    turnBudget: nat, pendingBefore: nat, pendingAfter: nat,
    domainsExamined: nat, domainsPumped: nat, turns: nat, messages: nat,
    exhausted: bool, stopResult: Result)

  datatype Stats = Stats(
    runCalls: nat, emptyCalls: nat, budgetHits: nat,
    domainsPumped: nat, turns: nat, messages: nat,
    lastTurnBudget: nat, lastTurns: nat, lastResult: Result)

  /** Running totals of a run: turns left, domains looked at and pumped, turns and messages processed. */
  datatype Tally = Tally(left: nat, examined: nat, pumped: nat, turns: nat, messages: nat)

  /** Kernel and actor cursors, one per domain, at some instant. */
  datatype View = View(kernel: State, cursors: seq<nat>)

  ghost predicate Shaped(config: Config, bound: seq<bool>, v: View) {
    && |config.domains| == |config.drain| == |bound| == |v.kernel.boxes| && |bound| > 0
    && |v.cursors| == DOMAIN_COUNT
    && forall i :: 0 <= i < DOMAIN_COUNT ==> v.cursors[i] < |bound|
  }

  /** Actor `x` of domain `i` was served between the views, or its domain's cursor came no further from it. */
  ghost predicate NoWorse(config: Config, bound: seq<bool>, v: View, w: View, i: nat)
    requires Shaped(config, bound, v) && Shaped(config, bound, w) && i < DOMAIN_COUNT
  {
    forall x: nat :: DP.Mailed(config, bound, DomainAt(i), v.kernel, x) ==>
                       || Popped(w.kernel, x) > Popped(v.kernel, x)
                       || Distance(w.cursors[i], x, |bound|) <= Distance(v.cursors[i], x, |bound|)
  }

  /** ... or strictly closer. */
  ghost predicate Closer(config: Config, bound: seq<bool>, v: View, w: View, i: nat)
    requires Shaped(config, bound, v) && Shaped(config, bound, w) && i < DOMAIN_COUNT
  {
    forall x: nat :: DP.Mailed(config, bound, DomainAt(i), v.kernel, x) ==>
                       || Popped(w.kernel, x) > Popped(v.kernel, x)
                       || Distance(w.cursors[i], x, |bound|) < Distance(v.cursors[i], x, |bound|)
  }

  /** Every actor of domain `i` with mail at `v` got the smaller of its mail and its drain budget served by `w`. */
  ghost predicate GivesShares(config: Config, bound: seq<bool>, v: View, w: View, i: nat)
    requires Shaped(config, bound, v) && Shaped(config, bound, w) && i < DOMAIN_COUNT
  {
    forall x: nat :: DP.Mailed(config, bound, DomainAt(i), v.kernel, x) ==>
                       DP.FairShare(v.kernel, w.kernel, x, config.drain[x])
  }

  lemma SharesStay(config: Config, bound: seq<bool>, v: View, w: View, u: View, i: nat)
    requires Shaped(config, bound, v) && Shaped(config, bound, w) && Shaped(config, bound, u) && i < DOMAIN_COUNT
    requires Moved(v.kernel, w.kernel) && Moved(w.kernel, u.kernel)
    requires GivesShares(config, bound, v, w, i) || GivesShares(config, bound, w, u, i)
    ensures GivesShares(config, bound, v, u, i)
  {
    if GivesShares(config, bound, w, u, i) {
      forall x: nat | DP.Mailed(config, bound, DomainAt(i), v.kernel, x)
        ensures DP.FairShare(v.kernel, u.kernel, x, config.drain[x])
      {
        if Pending(w.kernel, x) > 0 {
          assert DP.Mailed(config, bound, DomainAt(i), w.kernel, x);
        }
      }
    }
  }

  /** A domain was run or left alone: never worse, and the mail of other domains stays. */
  ghost predicate Forward(config: Config, bound: seq<bool>, v: View, w: View) {
    && Shaped(config, bound, v) && Shaped(config, bound, w)
    && Moved(v.kernel, w.kernel)
    && forall i :: 0 <= i < DOMAIN_COUNT ==> NoWorse(config, bound, v, w, i)
  }

  lemma NoWorseStep(config: Config, bound: seq<bool>, v: View, w: View, u: View, i: nat)
    requires Shaped(config, bound, v) && Shaped(config, bound, w) && Shaped(config, bound, u) && i < DOMAIN_COUNT
    requires Moved(v.kernel, w.kernel) && Moved(w.kernel, u.kernel)
    requires NoWorse(config, bound, v, w, i) && NoWorse(config, bound, w, u, i)
    ensures NoWorse(config, bound, v, u, i)
    ensures Closer(config, bound, v, w, i) || Closer(config, bound, w, u, i) ==> Closer(config, bound, v, u, i)
  {
  }

  lemma ForwardTransitive(config: Config, bound: seq<bool>, v: View, w: View, u: View)
    requires Forward(config, bound, v, w) && Forward(config, bound, w, u)
    ensures Forward(config, bound, v, u)
    ensures forall i :: 0 <= i < DOMAIN_COUNT && (Closer(config, bound, v, w, i) || Closer(config, bound, w, u, i)) ==>
                          Closer(config, bound, v, u, i)
  {
    MovedTransitive(v.kernel, w.kernel, u.kernel);
    forall i | 0 <= i < DOMAIN_COUNT
      ensures NoWorse(config, bound, v, u, i)
      ensures Closer(config, bound, v, w, i) || Closer(config, bound, w, u, i) ==> Closer(config, bound, v, u, i)
    {
      NoWorseStep(config, bound, v, w, u, i);
    }
  }

  class SystemPump<W> {
    const registry: Registry<W>
    var slots: seq<DP.DomainPump?<W>>
    var next: nat
    var stats: Stats
    /** Counters of the scheduler that owns the pump. */
    var pollCalls: nat
    var partialReturns: nat

    ghost predicate Valid()
      reads this`slots, registry
    {
      && |slots| == DOMAIN_COUNT && registry.Valid() && |registry.bound| > 0
      && forall i :: 0 <= i < DOMAIN_COUNT && slots[i] != null ==>
                       slots[i].registry == registry && slots[i].domain == DomainAt(i)
    }

    ghost function Pumps(): set<object>
      reads this`slots
    {
      set i | 0 <= i < |slots| && slots[i] != null :: slots[i] as object
    }

    ghost function Look(): (v: View)
      requires Valid()
      reads this`slots, registry, Pumps()
      ensures Shaped(registry.config, registry.bound, v)
    {
      View(registry.kernel, [CursorOf(0), CursorOf(1), CursorOf(2), CursorOf(3)])
    }

    ghost function CursorOf(i: nat): (c: nat)
      requires Valid() && i < DOMAIN_COUNT
      reads this`slots, registry, Pumps()
      ensures c < |registry.bound|
    {
      if slots[i] == null then 0 else slots[i].Cursor()
    }

    lemma LookCursors()
      requires Valid()
      ensures forall i :: 0 <= i < DOMAIN_COUNT ==> Look().cursors[i] == CursorOf(i)
    {
    }

    constructor (registry: Registry<W>)
      requires registry.Valid() && |registry.bound| > 0
      ensures Valid() && this.registry == registry && forall i :: 0 <= i < DOMAIN_COUNT ==> slots[i] == null
      ensures stats == Stats(0, 0, 0, 0, 0, 0, 0, 0, Ok) && pollCalls == partialReturns == 0
    {
      this.registry := registry;
      slots := seq(DOMAIN_COUNT, _ => null);
      next, pollCalls, partialReturns := 0, 0, 0;
      stats := Stats(0, 0, 0, 0, 0, 0, 0, 0, Ok);
    }

    /** A domain is bound once. */
    method Bind(i: nat, pump: DP.DomainPump<W>) returns (rc: Result)
      requires Valid() && i < DOMAIN_COUNT && pump.registry == registry && pump.domain == DomainAt(i)
      modifies this`slots
      ensures Valid()
      ensures rc == (if old(slots)[i] == null then Ok else ErrState)
      ensures slots == if rc == Ok then old(slots)[i := pump] else old(slots)
    {
      if slots[i] != null {
        return ErrState;
      }
      slots := slots[i := pump];
      return Ok;
    }

    /** No domain is bound. */
    ghost predicate Unbound()
      requires |slots| == DOMAIN_COUNT
      reads this`slots
    {
      forall i :: 0 <= i < DOMAIN_COUNT ==> slots[i] == null
    }

    method BoundCount() returns (n: nat)
      requires |slots| == DOMAIN_COUNT
      ensures n == 0 <==> Unbound()
    {
      n := 0;
      for i := 0 to DOMAIN_COUNT
        invariant n == 0 <==> forall j :: 0 <= j < i ==> slots[j] == null
      {
        if slots[i] != null {
          n := n + 1;
        }
      }
    }

    ghost predicate DomainHasMail(i: nat)
      requires Valid() && i < DOMAIN_COUNT
      reads this`slots, registry
    {
      slots[i] != null && slots[i].HasMail()
    }

    /** In kernel state `s` the domain `i` is bound and has mail. */
    ghost predicate MailFor(s: State, i: nat)
      reads this`slots, registry`bound
    {
      && i < |slots| == DOMAIN_COUNT && slots[i] != null
      && |s.boxes| == |registry.bound| == |registry.config.domains|
      && exists x: nat :: DP.Mailed(registry.config, registry.bound, DomainAt(i), s, x)
    }

    /** In kernel state `s` a bound domain has mail. */
    ghost predicate MailIn(s: State)
      reads this`slots, registry`bound
    {
      exists i: nat :: i < DOMAIN_COUNT && MailFor(s, i)
    }

    lemma DomainMailFor(i: nat)
      requires Valid() && i < DOMAIN_COUNT
      ensures DomainHasMail(i) <==> MailFor(registry.kernel, i)
    {
      if slots[i] != null {
        assert forall x: nat :: slots[i].Eligible(registry.kernel, x) ==
                                DP.Mailed(registry.config, registry.bound, DomainAt(i), registry.kernel, x);
      }
    }

    lemma HasMailIn()
      requires Valid()
      ensures HasMail() <==> MailIn(registry.kernel)
    {
      hide DomainHasMail, MailFor;
      forall i: nat | i < DOMAIN_COUNT
        ensures DomainHasMail(i) <==> MailFor(registry.kernel, i)
      {
        DomainMailFor(i);
      }
    }

    /** None of the domains a scan reached within `offset` steps had mail in `s`. */
    ghost predicate NoneHad(s: State, start: nat, offset: nat)
      requires start < DOMAIN_COUNT
      reads this`slots, registry`bound
    {
      forall i: nat :: i < DOMAIN_COUNT && Distance(start, i, DOMAIN_COUNT) < offset ==> !MailFor(s, i)
    }

    lemma NoneHadStep(s: State, start: nat, offset: nat)
      requires start < DOMAIN_COUNT && offset < DOMAIN_COUNT
      requires NoneHad(s, start, offset) && !MailFor(s, At(start, offset, DOMAIN_COUNT))
      ensures NoneHad(s, start, offset + 1)
    {
      hide MailFor;
      forall i: nat | i < DOMAIN_COUNT && Distance(start, i, DOMAIN_COUNT) < offset + 1
        ensures !MailFor(s, i)
      {
        DistanceAt(start, i, DOMAIN_COUNT);
      }
    }

    lemma NoneHadAtAll(s: State, start: nat)
      requires start < DOMAIN_COUNT
      ensures NoneHad(s, start, 0)
      ensures NoneHad(s, start, DOMAIN_COUNT) ==> !MailIn(s)
    {
      hide MailFor;
    }

    /** The mail of the first `n` domains, as far as they are bound. */
    ghost function MailOf(n: nat): nat
      requires Valid() && n <= DOMAIN_COUNT
      reads this`slots, registry
    {
      if n == 0 then 0
      else MailOf(n - 1) + if slots[n - 1] == null then 0 else DomainMail(n - 1)
    }

    ghost function DomainMail(i: nat): nat
      requires Valid() && i < DOMAIN_COUNT
      reads this`slots, registry
    {
      Sum(DP.Waiting(registry.config, registry.bound, registry.kernel, DomainAt(i)))
    }

    method PendingMail() returns (total: nat)
      requires Valid()
      ensures total == MailOf(DOMAIN_COUNT)
      ensures total > 0 <==> HasMail()
    {
      hide DomainMail, BoxesValid, DP.DomainPump.HasMail;
      total := 0;
      ghost var found := 0;
      for i := 0 to DOMAIN_COUNT
        invariant total == MailOf(i)
        invariant if total > 0 then found < i && DomainHasMail(found) else forall j :: 0 <= j < i ==> !DomainHasMail(j)
      {
        if slots[i] != null {
          var n := slots[i].PendingMail();
          DomainMailIs(i);
          if n > 0 {
            found := i;
          }
          total := total + n;
        }
      }
    }

    lemma DomainMailIs(i: nat)
      requires Valid() && i < DOMAIN_COUNT
      ensures DomainMail(i) == Sum(DP.Waiting(registry.config, registry.bound, registry.kernel, DomainAt(i)))
    {
    }

    /**
     Between two moments exactly the calls logged have happened, and they are the messages
     reported and those lost to an empty error, which are none if no handler returned it.
     */
    ghost predicate Accounts(m: Moment<W>, n: Moment<W>, messages: nat, lost: nat) {
      registry.Leads(m, n) && DP.DomainPump<W>.Counted(n.log, |m.log|, messages, lost)
    }

    ghost predicate Traced(m: Moment<W>, messages: nat, lost: nat)
      reads registry
    {
      Accounts(m, registry.Now(), messages, lost)
    }

    lemma TracedNothing()
      ensures Traced(registry.Now(), 0, 0)
    {
      registry.NothingSince();
    }

    lemma TracedOn(m: Moment<W>, n: Moment<W>, a: nat, l: nat, b: nat, k: nat)
      requires Accounts(m, n, a, l) && Traced(n, b, k)
      ensures Traced(m, a + b, l + k)
    {
      hide Performed;
      registry.LeadsOn(m, n);
    }

    lemma TracedKeeps(m: Moment<W>, messages: nat, lost: nat)
      requires Traced(m, messages, lost)
      ensures Inv(m.at.kernel) && registry.BehavedSince(m) ==> Inv(registry.kernel)
    {
      hide Inv, Registry.Leads, Registry.BehavedSince;
      registry.SinceKeeps(m);
    }

    /** The default budget of domain `i`. */
    ghost function DefaultOf(i: nat): nat
      requires i < DOMAIN_COUNT
    {
      if |registry.config.domains| == |registry.config.drain| then Sum(DP.Weights(registry.config, DomainAt(i))) else 0
    }

    /** What one turn may process at most: the largest default budget of a domain. */
    ghost function TurnLimit(): (n: nat)
      ensures forall i :: 0 <= i < DOMAIN_COUNT ==> DefaultOf(i) <= n
    {
      Max(Max(DefaultOf(0), DefaultOf(1)), Max(DefaultOf(2), DefaultOf(3)))
    }

    /** Run one bound domain that has mail on its default budget; only its own cursor moves. */
    method RunDomain(i: nat) returns (rc: Result, messages: nat, ghost lost: nat)
      requires Valid() && i < DOMAIN_COUNT && DomainHasMail(i)
      modifies slots[i], registry`world, registry`kernel, registry`log
      ensures Valid() && rc != ErrEmpty && old(registry.log) <= registry.log
      ensures Traced(old(registry.Now()), messages, lost)
      ensures messages <= DefaultOf(i) && (rc == Ok ==> messages > 0)
      ensures Moved(old(registry.kernel), registry.kernel)
      ensures slots[i].Fair(old(registry.kernel), registry.kernel, old(CursorOf(i)), CursorOf(i))
      ensures rc != Ok ==> DP.Blamed(registry.log, |old(registry.log)|, rc)
      ensures DP.AllOk(registry.log, |old(registry.log)|) ==>
                slots[i].AllShared(old(registry.kernel), registry.kernel)
    {
      hide DP.DomainPump.Fair, DP.DomainPump.AllShared, Registry.Leads, Inv, BoxesValid, Moved, Popped, Pending;
      var pump := slots[i];
      var budget := pump.DefaultBudget();
      DefaultBudgetPositive(pump);
      var report;
      rc, report, lost := pump.Run(budget);
      messages := report.processed;
    }

    /** A turn of domain `i` brings it closer to all its mail and leaves the other domains where they are. */
    method Turn(i: nat) returns (rc: Result, messages: nat, ghost lost: nat)
      requires Valid() && i < DOMAIN_COUNT && DomainHasMail(i)
      modifies Pumps(), registry`world, registry`kernel, registry`log
      ensures Valid() && rc != ErrEmpty
      ensures old(registry.log) <= registry.log
      ensures Traced(old(registry.Now()), messages, lost)
      ensures messages <= DefaultOf(i) && (rc == Ok ==> messages > 0)
      ensures Forward(registry.config, registry.bound, old(Look()), Look())
      ensures Closer(registry.config, registry.bound, old(Look()), Look(), i)
      ensures rc != Ok ==> DP.Blamed(registry.log, |old(registry.log)|, rc)
      ensures DP.AllOk(registry.log, |old(registry.log)|) ==>
                GivesShares(registry.config, registry.bound, old(Look()), Look(), i)
    {
      hide GivesShares, Forward, Closer, Accounts, BoxesValid, DP.DomainPump.Fair, DP.DomainPump.HasMail;
      ghost var v := Look();
      LookCursors();
      rc, messages, lost := RunDomain(i);
      assert forall j :: 0 <= j < DOMAIN_COUNT && j != i ==> CursorOf(j) == old(CursorOf(j));
      TurnIsForward(v, i);
      TurnGivesShares(v, i);
    }

    lemma TurnGivesShares(v: View, i: nat)
      requires Valid() && i < DOMAIN_COUNT && slots[i] != null && Shaped(registry.config, registry.bound, v)
      ensures slots[i].AllShared(v.kernel, registry.kernel) ==>
                GivesShares(registry.config, registry.bound, v, Look(), i)
    {
      if slots[i].AllShared(v.kernel, registry.kernel) {
        forall x: nat | DP.Mailed(registry.config, registry.bound, DomainAt(i), v.kernel, x)
          ensures DP.FairShare(v.kernel, registry.kernel, x, registry.config.drain[x])
        {
          assert slots[i].Eligible(v.kernel, x);
        }
      }
    }

    lemma DefaultBudgetPositive(pump: DP.DomainPump<W>)
      requires Valid() && pump.registry == registry && pump.HasMail()
      ensures Sum(DP.Weights(registry.config, pump.domain)) > 0
    {
      var w := DP.Weights(registry.config, pump.domain);
      var x: nat :| pump.Eligible(registry.kernel, x);
      DP.SumIsZero(w);
      assert w[x] > 0;
    }

    /** Running domain `i` fairly moves nothing else. */
    lemma TurnIsForward(v: View, i: nat)
      requires Valid() && i < DOMAIN_COUNT && slots[i] != null && Shaped(registry.config, registry.bound, v)
      requires Moved(v.kernel, registry.kernel)
      requires slots[i].Fair(v.kernel, registry.kernel, v.cursors[i], slots[i].Cursor())
      requires forall j :: 0 <= j < DOMAIN_COUNT && j != i ==> CursorOf(j) == v.cursors[j]
      ensures Forward(registry.config, registry.bound, v, Look())
      ensures Closer(registry.config, registry.bound, v, Look(), i)
    {
      var w := Look();
      LookCursors();
      forall x: nat | DP.Mailed(registry.config, registry.bound, DomainAt(i), v.kernel, x)
        ensures Popped(w.kernel, x) > Popped(v.kernel, x)
             || Distance(w.cursors[i], x, |registry.bound|) < Distance(v.cursors[i], x, |registry.bound|)
      {
        assert slots[i].Eligible(v.kernel, x);
      }
    }

    // ----- one scan over the domains -----

    /** Every bound domain the scan reached within `offset` steps came closer to all its mail. */
    ghost predicate Reached(v: View, w: View, start: nat, offset: nat)
      requires Shaped(registry.config, registry.bound, v) && Shaped(registry.config, registry.bound, w)
      requires start < DOMAIN_COUNT && |slots| == DOMAIN_COUNT
      reads this`slots, registry`bound
    {
      forall i :: 0 <= i < DOMAIN_COUNT && slots[i] != null && Distance(start, i, DOMAIN_COUNT) < offset ==>
                    Closer(registry.config, registry.bound, v, w, i)
    }

    /** Every bound domain the scan reached within `offset` steps got its shares, if no handler failed since `from`. */
    ghost predicate Shared(v: View, w: View, log: seq<Call>, from: nat, start: nat, offset: nat)
      requires Shaped(registry.config, registry.bound, v) && Shaped(registry.config, registry.bound, w)
      requires start < DOMAIN_COUNT && |slots| == DOMAIN_COUNT
      reads this`slots, registry`bound
    {
      DP.AllOk(log, from) ==>
        forall i :: 0 <= i < DOMAIN_COUNT && slots[i] != null && Distance(start, i, DOMAIN_COUNT) < offset ==>
                      GivesShares(registry.config, registry.bound, v, w, i)
    }

    lemma NothingShared(start: nat)
      requires Valid() && start < DOMAIN_COUNT
      ensures Shared(Look(), Look(), registry.log, |registry.log|, start, 0)
    {
    }

    /** Shares given are not taken back. */
    lemma SharedStays(v: View, w: View, log: seq<Call>, from: nat, start: nat, offset: nat)
      requires Valid() && start < DOMAIN_COUNT && log <= registry.log && from <= |log|
      requires Forward(registry.config, registry.bound, v, w) && Forward(registry.config, registry.bound, w, Look())
      requires Shared(v, w, log, from, start, offset)
      ensures Shared(v, Look(), registry.log, from, start, offset)
    {
      hide GivesShares;
      if DP.AllOk(registry.log, from) {
        assert DP.AllOk(log, from);
        forall i | 0 <= i < DOMAIN_COUNT && slots[i] != null && Distance(start, i, DOMAIN_COUNT) < offset
          ensures GivesShares(registry.config, registry.bound, v, Look(), i)
        {
          SharesStay(registry.config, registry.bound, v, w, Look(), i);
        }
      }
    }

    /** One more position whose domain, if bound, got its shares between `w` and now. */
    lemma SharedStep(v: View, w: View, log: seq<Call>, from: nat, start: nat, offset: nat)
      requires Valid() && start < DOMAIN_COUNT && offset < DOMAIN_COUNT && log <= registry.log && from <= |log|
      requires Forward(registry.config, registry.bound, v, w) && Forward(registry.config, registry.bound, w, Look())
      requires Shared(v, w, log, from, start, offset)
      requires
        var i := At(start, offset, DOMAIN_COUNT);
        slots[i] != null && DP.AllOk(registry.log, |log|) ==>
          GivesShares(registry.config, registry.bound, w, Look(), i)
      ensures Shared(v, Look(), registry.log, from, start, offset + 1)
    {
      hide GivesShares;
      if DP.AllOk(registry.log, from) {
        assert DP.AllOk(log, from);
        forall i | 0 <= i < DOMAIN_COUNT && slots[i] != null && Distance(start, i, DOMAIN_COUNT) < offset + 1
          ensures GivesShares(registry.config, registry.bound, v, Look(), i)
        {
          DistanceAt(start, i, DOMAIN_COUNT);
          SharesStay(registry.config, registry.bound, v, w, Look(), i);
        }
      }
    }

    /** A domain without mail has nothing to share out. */
    lemma NothingToShare(i: nat)
      requires Valid() && i < DOMAIN_COUNT && slots[i] != null && !DomainHasMail(i)
      ensures GivesShares(registry.config, registry.bound, Look(), Look(), i)
    {
      assert forall x: nat :: slots[i].Eligible(registry.kernel, x) ==
                              DP.Mailed(registry.config, registry.bound, DomainAt(i), registry.kernel, x);
    }

    /**
     Fairness of a stretch of pumping: in every bound domain, everybody with mail was
     served, or the domain's cursor came closer, or it stayed and the pump's did.
     */
    ghost predicate Fair(v: View, w: View, start: nat, cursor: nat)
      requires Shaped(registry.config, registry.bound, v) && Shaped(registry.config, registry.bound, w)
      requires start < DOMAIN_COUNT && cursor < DOMAIN_COUNT && |slots| == DOMAIN_COUNT
      reads this`slots, registry`bound
    {
      forall i :: 0 <= i < DOMAIN_COUNT && slots[i] != null ==>
                    || Closer(registry.config, registry.bound, v, w, i)
                    || Distance(cursor, i, DOMAIN_COUNT) < Distance(start, i, DOMAIN_COUNT)
    }

    /** A domain without mail has served everything it had at `v`. */
    lemma DrainedIsCloser(v: View, i: nat)
      requires Valid() && i < DOMAIN_COUNT && slots[i] != null && !DomainHasMail(i)
      requires Shaped(registry.config, registry.bound, v) && Moved(v.kernel, registry.kernel)
      ensures Closer(registry.config, registry.bound, v, Look(), i)
    {
      forall x: nat | DP.Mailed(registry.config, registry.bound, DomainAt(i), v.kernel, x)
        ensures Popped(registry.kernel, x) > Popped(v.kernel, x)
      {
        assert !slots[i].Eligible(registry.kernel, x);
      }
    }

    lemma ReachedStep(v: View, w: View, u: View, start: nat, offset: nat)
      requires Forward(registry.config, registry.bound, v, w) && Forward(registry.config, registry.bound, w, u)
      requires |slots| == DOMAIN_COUNT && start < DOMAIN_COUNT && offset < DOMAIN_COUNT && Reached(v, w, start, offset)
      requires
        var i := At(start, offset, DOMAIN_COUNT);
        slots[i] != null ==>
          || Closer(registry.config, registry.bound, v, w, i)
          || Closer(registry.config, registry.bound, w, u, i)
      ensures Forward(registry.config, registry.bound, v, u) && Reached(v, u, start, offset + 1)
    {
      ForwardTransitive(registry.config, registry.bound, v, w, u);
      forall i | 0 <= i < DOMAIN_COUNT && slots[i] != null && Distance(start, i, DOMAIN_COUNT) < offset + 1
        ensures Closer(registry.config, registry.bound, v, u, i)
      {
        DistanceAt(start, i, DOMAIN_COUNT);
      }
    }

    lemma StoppedFair(v: View, w: View, start: nat, o: nat)
      requires Shaped(registry.config, registry.bound, v) && Shaped(registry.config, registry.bound, w)
      requires |slots| == DOMAIN_COUNT && start < DOMAIN_COUNT && o < DOMAIN_COUNT && Reached(v, w, start, o + 1)
      ensures Fair(v, w, start, Advance(At(start, o, DOMAIN_COUNT), DOMAIN_COUNT))
    {
      forall i | 0 <= i < DOMAIN_COUNT && slots[i] != null && Distance(start, i, DOMAIN_COUNT) >= o + 1
        ensures Distance(Advance(At(start, o, DOMAIN_COUNT), DOMAIN_COUNT), i, DOMAIN_COUNT)
                < Distance(start, i, DOMAIN_COUNT)
      {
        CursorPast(start, o, i, DOMAIN_COUNT);
      }
    }

    lemma ForwardRefl()
      requires Valid()
      ensures Forward(registry.config, registry.bound, Look(), Look())
      ensures forall start :: 0 <= start < DOMAIN_COUNT ==> Reached(Look(), Look(), start, 0)
    {
    }

    /** Nothing to do at `offset`: no pump is bound there, or its domain has no mail. */
    lemma Skip(v: View, from: nat, start: nat, offset: nat)
      requires Valid() && start < DOMAIN_COUNT && offset < DOMAIN_COUNT
      requires Forward(registry.config, registry.bound, v, Look()) && Reached(v, Look(), start, offset)
      requires !DomainHasMail(At(start, offset, DOMAIN_COUNT))
      requires from <= |registry.log| && Shared(v, Look(), registry.log, from, start, offset)
      ensures Reached(v, Look(), start, offset + 1)
      ensures Shared(v, Look(), registry.log, from, start, offset + 1)
    {
      hide GivesShares, Closer;
      var i := At(start, offset, DOMAIN_COUNT);
      ForwardRefl();
      if slots[i] != null {
        DrainedIsCloser(v, i);
        NothingToShare(i);
      }
      SharedStep(v, Look(), registry.log, from, start, offset);
      ReachedStep(v, Look(), Look(), start, offset);
    }

    /** Give the domain at `offset` its turn and move the cursor past it. */
    method TurnAt(ghost v: View, ghost from: nat, start: nat, offset: nat)
      returns (rc: Result, messages: nat, ghost lost: nat)
      requires Valid() && start < DOMAIN_COUNT && offset < DOMAIN_COUNT
      requires DomainHasMail(At(start, offset, DOMAIN_COUNT))
      requires Forward(registry.config, registry.bound, v, Look()) && Reached(v, Look(), start, offset)
      requires from <= |registry.log| && Shared(v, Look(), registry.log, from, start, offset)
      modifies this`next, Pumps(), registry`world, registry`kernel, registry`log
      ensures Valid() && next == Advance(At(start, offset, DOMAIN_COUNT), DOMAIN_COUNT)
      ensures old(registry.log) <= registry.log && rc != ErrEmpty
      ensures messages <= DefaultOf(At(start, offset, DOMAIN_COUNT)) && (rc == Ok ==> messages > 0)
      ensures Traced(old(registry.Now()), messages, lost)
      ensures Forward(registry.config, registry.bound, v, Look()) && Reached(v, Look(), start, offset + 1)
      ensures Shared(v, Look(), registry.log, from, start, offset + 1)
      ensures rc != Ok ==> DP.Blamed(registry.log, |old(registry.log)|, rc)
    {
      hide Inv, BoxesValid, Look, Reached, Shared, GivesShares, Closer, Accounts, Forward, DP.DomainPump.HasMail;
      ghost var w, log := Look(), registry.log;
      var i := At(start, offset, DOMAIN_COUNT);
      rc, messages, lost := Turn(i);
      next := Advance(i, DOMAIN_COUNT);
      ReachedStep(v, w, Look(), start, offset);
      SharedStep(v, w, log, from, start, offset);
    }

    /** Look at the domain at one offset of a scan, and give it a turn if it has mail. */
    method Position(ghost v: View, ghost from: nat, start: nat, offset: nat, y: Tally)
      returns (stop: Option<DP.PassEnd>, z: Tally, ghost lost: nat)
      requires Valid() && start < DOMAIN_COUNT && offset < DOMAIN_COUNT && y.left > 0 && next < DOMAIN_COUNT
      requires Forward(registry.config, registry.bound, v, Look()) && Reached(v, Look(), start, offset)
      requires from <= |registry.log| && Shared(v, Look(), registry.log, from, start, offset)
      modifies this`next, this`stats, Pumps(), registry`world, registry`kernel, registry`log
      ensures Valid() && next < DOMAIN_COUNT && old(registry.log) <= registry.log
      ensures Forward(registry.config, registry.bound, v, Look()) && Reached(v, Look(), start, offset + 1)
      ensures Shared(v, Look(), registry.log, from, start, offset + 1)
      ensures stop == None ==> z.left > 0
      ensures z.left + 1 >= y.left && y.turns <= z.turns
      ensures y.examined <= z.examined && y.pumped <= z.pumped && z.pumped - y.pumped <= z.examined - y.examined
      ensures z.turns == y.turns ==>
                stop == None && registry.kernel == old(registry.kernel)
                && !MailFor(registry.kernel, At(start, offset, DOMAIN_COUNT))
      ensures stop.Some? && stop.value.Failed? ==>
                DP.Blamed(registry.log, |old(registry.log)|, stop.value.rc) && z.left > 0
      ensures stop.Some? ==> next == Advance(At(start, offset, DOMAIN_COUNT), DOMAIN_COUNT)
      ensures Booked(TurnLimit(), old(stats), stats, y, z, stop.Some? && stop.value.Failed?)
      ensures z.messages >= y.messages && Traced(old(registry.Now()), z.messages - y.messages, lost)
      ensures stop.Some? ==> if stop.value.Failed? then stop.value.rc != Ok && stop.value.rc != ErrEmpty
                             else stop.value.BudgetSpent? && z.left == 0
    {
      hide Forward, Reached, Shared, BoxesValid, Look, Accounts, DP.DomainPump.HasMail, DP.AllOk, DP.Blamed;
      TracedNothing();
      var i := At(start, offset, DOMAIN_COUNT);
      stop, z, lost := None, y, 0;
      DomainMailFor(i);
      if slots[i] == null {
        Skip(v, from, start, offset);
        return;
      }
      z := z.(examined := y.examined + 1);
      var n := slots[i].PendingMail();
      if n == 0 {
        Skip(v, from, start, offset);
        return;
      }
      var rc, messages;
      rc, messages, lost := TurnAt(v, from, start, offset);
      TimesAdds(1, 0, TurnLimit());
      stats := Book(stats, messages, rc != Ok);
      z := Tallied(z, messages, rc == Ok);
      stop := if rc != Ok then Some(DP.Failed(rc)) else if z.left == 0 then Some(DP.BudgetSpent) else None;
    }

    static function Book(st: Stats, messages: nat, failed: bool): Stats {
      st.(domainsPumped := st.domainsPumped + 1, messages := st.messages + messages,
          turns := if failed then st.turns + 1 else st.turns)
    }

    static function Tallied(y: Tally, messages: nat, charged: bool): Tally
      requires y.left > 0
    {
      Tally(if charged then y.left - 1 else y.left, y.examined, y.pumped + 1, y.turns + 1, y.messages + messages)
    }

    /** What `turns` turns of at most `limit` messages each may process. */
    static ghost function Times(turns: nat, limit: nat): nat {
      turns * limit
    }

    static lemma TimesAdds(a: nat, b: nat, limit: nat)
      ensures Times(a, limit) + Times(b, limit) == Times(a + b, limit)
      ensures Times(0, limit) == 0 && Times(1, limit) == limit
    {
    }

    /**
     The cumulative counters against the running report: domains and messages are
     exact at every moment; turns are booked one at a time only on failure.
     */
    static ghost predicate Booked(limit: nat, before: Stats, after: Stats, y: Tally, z: Tally, failed: bool) {
      && y.pumped <= z.pumped && y.messages <= z.messages && y.turns <= z.turns && z.left <= y.left
      && z.pumped - y.pumped == z.turns - y.turns
      && after.domainsPumped == before.domainsPumped + (z.pumped - y.pumped)
      && after.messages == before.messages + (z.messages - y.messages)
      && after.turns == before.turns + (if failed then 1 else 0)
      && after.runCalls == before.runCalls && after.budgetHits == before.budgetHits
      && after.emptyCalls == before.emptyCalls && after.lastTurnBudget == before.lastTurnBudget
      && y.left - z.left == z.turns - y.turns - (if failed then 1 else 0)
      && z.messages - y.messages <= Times(z.turns - y.turns, limit)
    }

    static lemma BookedNothing(limit: nat, st: Stats, y: Tally)
      ensures Booked(limit, st, st, y, y, false)
    {
      TimesAdds(0, 0, limit);
    }

    /** Turns taken without a failure are turns spent. */
    static lemma BookedSpends(limit: nat, a: Stats, b: Stats, y: Tally, z: Tally)
      requires Booked(limit, a, b, y, z, false) && z.turns > y.turns
      ensures z.left < y.left
    {
    }

    static lemma BookedTransitive(limit: nat, a: Stats, b: Stats, c: Stats, x: Tally, y: Tally, z: Tally, failed: bool)
      requires Booked(limit, a, b, x, y, false) && Booked(limit, b, c, y, z, failed)
      ensures Booked(limit, a, c, x, z, failed)
    {
      hide Times;
      TimesAdds(y.turns - x.turns, z.turns - y.turns, limit);
    }

    /** One scan over all domains from the cursor. */
    method Pass(y0: Tally) returns (end: DP.PassEnd, y: Tally, ghost lost: nat)
      requires Valid() && next < DOMAIN_COUNT && y0.left > 0
      modifies this`next, this`stats, Pumps(), registry`world, registry`kernel, registry`log
      ensures Valid() && next < DOMAIN_COUNT && old(registry.log) <= registry.log
      ensures Forward(registry.config, registry.bound, old(Look()), Look())
      ensures Fair(old(Look()), Look(), old(next), next)
      ensures end.FullPass? ==> Reached(old(Look()), Look(), old(next), DOMAIN_COUNT)
      ensures y0.left >= DOMAIN_COUNT ==>
                Shared(old(Look()), Look(), registry.log, |old(registry.log)|, old(next), DOMAIN_COUNT)
      ensures end.Failed? ==> DP.Blamed(registry.log, |old(registry.log)|, end.rc) && y.left > 0
      ensures y0.turns <= y.turns
      ensures y.turns == y0.turns ==> registry.kernel == old(registry.kernel) && !MailIn(registry.kernel)
      ensures y0.examined <= y.examined && y0.pumped <= y.pumped && y.pumped - y0.pumped <= y.examined - y0.examined
      ensures Booked(TurnLimit(), old(stats), stats, y0, y, end.Failed?)
      ensures y.messages >= y0.messages && Traced(old(registry.Now()), y.messages - y0.messages, lost)
      ensures if end.Failed? then end.rc != Ok && end.rc != ErrEmpty else y.left == 0 <==> end.BudgetSpent?
    {
      hide Shaped, Forward, Reached, Shared, Fair, Moved, BoxesValid, Accounts, DP.DomainPump.HasMail, DP.AllOk,
           DP.Blamed;
      hide Booked, Times, TurnLimit, DefaultOf, NoneHad, MailIn, MailFor, Registry.Leads, Rotation.Distance;
      ghost var v, from := Look(), |registry.log|;
      TracedNothing();
      var start := next;
      NothingShared(start);
      BookedNothing(TurnLimit(), stats, y0);
      NoneHadAtAll(registry.kernel, start);
      y, lost := y0, 0;
      ForwardRefl();
      var offset := 0;
      while offset < DOMAIN_COUNT
        invariant Valid() && next < DOMAIN_COUNT && offset <= DOMAIN_COUNT && y.left > 0
        invariant old(registry.log) <= registry.log
        invariant Forward(registry.config, registry.bound, v, Look()) && Reached(v, Look(), start, offset)
        invariant Shared(v, Look(), registry.log, from, start, offset) && y.left + offset >= y0.left
        invariant y0.turns <= y.turns
        invariant y.turns == y0.turns ==>
                    registry.kernel == v.kernel && NoneHad(registry.kernel, start, offset)
        invariant y0.examined <= y.examined && y0.pumped <= y.pumped
        invariant y.pumped - y0.pumped <= y.examined - y0.examined
        invariant Booked(TurnLimit(), old(stats), stats, y0, y, false)
        invariant y.messages >= y0.messages && Traced(old(registry.Now()), y.messages - y0.messages, lost)
      {
        var stop, z;
        ghost var l;
        ghost var st, m, before, sofar := stats, registry.Now(), y, lost;
        stop, z, l := Position(v, from, start, offset, y);
        TracedOn(old(registry.Now()), m, before.messages - y0.messages, sofar, z.messages - before.messages, l);
        if z.turns == y0.turns {
          NoneHadStep(registry.kernel, start, offset);
        }
        BookedTransitive(TurnLimit(), old(stats), st, stats, y0, y, z, stop.Some? && stop.value.Failed?);
        y, lost := z, lost + l;
        if stop.Some? {
          StoppedFair(v, Look(), start, offset);
          if stop.value.Failed? {
            FailureShares(v, from, start, |m.log|, stop.value.rc);
          }
          return stop.value, y, lost;
        }
        offset := offset + 1;
      }
      AllReachedIsFair(v, start, next);
      NoneHadAtAll(registry.kernel, start);
      return DP.FullPass, y, lost;
    }

    /** After a failure there is nothing to claim about shares. */
    lemma FailureShares(v: View, from: nat, start: nat, later: nat, rc: Result)
      requires Valid() && start < DOMAIN_COUNT && Shaped(registry.config, registry.bound, v)
      requires from <= later && DP.Blamed(registry.log, later, rc)
      ensures DP.Blamed(registry.log, from, rc)
      ensures Shared(v, Look(), registry.log, from, start, DOMAIN_COUNT)
    {
      DP.BlamedIsNotOk(registry.log, from, later, rc);
    }

    /** Every bound domain got its shares. */
    ghost predicate AllShared(v: View, w: View)
      requires Shaped(registry.config, registry.bound, v) && Shaped(registry.config, registry.bound, w)
      requires |slots| == DOMAIN_COUNT
      reads this`slots, registry`bound
    {
      forall i :: 0 <= i < DOMAIN_COUNT && slots[i] != null ==> GivesShares(registry.config, registry.bound, v, w, i)
    }

    lemma AllReachedGotShares(v: View, from: nat, start: nat)
      requires Valid() && start < DOMAIN_COUNT && Shaped(registry.config, registry.bound, v)
      requires Shared(v, Look(), registry.log, from, start, DOMAIN_COUNT)
      ensures DP.AllOk(registry.log, from) ==> AllShared(v, Look())
    {
      hide GivesShares;
    }

    lemma AllReachedIsFair(v: View, start: nat, cursor: nat)
      requires Valid() && Shaped(registry.config, registry.bound, v) && start < DOMAIN_COUNT && cursor < DOMAIN_COUNT
      requires Reached(v, Look(), start, DOMAIN_COUNT)
      ensures Fair(v, Look(), start, cursor)
    {
    }

    /** Once every bound domain came closer, further pumping cannot undo it. */
    lemma ReachedStays(v: View, w: View, start: nat, cursor: nat)
      requires Valid() && start < DOMAIN_COUNT && cursor < DOMAIN_COUNT
      requires Forward(registry.config, registry.bound, v, w) && Forward(registry.config, registry.bound, w, Look())
      requires Reached(v, w, start, DOMAIN_COUNT)
      ensures Forward(registry.config, registry.bound, v, Look())
      ensures Reached(v, Look(), start, DOMAIN_COUNT) && Fair(v, Look(), start, cursor)
    {
      ForwardTransitive(registry.config, registry.bound, v, w, Look());
      AllReachedIsFair(v, start, cursor);
    }

    /** Scan until the turns are spent, a handler fails, or a scan finds nothing to do. */
    method Scans(turnBudget: nat) returns (end: DP.PassEnd, y: Tally, ghost lost: nat)
      requires Valid() && next < DOMAIN_COUNT && turnBudget > 0
      modifies this`next, this`stats, Pumps(), registry`world, registry`kernel, registry`log
      ensures Valid() && next < DOMAIN_COUNT && old(registry.log) <= registry.log
      ensures Forward(registry.config, registry.bound, old(Look()), Look())
      ensures Fair(old(Look()), Look(), old(next), next)
      ensures Booked(TurnLimit(), old(stats), stats, Tally(turnBudget, 0, 0, 0, 0), y, end.Failed?)
      ensures Traced(old(registry.Now()), y.messages, lost)
      ensures turnBudget >= DOMAIN_COUNT ==>
                Shared(old(Look()), Look(), registry.log, |old(registry.log)|, old(next), DOMAIN_COUNT)
      ensures end.Failed? ==> end.rc != Ok && end.rc != ErrEmpty
      ensures !end.Failed? ==> y.left == 0 || !MailIn(registry.kernel)
      ensures y.pumped <= y.examined && (end.Failed? ==> y.left > 0)
      ensures end.Failed? ==> DP.Blamed(registry.log, |old(registry.log)|, end.rc)
      ensures y.turns == 0 ==> !MailIn(old(registry.kernel))
    {
      hide MailIn, Shaped, Forward, Reached, Shared, Fair, Moved, BoxesValid, Accounts, Look, DP.AllOk, DP.Blamed,
           Booked, Times, TurnLimit, DefaultOf, Registry.Leads, Rotation.Distance;
      ghost var v, from := Look(), |registry.log|;
      var start, y0 := next, Tally(turnBudget, 0, 0, 0, 0);
      end, y, lost := Pass(y0);
      var more := end.FullPass? && y.turns > 0;
      while more
        invariant Valid() && next < DOMAIN_COUNT && old(registry.log) <= registry.log
        invariant Forward(registry.config, registry.bound, v, Look()) && Fair(v, Look(), start, next)
        invariant more ==> Reached(v, Look(), start, DOMAIN_COUNT) && y.left > 0 && !end.Failed?
        invariant Booked(TurnLimit(), old(stats), stats, y0, y, end.Failed?)
        invariant Traced(old(registry.Now()), y.messages, lost)
        invariant turnBudget >= DOMAIN_COUNT ==> Shared(v, Look(), registry.log, from, start, DOMAIN_COUNT)
        invariant end.Failed? ==> end.rc != Ok && end.rc != ErrEmpty
        invariant !more && !end.Failed? ==> y.left == 0 || !MailIn(registry.kernel)
        invariant y.pumped <= y.examined && (end.Failed? ==> y.left > 0)
        invariant end.Failed? ==> DP.Blamed(registry.log, from, end.rc)
        invariant y.turns == 0 ==> !MailIn(old(registry.kernel))
        decreases more, y.left
      {
        ghost var w, st, m, log := Look(), stats, registry.Now(), registry.log;
        var z;
        ghost var l;
        end, z, l := Pass(y);
        TracedOn(old(registry.Now()), m, y.messages, lost, z.messages - y.messages, l);
        ReachedStays(v, w, start, next);
        if turnBudget >= DOMAIN_COUNT {
          SharedStays(v, w, log, from, start, DOMAIN_COUNT);
        }
        if end.Failed? {
          FailureShares(v, from, start, |log|, end.rc);
        }
        BookedTransitive(TurnLimit(), old(stats), st, stats, y0, y, z, end.Failed?);
        more := end.FullPass? && z.turns > y.turns;
        if more {
          BookedSpends(TurnLimit(), st, stats, y, z);
        }
        y, lost := z, lost + l;
      }
    }

    ghost predicate HasMail()
      requires Valid()
      reads this`slots, registry
    {
      exists i :: 0 <= i < DOMAIN_COUNT && DomainHasMail(i)
    }

    /** The part of a run after it found mail. */
    method RunPending(turnBudget: nat, before: nat) returns (rc: Result, report: Report, ghost lost: nat)
      requires Valid() && turnBudget > 0 && next < DOMAIN_COUNT
      modifies this`next, this`stats, Pumps(), registry`world, registry`kernel, registry`log
      ensures Valid() && next < DOMAIN_COUNT && old(registry.log) <= registry.log && rc != ErrEmpty
      ensures Forward(registry.config, registry.bound, old(Look()), Look())
      ensures Fair(old(Look()), Look(), old(next), next)
      ensures turnBudget >= DOMAIN_COUNT && DP.AllOk(registry.log, |old(registry.log)|) ==>
                AllShared(old(Look()), Look())
      ensures Totals(old(stats), stats, rc, report) && (rc == Ok ==> 0 < report.turns <= turnBudget)
      ensures Traced(old(registry.Now()), report.messages, lost)
      ensures report.pendingAfter == MailOf(DOMAIN_COUNT) && (report.pendingAfter > 0 <==> HasMail())
      ensures report.exhausted <==> rc == Ok && report.turns == turnBudget && report.pendingAfter > 0
      ensures rc == Ok ==> report.turns == turnBudget || report.pendingAfter == 0
      ensures report.turns <= turnBudget && report.messages <= Times(report.turns, TurnLimit())
      ensures old(HasMail()) && rc != Ok ==> DP.Blamed(registry.log, |old(registry.log)|, rc)
      ensures Reported(report, turnBudget, before, rc) && LastBooked(old(stats), stats, rc, report)
    {
      hide Shaped, Forward, Fair, Shared, AllShared, Moved, Inv, BoxesValid, Look, HasMail, MailOf, MailIn, Accounts,
           DP.AllOk, DP.Blamed;
      hide DP.DomainPump.HasMail, TurnLimit, DefaultOf;
      ghost var v0, start := Look(), next;
      HasMailIn();
      var end, y;
      end, y, lost := Scans(turnBudget);
      if turnBudget >= DOMAIN_COUNT {
        AllReachedGotShares(v0, |old(registry.log)|, start);
      }
      var after := PendingMail();
      if !end.Failed? {
        stats := stats.(turns := stats.turns + y.turns);
      }
      HasMailIn();
      var v := DP.DomainPump<W>.Verdict(end, y.turns, y.left, after);
      rc := v.0;
      report := Report(turnBudget, before, after, y.examined, y.pumped, y.turns, y.messages, v.1, v.2);
      stats := stats.(lastTurns := y.turns, lastResult := rc,
                      budgetHits := if v.1 then stats.budgetHits + 1 else stats.budgetHits);
    }

    /**
     Cumulative counters against the report: domains and messages add up on every
     path; turns add up except after a failure, where exactly one is booked.
     */
    static ghost predicate Totals(before: Stats, after: Stats, rc: Result, report: Report) {
      && after.domainsPumped == before.domainsPumped + report.domainsPumped
      && after.messages == before.messages + report.messages
      && (rc == Ok || report.turns == 0 ==> after.turns == before.turns + report.turns)
      && (rc != Ok && report.turns > 0 ==> after.turns == before.turns + 1)
    }

    /** What the report says about the way a run ended. */
    static ghost predicate Reported(report: Report, turnBudget: nat, before: nat, rc: Result) {
      && report.turnBudget == turnBudget && report.pendingBefore == before
      && report.turns == report.domainsPumped <= report.domainsExamined
      && report.stopResult == if rc == Ok && !report.exhausted then ErrEmpty else rc
    }

    /** The counters about the last run, and how often a budget was exhausted. */
    static ghost predicate LastBooked(before: Stats, after: Stats, rc: Result, report: Report) {
      && after.lastTurns == report.turns && after.lastResult == rc && after.lastTurnBudget == before.lastTurnBudget
      && after.budgetHits == before.budgetHits + (if report.exhausted then 1 else 0)
      && after.runCalls == before.runCalls && after.emptyCalls == before.emptyCalls
    }

    /** The counters once a run has looked for mail, and found none if `empty` is one. */
    static function Called(before: Stats, turnBudget: nat, empty: nat): Stats {
      before.(runCalls := before.runCalls + 1, lastTurnBudget := turnBudget, lastTurns := 0,
              emptyCalls := before.emptyCalls + empty,
              lastResult := if empty > 0 then ErrEmpty else before.lastResult)
    }

    static lemma TotalsNothing(before: Stats, after: Stats)
      requires after.domainsPumped == before.domainsPumped && after.messages == before.messages
      requires after.turns == before.turns
      ensures forall rc, r: Report :: r.domainsPumped == r.messages == r.turns == 0 ==> Totals(before, after, rc, r)
    {
    }

    static lemma TotalsAfter(before: Stats, between: Stats, after: Stats, rc: Result, r: Report)
      requires between.domainsPumped == before.domainsPumped && between.messages == before.messages
      requires between.turns == before.turns && Totals(between, after, rc, r)
      ensures Totals(before, after, rc, r)
    {
    }

    static lemma ReportedNothing(r: Report)
      requires r == Report(r.turnBudget, 0, 0, 0, 0, 0, 0, false, ErrEmpty)
      ensures Reported(r, r.turnBudget, 0, ErrEmpty)
    {
    }

    lemma UnboundHasNoMail()
      requires Valid() && Unbound()
      ensures !HasMail()
    {
    }

    /** One system run on a budget of turns. */
    method Run(turnBudget: nat) returns (rc: Result, report: Report, ghost lost: nat)
      requires Valid()
      modifies this`next, this`stats, Pumps(), registry`world, registry`kernel, registry`log
      ensures Valid() && old(registry.log) <= registry.log
      ensures old(Inv(registry.kernel)) && registry.BehavedSince(old(registry.Now())) ==> Inv(registry.kernel)
      ensures turnBudget == 0 ==> rc == ErrInvalidArg
      ensures turnBudget > 0 && Unbound() ==> rc == ErrState
      ensures turnBudget > 0 && !Unbound() ==> (rc == ErrEmpty <==> !old(HasMail()))
      ensures Totals(old(stats), stats, rc, report)
      ensures turnBudget > 0 && !Unbound() ==>
                && Reported(report, turnBudget, old(MailOf(DOMAIN_COUNT)), rc)
                && if rc == ErrEmpty then stats == Called(old(stats), turnBudget, 1)
                   else LastBooked(Called(old(stats), turnBudget, 0), stats, rc, report)
      ensures turnBudget == 0 || Unbound() ==> stats == old(stats)
      ensures rc == Ok ==> report.turns == turnBudget || (report.pendingAfter == 0 && !HasMail())
      ensures Traced(old(registry.Now()), report.messages, lost)
      ensures report.exhausted ==> rc == Ok && HasMail()
      ensures !(turnBudget > 0 && old(HasMail())) ==> Look() == old(Look()) && report.messages == 0
      ensures turnBudget > 0 && old(HasMail()) ==>
                && next < DOMAIN_COUNT && (rc == Ok ==> 0 < report.turns <= turnBudget)
                && Forward(registry.config, registry.bound, old(Look()), Look())
                && Fair(old(Look()), Look(), if old(next) < DOMAIN_COUNT then old(next) else 0, next)
                && (turnBudget >= DOMAIN_COUNT && DP.AllOk(registry.log, |old(registry.log)|) ==>
                      AllShared(old(Look()), Look()))
                && (report.exhausted <==> rc == Ok && report.turns == turnBudget && HasMail())
                && report.pendingAfter == MailOf(DOMAIN_COUNT) && (report.pendingAfter > 0 <==> HasMail())
                && report.turns <= turnBudget && report.messages <= Times(report.turns, TurnLimit())
                && (rc != Ok ==> DP.Blamed(registry.log, |old(registry.log)|, rc))
    {
      hide Shaped, Forward, Fair, AllShared, Moved, Inv, BoxesValid, Look, HasMail, DomainHasMail, Accounts;
      hide MailOf, DP.AllOk, DP.Blamed, Registry.BehavedSince, Totals, LastBooked, Reported, Registry.Leads, Times,
           TurnLimit, DefaultOf, Rotation.Distance, DP.DomainPump.HasMail;
      TracedNothing();
      TotalsNothing(stats, stats);
      report := Report(turnBudget, 0, 0, 0, 0, 0, 0, false, Ok);
      if turnBudget == 0 {
        return ErrInvalidArg, report, 0;
      }
      var bound := BoundCount();
      if bound == 0 {
        UnboundHasNoMail();
        return ErrState, report, 0;
      }
      stats := stats.(runCalls := stats.runCalls + 1, lastTurnBudget := turnBudget, lastTurns := 0);
      ghost var between := stats;
      var before := PendingMail();
      if before == 0 {
        stats := stats.(emptyCalls := stats.emptyCalls + 1, lastResult := ErrEmpty);
        TotalsNothing(old(stats), stats);
        report := report.(stopResult := ErrEmpty);
        ReportedNothing(report);
        return ErrEmpty, report, 0;
      }
      if next >= DOMAIN_COUNT {
        next := 0;
      }
      rc, report, lost := RunPending(turnBudget, before);
      TotalsAfter(old(stats), between, stats, rc, report);
      TracedKeeps(old(registry.Now()), report.messages, lost);
    }

    /** The scheduler's poll: a run that spent its turns with mail left is partial. */
    method PollOnce(turnBudget: nat) returns (rc: Result, report: Report, ghost lost: nat)
      requires Valid()
      modifies this`next, this`stats, this`pollCalls, this`partialReturns
      modifies Pumps(), registry`world, registry`kernel, registry`log
      ensures Valid() && old(registry.log) <= registry.log
      ensures pollCalls == old(pollCalls) + 1
      ensures partialReturns == old(partialReturns) + if report.exhausted then 1 else 0
      ensures old(Inv(registry.kernel)) && registry.BehavedSince(old(registry.Now())) ==> Inv(registry.kernel)
      ensures turnBudget == 0 ==> rc == ErrInvalidArg
      ensures turnBudget > 0 && Unbound() ==> rc == ErrState
      ensures turnBudget > 0 && !Unbound() ==> (rc == ErrEmpty <==> !old(HasMail()))
      ensures Traced(old(registry.Now()), report.messages, lost)
      ensures Totals(old(stats), stats, if report.exhausted then Ok else rc, report)
      ensures turnBudget > 0 && !Unbound() ==>
                Reported(report, turnBudget, old(MailOf(DOMAIN_COUNT)), if report.exhausted then Ok else rc)
      ensures report.exhausted ==> rc == ErrPartial
      ensures report.exhausted ==> turnBudget > 0 && old(HasMail()) && report.turns == turnBudget && HasMail()
      ensures turnBudget > 0 && old(HasMail()) && rc == Ok ==> report.pendingAfter == 0 && !HasMail()
      ensures turnBudget > 0 && old(HasMail()) ==>
                && report.turns <= turnBudget && report.messages <= Times(report.turns, TurnLimit())
                && (rc != Ok && !report.exhausted ==> DP.Blamed(registry.log, |old(registry.log)|, rc))
      ensures !(turnBudget > 0 && old(HasMail())) ==> Look() == old(Look())
      ensures turnBudget > 0 && old(HasMail()) ==>
                && next < DOMAIN_COUNT && (rc == Ok ==> 0 < report.turns <= turnBudget)
                && Forward(registry.config, registry.bound, old(Look()), Look())
                && Fair(old(Look()), Look(), if old(next) < DOMAIN_COUNT then old(next) else 0, next)
                && (turnBudget >= DOMAIN_COUNT && DP.AllOk(registry.log, |old(registry.log)|) ==>
                      AllShared(old(Look()), Look()))
    {
      hide Forward, Fair, AllShared, BoxesValid, Look, Accounts, Totals, HasMail, Inv, DP.AllOk, DP.Blamed;
      hide Registry.BehavedSince, MailOf, Reported, LastBooked, Times, TurnLimit;
      pollCalls := pollCalls + 1;
      rc, report, lost := Run(turnBudget);
      if report.exhausted {
        partialReturns := partialReturns + 1;
        return ErrPartial, report, lost;
      }
    }

    /** One system run between two views, as `Run` leaves it. */
    ghost predicate RunStep(v: View, w: View, start: nat, cursor: nat)
      reads this`slots, registry`bound
    {
      && |slots| == DOMAIN_COUNT && start < DOMAIN_COUNT && cursor < DOMAIN_COUNT
      && Forward(registry.config, registry.bound, v, w) && Fair(v, w, start, cursor)
    }

    /** Lexicographic distance to actor `x` of domain `i`: first the domain's cursor, then the system's. */
    static ghost function Remaining(config: Config, bound: seq<bool>, v: View, start: nat, i: nat, x: nat): (d: nat)
      requires i < DOMAIN_COUNT && x < |bound|
      ensures d < DOMAIN_COUNT * |bound|
    {
      if Shaped(config, bound, v) && start < DOMAIN_COUNT
      then Distance(v.cursors[i], x, |bound|) * DOMAIN_COUNT + Distance(start, i, DOMAIN_COUNT)
      else 0
    }

    static ghost predicate Served(v: View, w: View, x: nat) {
      x < |v.kernel.boxes| && x < |w.kernel.boxes| && Popped(w.kernel, x) > Popped(v.kernel, x)
    }

    /** A run with mail waiting for `x`. */
    ghost predicate WaitingRun(v: View, w: View, start: nat, cursor: nat, i: nat, x: nat)
      requires i < DOMAIN_COUNT
      reads this`slots, registry`bound
    {
      RunStep(v, w, start, cursor) && DP.Mailed(registry.config, registry.bound, DomainAt(i), v.kernel, x)
    }

    lemma RunShortens(v: View, w: View, start: nat, cursor: nat, i: nat, x: nat)
      requires i < DOMAIN_COUNT && WaitingRun(v, w, start, cursor, i, x) && slots[i] != null
      ensures
        || Served(v, w, x)
        || Remaining(registry.config, registry.bound, w, cursor, i, x)
           < Remaining(registry.config, registry.bound, v, start, i, x)
    {
      assert NoWorse(registry.config, registry.bound, v, w, i);
    }

    /** Between runs only the kernel changes, so the next run starts from the shortened distance. */
    lemma StepShortens(v: View, w: View, start: nat, cursor: nat, u: View, u': View, cursor': nat, i: nat, x: nat)
      requires |slots| == DOMAIN_COUNT && i < DOMAIN_COUNT && slots[i] != null && u.cursors == w.cursors
      requires WaitingRun(v, w, start, cursor, i, x) && WaitingRun(u, u', cursor, cursor', i, x)
      ensures
        || Served(v, w, x)
        || Remaining(registry.config, registry.bound, u, cursor, i, x)
           < Remaining(registry.config, registry.bound, v, start, i, x)
    {
      RunShortens(v, w, start, cursor, i, x);
    }

    /**
     Bounded waiting across the whole scheduler.  Take any series of system runs, with
     anything but pumping in between.  If actor `x` of a bound domain has mail before
     each of them, one of the first `domain count * actor count` runs serves it,
     whatever the turn budgets and whichever handlers fail.
     */
    lemma WaitingIsBounded(before: seq<View>, after: seq<View>, cursors: seq<nat>, i: nat, x: nat)
      requires Valid() && i < DOMAIN_COUNT && slots[i] != null && x < |registry.bound|
      requires |before| == |after| == DOMAIN_COUNT * |registry.bound| && |cursors| == |before| + 1
      requires forall k :: 0 <= k < |before| ==> WaitingRun(before[k], after[k], cursors[k], cursors[k + 1], i, x)
      requires forall k :: 0 < k < |before| ==> before[k].cursors == after[k - 1].cursors
      ensures exists k :: 0 <= k < |before| && Served(before[k], after[k], x)
    {
      hide Served, WaitingRun;
      var n := |before|;
      var served := seq(n, k requires 0 <= k < n => Served(before[k], after[k], x));
      var config, bound := registry.config, registry.bound;
      var distance := seq(n + 1, k requires 0 <= k <= n =>
        if k < n then Remaining(config, bound, before[k], cursors[k], i, x)
        else Remaining(config, bound, after[n - 1], cursors[n], i, x));
      forall k | 0 <= k < n
        ensures served[k] || distance[k + 1] < distance[k]
      {
        if k + 1 < n {
          StepShortens(before[k], after[k], cursors[k], cursors[k + 1], before[k + 1], after[k + 1], cursors[k + 2], i,
                       x);
        } else {
          RunShortens(before[k], after[k], cursors[k], cursors[k + 1], i, x);
        }
      }
      BoundedWaiting(distance, served);
      var k :| 0 <= k <= distance[0] && served[k];
      assert Served(before[k], after[k], x);
    }

    /** Actor `x` of domain `i` has mail. */
    ghost predicate Waits(i: nat, x: nat)
      requires Valid() && i < DOMAIN_COUNT
      reads this`slots, registry
    {
      DP.Mailed(registry.config, registry.bound, DomainAt(i), registry.kernel, x)
    }

    /** How far the cursors are from actor `x` of domain `i`. */
    ghost function Away(i: nat, x: nat): (d: nat)
      requires Valid() && i < DOMAIN_COUNT && x < |registry.bound|
      reads this`slots, this`next, registry, Pumps()
      ensures d < DOMAIN_COUNT * |registry.bound|
    {
      Remaining(registry.config, registry.bound, Look(), if next < DOMAIN_COUNT then next else 0, i, x)
    }

    /** One system run serves a waiting actor or brings the cursors closer to it. */
    method RunTowards(i: nat, x: nat, turnBudget: nat)
      requires Valid() && i < DOMAIN_COUNT && slots[i] != null && Waits(i, x) && turnBudget > 0
      modifies this`next, this`stats, Pumps(), registry`world, registry`kernel, registry`log
      ensures Valid() && x < |registry.bound| && Popped(registry.kernel, x) >= Popped(old(registry.kernel), x)
      ensures Popped(registry.kernel, x) == Popped(old(registry.kernel), x) ==>
                Waits(i, x) && Away(i, x) < old(Away(i, x))
    {
      hide BoxesValid, Registry.BehavedSince, Inv, Traced, Totals, Forward, Fair, Look;
      ghost var v, start := Look(), if next < DOMAIN_COUNT then next else 0;
      WaitingIsMail(i, x);
      var rc, report;
      ghost var lost;
      rc, report, lost := Run(turnBudget);
      RunServesOrShortens(v, start, i, x);
    }

    lemma WaitingIsMail(i: nat, x: nat)
      requires Valid() && i < DOMAIN_COUNT && slots[i] != null && Waits(i, x)
      ensures HasMail() && Look().kernel == registry.kernel
    {
      assert slots[i].Eligible(registry.kernel, x);
      assert DomainHasMail(i);
    }

    lemma RunServesOrShortens(v: View, start: nat, i: nat, x: nat)
      requires Valid() && i < DOMAIN_COUNT && slots[i] != null && start < DOMAIN_COUNT && next < DOMAIN_COUNT
      requires Shaped(registry.config, registry.bound, v)
               && DP.Mailed(registry.config, registry.bound, DomainAt(i), v.kernel, x)
      requires Forward(registry.config, registry.bound, v, Look()) && Fair(v, Look(), start, next)
      ensures x < |registry.bound| && x < |v.kernel.boxes| && Popped(registry.kernel, x) >= Popped(v.kernel, x)
      ensures Popped(registry.kernel, x) == Popped(v.kernel, x) ==>
                Waits(i, x) && Away(i, x) < Remaining(registry.config, registry.bound, v, start, i, x)
    {
      hide Closer, NoWorse;
      assert WaitingRun(v, Look(), start, next, i, x);
      RunShortens(v, Look(), start, next, i, x);
    }

    /** What acts on the kernel between runs takes no mail away and moves no cursor. */
    method InterfereBeside(i: nat, x: nat, acts: seq<ClientAction>, w: W)
      requires Valid() && i < DOMAIN_COUNT && Waits(i, x)
      modifies registry`world, registry`kernel
      ensures Valid() && Waits(i, x) && Popped(registry.kernel, x) == Popped(old(registry.kernel), x)
      ensures Away(i, x) == old(Away(i, x))
    {
      hide BoxesValid;
      registry.Interfere(acts, w);
    }

    /**
     Bounded waiting, run by run: whatever acts on the kernel before each run, whatever
     the turn budgets and however handlers fail, `domain count * actor count` runs serve
     an actor of a bound domain that has mail at the start.
     */
    method RunsServe(i: nat, x: nat, turnBudgets: seq<nat>, between: seq<(seq<ClientAction>, W)>)
      requires Valid() && i < DOMAIN_COUNT && slots[i] != null && Waits(i, x)
      requires |turnBudgets| == |between| == DOMAIN_COUNT * |registry.bound|
      requires forall k :: 0 <= k < |turnBudgets| ==> turnBudgets[k] > 0
      modifies this`next, this`stats, Pumps(), registry`world, registry`kernel, registry`log
      ensures Valid() && x < |registry.kernel.boxes| && Popped(registry.kernel, x) > Popped(old(registry.kernel), x)
    {
      hide BoxesValid, Remaining, Look;
      var served := Popped(registry.kernel, x);
      for k := 0 to |turnBudgets|
        invariant Valid() && Popped(registry.kernel, x) >= served
        invariant Popped(registry.kernel, x) == served ==>
                    Waits(i, x) && Away(i, x) + k < DOMAIN_COUNT * |registry.bound|
      {
        if Popped(registry.kernel, x) > served {
          return;
        }
        InterfereBeside(i, x, between[k].0, between[k].1);
        RunTowards(i, x, turnBudgets[k]);
      }
    }
  }
}
