/**
 Budgeted round robin over the actors of one execution domain
 (`core/src/ev_domain_pump.c`).
 */
module DomainPump {
  import opened Results
  import opened Messages
  import opened Ownership
  import opened ActorRuntime
  import opened Rotation

  datatype Report = Report(
    budget: nat,
    pendingBefore: nat,
    pendingAfter: nat,
    processed: nat,
    actorsExamined: nat,
    actorsPumped: nat,
    exhausted: bool,
    stopResult: Result)

  datatype Stats = Stats(
    pumpCalls: nat, emptyCalls: nat, budgetHits: nat, lastBudget: nat, lastProcessed: nat, lastResult: Result)

  /** Why a scan over the actors ended. */
  datatype PassEnd = FullPass | BudgetSpent | Failed(rc: Result)

  /** Running totals of a scan: budget left, actors looked at and pumped, messages processed. */
  datatype Tally = Tally(left: nat, examined: nat, pumped: nat, processed: nat)

  /** Mail waiting in a domain, and the weight each actor has in the default budget. */
  function Weights(config: Config, d: Domain): (w: seq<nat>)
    requires |config.domains| == |config.drain|
    ensures |w| == |config.drain|
    ensures forall i :: 0 <= i < |w| ==> w[i] == if config.domains[i] == d then config.drain[i] else 0
  {
    seq(|config.drain|, i requires 0 <= i < |config.drain| => if config.domains[i] == d then config.drain[i] else 0)
  }

  ghost function Waiting(config: Config, bound: seq<bool>, s: State, d: Domain): (w: seq<nat>)
    requires |config.domains| == |bound| == |s.boxes|
    ensures |w| == |bound|
    ensures forall i :: 0 <= i < |w| ==> w[i] == if config.domains[i] == d && bound[i] then Pending(s, i) else 0
  {
    seq(|bound|, i requires 0 <= i < |bound| => if config.domains[i] == d && bound[i] then Pending(s, i) else 0)
  }

  /** Actor `x` is bound in domain `d` and has mail. */
  ghost predicate Mailed(config: Config, bound: seq<bool>, d: Domain, s: State, x: nat)
    requires |s.boxes| == |bound| == |config.domains|
  {
    x < |bound| && bound[x] && config.domains[x] == d && Pending(s, x) > 0
  }

  lemma {:induction false} SumIsZero(w: seq<nat>)
    ensures Sum(w) == 0 <==> forall i :: 0 <= i < |w| ==> w[i] == 0
  {
    if w != [] {
      SumIsZero(w[1..]);
      assert forall i :: 0 < i < |w| ==> w[i] == w[1..][i - 1];
    }
  }

  // ----- what a stretch of pumping did, between two kernel states -----

  /** At least the smaller of what waited in `s` and `x`'s drain budget was popped by `t`. */
  ghost predicate FairShare(s: State, t: State, x: nat, drain: nat)
    requires x < |s.boxes| == |t.boxes|
  {
    Popped(t, x) >= Popped(s, x) + Min(Pending(s, x), drain)
  }

  /** Every successful call. */
  ghost predicate AllOk(log: seq<Call>, from: nat) {
    forall j :: from <= j < |log| ==> log[j].rc == Ok
  }

  ghost predicate NoneEmpty(log: seq<Call>, from: nat) {
    forall j :: from <= j < |log| ==> log[j].rc != ErrEmpty
  }

  /** The error `rc` is the last call's, or says that calls since `from` were lost to an empty error. */
  ghost predicate Blamed(log: seq<Call>, from: nat, rc: Result) {
    && rc != Ok && from < |log|
    && (log[|log| - 1].rc == rc || (rc == ErrState && !NoneEmpty(log, from)))
  }

  lemma BlamedIsNotOk(log: seq<Call>, from: nat, later: nat, rc: Result)
    requires from <= later && Blamed(log, later, rc)
    ensures Blamed(log, from, rc) && !AllOk(log, from) && !AllOk(log, later)
  {
  }

  class DomainPump<W> {
    const registry: Registry<W>
    const domain: Domain
    var next: nat
    var stats: Stats

    ghost predicate Valid()
      reads registry
    {
      registry.Valid() && |registry.bound| > 0
    }

    constructor (registry: Registry<W>, domain: Domain)
      requires registry.Valid() && |registry.bound| > 0
      ensures Valid() && this.registry == registry && this.domain == domain && next == 0
    {
      this.registry, this.domain, next := registry, domain, 0;
      stats := Stats(0, 0, 0, 0, 0, Ok);
    }

    /** An actor this pump serves, with mail in state `s`. */
    ghost predicate Eligible(s: State, x: nat)
      requires |s.boxes| == |registry.bound| == |registry.config.domains|
      reads registry`bound
    {
      Mailed(registry.config, registry.bound, domain, s, x)
    }

    ghost predicate HasMail()
      requires Valid()
      reads registry
    {
      exists x: nat :: Eligible(registry.kernel, x)
    }

    method DefaultBudget() returns (total: nat)
      requires Valid()
      ensures total == Sum(Weights(registry.config, domain))
    {
      var w := Weights(registry.config, domain);
      total := 0;
      for i := 0 to |w|
        invariant total + Sum(w[i..]) == Sum(w)
      {
        total := total + w[i];
      }
    }

    method PendingMail() returns (total: nat)
      requires Valid()
      ensures total == Sum(Waiting(registry.config, registry.bound, registry.kernel, domain))
      ensures total > 0 <==> HasMail()
    {
      ghost var w := Waiting(registry.config, registry.bound, registry.kernel, domain);
      total := 0;
      for i := 0 to |registry.bound|
        invariant total + Sum(w[i..]) == Sum(w)
      {
        if registry.config.domains[i] == domain && registry.bound[i] {
          total := total + |registry.kernel.boxes[i].entries|;
        }
      }
      SumIsZero(w);
      if total > 0 {
        ghost var i :| 0 <= i < |w| && w[i] != 0;
        assert Eligible(registry.kernel, i);
      }
      if exists x: nat :: Eligible(registry.kernel, x) {
        ghost var x: nat :| Eligible(registry.kernel, x);
        assert w[x] > 0;
      }
    }

    // ----- one scan -----

    /** Everything eligible in `s` that the scan reached within `offset` steps was served by `t`. */
    ghost predicate Reached(s: State, t: State, start: nat, offset: nat)
      requires |s.boxes| == |t.boxes| == |registry.bound| == |registry.config.domains| && start < |registry.bound|
      reads registry`bound
    {
      forall x: nat :: Eligible(s, x) && Distance(start, x, |registry.bound|) < offset ==> Popped(t, x) > Popped(s, x)
    }

    /** ... and got its fair share. */
    ghost predicate Shared(s: State, t: State, start: nat, offset: nat)
      requires |s.boxes| == |t.boxes| == |registry.bound| == |registry.config.domains| == |registry.config.drain|
      requires start < |registry.bound|
      reads registry`bound
    {
      forall x: nat :: Eligible(s, x) && Distance(start, x, |registry.bound|) < offset ==>
                    FairShare(s, t, x, registry.config.drain[x])
    }

    /** Everything eligible in `s` was served by `t`, or the cursor came strictly closer to it. */
    ghost predicate Fair(s: State, t: State, cursor: nat, cursor': nat)
      requires |s.boxes| == |t.boxes| == |registry.bound| == |registry.config.domains|
      requires cursor < |registry.bound| && cursor' < |registry.bound|
      reads registry`bound
    {
      forall x: nat :: Eligible(s, x) ==>
                    || Popped(t, x) > Popped(s, x)
                    || Distance(cursor', x, |registry.bound|) < Distance(cursor, x, |registry.bound|)
    }

    /** The cursor stands behind the actor called last, or where it was at `start` if none was called. */
    ghost predicate Follows(log: seq<Call>, from: nat, start: nat, cursor: nat)
      requires |registry.bound| > 0
      reads registry`bound
    {
      && from <= |log|
      && if |log| == from then cursor == start
         else log[|log| - 1].actor < |registry.bound| && cursor == Advance(log[|log| - 1].actor, |registry.bound|)
    }

    /** Mail of actors this pump does not serve stays where it is. */
    ghost predicate OthersUntouched(s: State, t: State)
      requires |s.boxes| == |t.boxes| == |registry.bound| == |registry.config.domains|
      reads registry`bound
    {
      forall x :: 0 <= x < |s.boxes| && !(registry.bound[x] && registry.config.domains[x] == domain) ==>
                    Popped(t, x) == Popped(s, x)
    }

    /** Pump the actor at `index` for its drain budget or what remains of the run's. */
    method Visit(index: nat, remaining: nat) returns (rc: Result, processed: nat)
      requires Valid() && Eligible(registry.kernel, index) && remaining > 0
      modifies this`next, registry`world, registry`kernel, registry`log
      ensures Valid() && next == Advance(index, |registry.bound|) && registry.Since(old(registry.Now()))
      ensures 0 < processed <= remaining && processed <= registry.config.drain[index]
      ensures rc == Ok ==>
                processed == Min(registry.config.drain[index], remaining) || Pending(registry.kernel, index) == 0
      ensures Moved(old(registry.kernel), registry.kernel)
      ensures PoppedOnly(old(registry.kernel), registry.kernel, index, processed)
      ensures old(registry.log) <= registry.log && CalledOnly(registry.log, |old(registry.log)|, index, processed, rc)
      ensures rc == Ok && registry.config.drain[index] <= remaining ==>
                FairShare(old(registry.kernel), registry.kernel, index, registry.config.drain[index])
    {
      var budget := Min(registry.config.drain[index], remaining);
      rc, processed := registry.Pump(index, budget);
      next := Advance(index, |registry.bound|);
    }

    // ----- extending a scan by one position -----

    lemma ReachedStep(s: State, t: State, u: State, start: nat, offset: nat)
      requires |s.boxes| == |t.boxes| == |u.boxes| == |registry.bound| == |registry.config.domains|
      requires start < |registry.bound| && offset < |registry.bound|
      requires Moved(s, t) && Moved(t, u) && Reached(s, t, start, offset)
      requires
        var i := At(start, offset, |registry.bound|);
        Eligible(t, i) ==> Popped(u, i) > Popped(t, i)
      ensures Reached(s, u, start, offset + 1)
    {
      forall x: nat | Eligible(s, x) && Distance(start, x, |registry.bound|) < offset + 1
        ensures Popped(u, x) > Popped(s, x)
      {
        DistanceAt(start, x, |registry.bound|);
      }
    }

    lemma SharedStep(s: State, t: State, u: State, start: nat, offset: nat)
      requires |s.boxes| == |t.boxes| == |u.boxes| == |registry.bound| == |registry.config.domains| ==
               |registry.config.drain|
      requires start < |registry.bound| && offset < |registry.bound|
      requires Moved(s, t) && Moved(t, u) && Shared(s, t, start, offset)
      requires
        var i := At(start, offset, |registry.bound|);
        Eligible(t, i) ==> FairShare(t, u, i, registry.config.drain[i])
      ensures Shared(s, u, start, offset + 1)
    {
      forall x: nat | Eligible(s, x) && Distance(start, x, |registry.bound|) < offset + 1
        ensures FairShare(s, u, x, registry.config.drain[x])
      {
        DistanceAt(start, x, |registry.bound|);
      }
    }

    /** A scan that stops after serving offset `o` is fair; so is one that came all the way round. */
    lemma StoppedFair(s: State, t: State, start: nat, o: nat)
      requires |s.boxes| == |t.boxes| == |registry.bound| == |registry.config.domains|
      requires start < |registry.bound| && o < |registry.bound| && Reached(s, t, start, o + 1)
      ensures Fair(s, t, start, Advance(At(start, o, |registry.bound|), |registry.bound|))
    {
      forall x: nat | Eligible(s, x) && Popped(t, x) <= Popped(s, x)
        ensures Distance(Advance(At(start, o, |registry.bound|), |registry.bound|), x, |registry.bound|)
             < Distance(start, x, |registry.bound|)
      {
        CursorPast(start, o, x, |registry.bound|);
      }
    }

    /** No budget left although every default budget was covered: nobody eligible was left out. */
    lemma SpentShared(s: State, t: State, start: nat, offset: nat)
      requires Valid() && |s.boxes| == |t.boxes| == |registry.bound|
      requires start < |registry.bound| && offset <= |registry.bound| && Shared(s, t, start, offset)
      requires Rest(Weights(registry.config, domain), start, offset) == 0
      ensures Shared(s, t, start, |registry.bound|)
    {
      var w := Weights(registry.config, domain);
      forall x: nat | Eligible(s, x)
        ensures Distance(start, x, |registry.bound|) < offset
      {
        DistanceAt(start, x, |registry.bound|);
        var o := Distance(start, x, |registry.bound|);
        if offset <= o {
          RestCovers(w, start, offset, o);
        }
      }
    }

    /** Each call since `from` was reported or lost, and calls are lost exactly when a handler said empty. */
    static ghost predicate Counted(log: seq<Call>, from: nat, processed: nat, lost: nat) {
      && |log| == from + processed + lost
      && (lost == 0 <==> NoneEmpty(log, from))
    }

    /** While nothing failed, a budget that covers a full turn covers the rest of it. */
    ghost predicate Paid(s: State, t: State, log: seq<Call>, from: nat, start: nat, offset: nat, given: nat, left: nat)
      requires |s.boxes| == |t.boxes| == |registry.bound| == |registry.config.domains| == |registry.config.drain|
      requires start < |registry.bound| && offset <= |registry.bound|
      reads registry`bound
    {
      var w := Weights(registry.config, domain);
      AllOk(log, from) && given >= Sum(w) ==> left >= Rest(w, start, offset) && Shared(s, t, start, offset)
    }

    /** What a scan at `offset` has done between states `s` and `t`, with `left` of `given` budget. */
    ghost predicate Scan(s: State, t: State, log: seq<Call>, from: nat, start: nat, offset: nat, given: nat, left: nat)
      requires |registry.bound| == |registry.config.domains| == |registry.config.drain|
      reads registry`bound
    {
      && |s.boxes| == |registry.bound| && start < |registry.bound| && offset <= |registry.bound|
      && Moved(s, t) && OthersUntouched(s, t)
      && Reached(s, t, start, offset)
      && Paid(s, t, log, from, start, offset, given, left)
    }

    lemma ScanStarts(s: State, log: seq<Call>, start: nat, given: nat)
      requires Valid() && |s.boxes| == |registry.bound| && start < |registry.bound|
      ensures PassInv(s, s, log, |log|, start, 0, given, Tally(given, 0, 0, 0), 0)
    {
      FullTurn(Weights(registry.config, domain), start);
    }

    /** A scan that stops after `offset` is fair, and complete if the budget had covered a full turn. */
    lemma ScanStops(s: State, t: State, log: seq<Call>, from: nat, start: nat, offset: nat, given: nat, left: nat)
      requires Valid() && offset < |registry.bound| && Scan(s, t, log, from, start, offset + 1, given, left)
      ensures Fair(s, t, start, Advance(At(start, offset, |registry.bound|), |registry.bound|))
      ensures left == 0 && AllOk(log, from) && given >= Sum(Weights(registry.config, domain)) ==>
                Shared(s, t, start, |registry.bound|)
    {
      StoppedFair(s, t, start, offset);
      if left == 0 && AllOk(log, from) && given >= Sum(Weights(registry.config, domain)) {
        SpentShared(s, t, start, offset + 1);
      }
    }

    lemma ScanSkips(s: State, t: State, log: seq<Call>, from: nat, start: nat, offset: nat, given: nat, left: nat)
      requires Valid() && Scan(s, t, log, from, start, offset, given, left) && offset < |registry.bound|
      requires !Eligible(t, At(start, offset, |registry.bound|))
      ensures Scan(s, t, log, from, start, offset + 1, given, left)
    {
      ReachedStep(s, t, t, start, offset);
      if Shared(s, t, start, offset) {
        SharedStep(s, t, t, start, offset);
      }
    }

    /** `n` messages of the actor at `offset` were pumped, of which `charged` count against the budget. */
    lemma ScanVisits(s: State, t: State, u: State, log: seq<Call>, log': seq<Call>, from: nat,
                     start: nat, offset: nat, given: nat, left: nat, n: nat, charged: nat, rc: Result)
      requires Valid() && Scan(s, t, log, from, start, offset, given, left) && offset < |registry.bound|
      requires from <= |log| && log <= log'
      requires
        var i := At(start, offset, |registry.bound|);
        && Eligible(t, i) && 0 < n <= registry.config.drain[i] && charged <= n && charged <= left
        && Moved(t, u) && PoppedOnly(t, u, i, n) && CalledOnly(log', |log|, i, n, rc)
        && (rc == Ok && registry.config.drain[i] <= left ==> FairShare(t, u, i, registry.config.drain[i]))
      ensures Scan(s, u, log', from, start, offset + 1, given, left - charged)
    {
      var i := At(start, offset, |registry.bound|);
      MovedTransitive(s, t, u);
      ReachedStep(s, t, u, start, offset);
      if AllOk(log', from) && given >= Sum(Weights(registry.config, domain)) {
        assert log'[|log'| - 1].rc == Ok;
        assert AllOk(log, from);
        SharedStep(s, t, u, start, offset);
      }
    }

    static lemma CountedStep(log: seq<Call>, log': seq<Call>, from: nat, a: nat, n: nat, rc: Result, processed: nat,
                             lost: nat)
      requires Counted(log, from, processed, lost) && log <= log' && n > 0 && CalledOnly(log', |log|, a, n, rc)
      ensures rc == ErrEmpty ==> Counted(log', from, processed, lost + n)
      ensures rc != ErrEmpty ==> Counted(log', from, processed + n, lost)
    {
      assert log'[|log'| - 1].rc == rc;
    }

    ghost predicate PassInv(s: State, t: State, log: seq<Call>, from: nat, start: nat, offset: nat, given: nat,
                            y: Tally, lost: nat)
      requires |registry.bound| == |registry.config.domains| == |registry.config.drain|
      reads registry`bound
    {
      && Scan(s, t, log, from, start, offset, given, y.left)
      && Counted(log, from, y.processed, lost)
      && y.left + y.processed == given
      && y.pumped <= y.examined <= offset && y.pumped <= y.processed && (y.pumped > 0 <==> y.processed > 0)
    }

    /** What one scan from `start` that leaves the cursor at `cursor` has done. */
    ghost predicate PassPost(s: State, t: State, log: seq<Call>, from: nat, start: nat, cursor: nat, given: nat,
                             end: PassEnd, y: Tally, lost: nat)
      requires |registry.bound| == |registry.config.domains| == |registry.config.drain|
      reads registry`bound
    {
      && |s.boxes| == |t.boxes| == |registry.bound| && start < |registry.bound| && cursor < |registry.bound|
      && Moved(s, t) && OthersUntouched(s, t) && Fair(s, t, start, cursor)
      && Counted(log, from, y.processed, lost)
      && y.processed <= given && y.pumped <= y.examined <= |registry.bound|
      && y.pumped <= y.processed && (y.pumped > 0 <==> y.processed > 0)
      && (end.Failed? ==>
            end.rc != Ok && end.rc != ErrEmpty && log != [] && log[|log| - 1].rc == end.rc && |log| > from)
      && (!end.Failed? ==> y.left + y.processed == given && (y.left == 0 <==> end.BudgetSpent?))
      && (end.FullPass? ==> Reached(s, t, start, |registry.bound|))
      && (AllOk(log, from) && given >= Sum(Weights(registry.config, domain)) ==> Shared(s, t, start, |registry.bound|))
    }

    lemma PassCompletes(s: State, t: State, log: seq<Call>, from: nat, start: nat, cursor: nat, given: nat, y: Tally,
                        lost: nat)
      requires Valid() && cursor < |registry.bound| && y.left > 0
      requires PassInv(s, t, log, from, start, |registry.bound|, given, y, lost)
      ensures PassPost(s, t, log, from, start, cursor, given, FullPass, y, lost)
    {
    }

    /** Look at the actor at one offset of the scan, and pump it if it has mail. */
    method Position(ghost s: State, ghost from: nat, start: nat, offset: nat, ghost given: nat, y: Tally,
                    ghost lost: nat)
      returns (stop: Option<PassEnd>, z: Tally, ghost lost': nat)
      requires Valid() && next < |registry.bound| && offset < |registry.bound| && y.left > 0 && from <= |registry.log|
      requires PassInv(s, registry.kernel, registry.log, from, start, offset, given, y, lost)
      requires Follows(registry.log, from, start, next)
      modifies this`next, registry`world, registry`kernel, registry`log
      ensures |registry.bound| > 0 && Follows(registry.log, from, start, next)
      ensures Valid() && next < |registry.bound| && old(registry.log) <= registry.log
              && registry.Since(old(registry.Now()))
      ensures stop == None ==> z.left > 0 && PassInv(s, registry.kernel, registry.log, from, start, offset + 1, given,
                                                     z, lost')
      ensures stop.Some? ==> PassPost(s, registry.kernel, registry.log, from, start, next, given, stop.value, z, lost')
    {
      hide Registry.Leads;
      registry.NothingSince();
      var index := At(start, offset, |registry.bound|);
      stop, lost' := None, lost;
      z := if registry.config.domains[index] == domain then y.(examined := y.examined + 1) else y;
      if registry.config.domains[index] != domain || !registry.bound[index]
          || |registry.kernel.boxes[index].entries| == 0 {
        ScanSkips(s, registry.kernel, registry.log, from, start, offset, given, y.left);
        return;
      }
      var rc, n, rest;
      rc, n, rest, lost' := Serve(s, from, start, offset, given, y.left, y.processed, lost);
      if rc == ErrEmpty {
        return;
      }
      z := z.(left := rest, pumped := y.pumped + 1, processed := y.processed + n);
      if rc != Ok || rest == 0 {
        ScanStops(s, registry.kernel, registry.log, from, start, offset, given, rest);
        stop := Some(if rc != Ok then Failed(rc) else BudgetSpent);
      }
    }

    /** One scan over all actors from the cursor, within a remaining budget. */
    method Pass(given: nat) returns (end: PassEnd, y: Tally, ghost lost: nat)
      requires Valid() && given > 0 && next < |registry.bound|
      modifies this`next, registry`world, registry`kernel, registry`log
      ensures Valid() && old(registry.log) <= registry.log && registry.Since(old(registry.Now()))
      ensures PassPost(old(registry.kernel), registry.kernel, registry.log, |old(registry.log)|, old(next), next, given,
                       end, y, lost)
      ensures Follows(registry.log, |old(registry.log)|, old(next), next)
    {
      hide PassInv, PassPost, BoxesValid, Registry.Leads;
      registry.NothingSince();
      ghost var s, from := registry.kernel, |registry.log|;
      var start, count := next, |registry.bound|;
      y, lost := Tally(given, 0, 0, 0), 0;
      ScanStarts(s, registry.log, start, given);
      var offset := 0;
      while offset < count
        invariant Valid() && next < count == |registry.bound| && offset <= count && y.left > 0
        invariant old(registry.log) <= registry.log && registry.Since(old(registry.Now()))
        invariant PassInv(s, registry.kernel, registry.log, from, start, offset, given, y, lost)
        invariant Follows(registry.log, from, start, next)
      {
        var stop;
        ghost var m := registry.Now();
        stop, y, lost := Position(s, from, start, offset, given, y, lost);
        registry.LeadsOn(old(registry.Now()), m);
        if stop.Some? {
          return stop.value, y, lost;
        }
        offset := offset + 1;
      }
      PassCompletes(s, registry.kernel, registry.log, from, start, next, given, y, lost);
      return FullPass, y, lost;
    }

    /** Visit the actor at `offset` and settle the books of the scan. */
    method Serve(ghost s: State, ghost from: nat, start: nat, offset: nat, ghost given: nat, left: nat,
                 ghost processed: nat, ghost lost: nat)
      returns (rc: Result, n: nat, rest: nat, ghost lost': nat)
      requires Valid() && offset < |registry.bound| && left > 0 && from <= |registry.log|
      requires Scan(s, registry.kernel, registry.log, from, start, offset, given, left)
      requires Counted(registry.log, from, processed, lost)
      requires Eligible(registry.kernel, At(start, offset, |registry.bound|))
      modifies this`next, registry`world, registry`kernel, registry`log
      ensures Valid() && next == Advance(At(start, offset, |registry.bound|), |registry.bound|)
      ensures registry.Since(old(registry.Now()))
      ensures old(registry.log) <= registry.log && n > 0
      ensures rest == if rc == Ok then left - n else left
      ensures 0 < n <= left
      ensures rc == ErrEmpty ==> Counted(registry.log, from, processed, lost') && lost' == lost + n
      ensures rc != ErrEmpty ==> Counted(registry.log, from, processed + n, lost) && lost' == lost
      ensures from < |registry.log| && registry.log[|registry.log| - 1].rc == rc
      ensures registry.log[|registry.log| - 1].actor == At(start, offset, |registry.bound|)
      ensures Scan(s, registry.kernel, registry.log, from, start, offset + 1, given, rest)
    {
      hide Registry.Leads;
      ghost var t, log := registry.kernel, registry.log;
      var index := At(start, offset, |registry.bound|);
      rc, n := Visit(index, left);
      rest, lost' := if rc == Ok then left - n else left, if rc == ErrEmpty then lost + n else lost;
      ScanVisits(s, t, registry.kernel, log, registry.log, from, start, offset, given, left, n, left - rest, rc);
      CountedStep(log, registry.log, from, index, n, rc, processed, lost);
    }

    // ----- whole runs -----

    ghost predicate AllServed(s: State, t: State)
      requires |s.boxes| == |t.boxes| == |registry.bound| == |registry.config.domains|
      reads registry`bound
    {
      forall x: nat :: Eligible(s, x) ==> Popped(t, x) > Popped(s, x)
    }

    ghost predicate AllShared(s: State, t: State)
      requires |s.boxes| == |t.boxes| == |registry.bound| == |registry.config.domains| == |registry.config.drain|
      reads registry`bound
    {
      forall x: nat :: Eligible(s, x) ==> FairShare(s, t, x, registry.config.drain[x])
    }

    /**
     What a run between `s` and `t` is good for: every call is reported or lost, the
     cursor moves towards everybody it did not serve, and a failure-free run on at
     least the default budget serves everybody a fair share.
     */
    ghost predicate RunFacts(s: State, t: State, log: seq<Call>, from: nat, start: nat, cursor: nat,
                             budget: nat, processed: nat, lost: nat)
      requires |registry.bound| == |registry.config.domains| == |registry.config.drain|
      reads registry`bound
    {
      && |s.boxes| == |t.boxes| == |registry.bound| && start < |registry.bound| && cursor < |registry.bound|
      && Moved(s, t) && OthersUntouched(s, t) && Fair(s, t, start, cursor)
      && Counted(log, from, processed, lost) && processed <= budget
      && (AllOk(log, from) && budget >= Sum(Weights(registry.config, domain)) ==> AllShared(s, t))
    }

    /** Between scans: nothing has happened yet, or everybody was served once. */
    ghost predicate RunInv(s: State, t: State, log: seq<Call>, from: nat, start: nat, cursor: nat,
                           budget: nat, left: nat, processed: nat, lost: nat)
      requires |registry.bound| == |registry.config.domains| == |registry.config.drain|
      reads registry`bound
    {
      && |s.boxes| == |t.boxes| == |registry.bound| && start < |registry.bound| && cursor < |registry.bound|
      && Moved(s, t) && OthersUntouched(s, t)
      && Counted(log, from, processed, lost) && left + processed == budget
      && ((t == s && cursor == start && processed == lost == 0) ||
          (AllServed(s, t) && (AllOk(log, from) && budget >= Sum(Weights(registry.config, domain)) ==>
                               AllShared(s, t))))
    }

    lemma RunStarts(budget: nat)
      requires Valid() && next < |registry.bound|
      ensures RunInv(registry.kernel, registry.kernel, registry.log, |registry.log|, next, next, budget, budget, 0, 0)
    {
    }

    lemma RunScan(s: State, t: State, u: State, log: seq<Call>, log': seq<Call>, from: nat, start: nat, cursor: nat,
                  cursor': nat, budget: nat, left: nat, processed: nat, lost: nat, end: PassEnd, y: Tally, l: nat)
      requires Valid() && from <= |log| && log <= log' && left > 0
      requires RunInv(s, t, log, from, start, cursor, budget, left, processed, lost)
      requires PassPost(t, u, log', |log|, cursor, cursor', left, end, y, l)
      ensures RunFacts(s, u, log', from, start, cursor', budget, processed + y.processed, lost + l)
      ensures end.FullPass? ==> RunInv(s, u, log', from, start, cursor', budget, y.left, processed + y.processed,
                                       lost + l)
    {
      MovedTransitive(s, t, u);
      RunScanShared(s, t, u, log, log', from, start, cursor, cursor', budget, left, processed, lost, end, y, l);
      if t == s && cursor == start && processed == lost == 0 {
        if end.FullPass? {
          assert AllServed(s, u);
        }
      } else {
        assert AllServed(s, u);
      }
    }

    lemma RunScanShared(s: State, t: State, u: State, log: seq<Call>, log': seq<Call>, from: nat, start: nat,
                        cursor: nat,
                        cursor': nat, budget: nat, left: nat, processed: nat, lost: nat, end: PassEnd, y: Tally, l: nat)
      requires Valid() && from <= |log| && log <= log' && left > 0
      requires RunInv(s, t, log, from, start, cursor, budget, left, processed, lost)
      requires PassPost(t, u, log', |log|, cursor, cursor', left, end, y, l)
      ensures AllOk(log', from) && budget >= Sum(Weights(registry.config, domain)) ==> AllShared(s, u)
      ensures Counted(log', from, processed + y.processed, lost + l)
    {
      if AllOk(log', from) && budget >= Sum(Weights(registry.config, domain)) {
        assert AllOk(log, from) && AllOk(log', |log|);
      }
    }

    /** The cursor a run starts from. */
    function Cursor(): (c: nat)
      requires |registry.bound| > 0
      reads this`next, registry`bound
      ensures c < |registry.bound|
    {
      if next >= |registry.bound| then 0 else next
    }

    /** Scan until the budget is spent, a handler fails, or a scan makes no progress. */
    method Scans(budget: nat) returns (end: PassEnd, left: nat, examined: nat, pumped: nat, processed: nat,
                                       ghost lost: nat)
      requires Valid() && next < |registry.bound| && budget > 0
      modifies this`next, registry`world, registry`kernel, registry`log
      ensures Valid() && old(registry.log) <= registry.log && registry.Since(old(registry.Now()))
      ensures RunFacts(old(registry.kernel), registry.kernel, registry.log, |old(registry.log)|, old(next), next,
                       budget, processed, lost)
      ensures Follows(registry.log, |old(registry.log)|, old(next), next)
      ensures end.Failed? ==> end.rc != ErrEmpty && Blamed(registry.log, |old(registry.log)|, end.rc)
      ensures !end.Failed? ==> left + processed == budget
      ensures pumped <= examined && pumped <= processed && (pumped > 0 <==> processed > 0)
      ensures !end.Failed? && NoneEmpty(registry.log, |old(registry.log)|) ==> left == 0 || !HasMail()
    {
      hide Registry.Leads, Moved, OthersUntouched, AllServed, AllShared, Fair, Reached, Shared, BoxesValid;
      registry.NothingSince();
      RunStarts(budget);
      ghost var s, log0 := registry.kernel, registry.log;
      ghost var from, start := |registry.log|, next;
      end, left, examined, pumped, processed, lost := FullPass, budget, 0, 0, 0, 0;
      ghost var scanned := false;
      while left > 0
        invariant Valid() && log0 <= registry.log && !end.Failed? && left + processed == budget
        invariant registry.Since(old(registry.Now())) && Follows(registry.log, from, start, next)
        invariant scanned ==>
                    RunFacts(s, registry.kernel, registry.log, from, start, next, budget, processed, lost)
        invariant left > 0 ==>
                    RunInv(s, registry.kernel, registry.log, from, start, next, budget, left, processed, lost)
        invariant left == 0 ==> scanned
        invariant pumped <= examined && pumped <= processed && (pumped > 0 <==> processed > 0)
        decreases left
      {
        ghost var t, log, cursor := registry.kernel, registry.log, next;
        ghost var left0, processed0, lost0 := left, processed, lost;
        var y;
        ghost var l;
        ghost var m := registry.Now();
        end, y, l := Pass(left);
        registry.LeadsOn(old(registry.Now()), m);
        examined, pumped, processed := examined + y.examined, pumped + y.pumped, processed + y.processed;
        lost := lost + l;
        RunScan(s, t, registry.kernel, log, registry.log, from, start, cursor, next, budget, left0, processed0, lost0,
                end, y, l);
        scanned := true;
        if end.Failed? {
          return;
        }
        left := y.left;
        if y.processed == 0 {
          QuietPass(m, cursor, left0, end, y, l);
          return;
        }
      }
    }

    /** A scan that reported nothing, lost nothing and did not fail found nobody with mail. */
    lemma QuietPass(m: Moment<W>, start: nat, given: nat, end: PassEnd, y: Tally, lost: nat)
      requires Valid() && given > 0 && registry.Since(m) && y.processed == 0 && !end.Failed?
      requires PassPost(m.at.kernel, registry.kernel, registry.log, |m.log|, start, next, given, end, y, lost)
      ensures NoneEmpty(registry.log, |m.log|) ==> !HasMail()
    {
      hide Moved, OthersUntouched, Shared, Fair, BoxesValid;
      if NoneEmpty(registry.log, |m.log|) {
        assert registry.log[|m.log|..] == [];
        AllReached(m.at.kernel, start);
      }
    }

    /** Nobody can have been served between a state and itself. */
    lemma AllReached(s: State, start: nat)
      requires |s.boxes| == |registry.bound| == |registry.config.domains| && start < |registry.bound|
      ensures Reached(s, s, start, |registry.bound|) ==> forall x: nat :: !Eligible(s, x)
    {
    }

    /** Result, exhausted flag and stop reason of a run that found mail. */
    static function Verdict(end: PassEnd, processed: nat, left: nat, after: nat): (v: (Result, bool, Result))
      requires end.Failed? ==> end.rc != Ok && end.rc != ErrEmpty
      ensures v.0 != ErrEmpty && (v.0 == Ok ==> processed > 0)
      ensures v.1 <==> v.0 == Ok && left == 0 && after > 0
    {
      if end.Failed? then (end.rc, false, end.rc)
      else if processed == 0 then (ErrState, false, ErrState)
      else if left == 0 && after > 0 then (Ok, true, Ok)
      else (Ok, false, ErrEmpty)
    }

    /** The cumulative counters once a run has looked for mail, and found none if `empty` is one. */
    static function Called(before: Stats, budget: nat, empty: nat): Stats {
      before.(pumpCalls := before.pumpCalls + 1, lastBudget := budget, lastProcessed := 0,
              emptyCalls := before.emptyCalls + empty,
              lastResult := if empty > 0 then ErrEmpty else before.lastResult)
    }

    /** The cumulative counters after a run that found mail. */
    static ghost predicate Booked(before: Stats, after: Stats, rc: Result, report: Report) {
      after == before.(lastProcessed := report.processed, lastResult := rc,
                       budgetHits := before.budgetHits + if report.exhausted then 1 else 0)
    }

    /** What the report says about the way a run ended. */
    static ghost predicate Reported(report: Report, budget: nat, before: nat, rc: Result) {
      && report.budget == budget && report.pendingBefore == before
      && report.actorsPumped <= report.actorsExamined && report.actorsPumped <= report.processed
      && (report.actorsPumped > 0 <==> report.processed > 0)
      && report.stopResult == if rc == Ok && !report.exhausted then ErrEmpty else rc
    }

    /** The part of a run after it found mail. */
    method RunPending(budget: nat, before: nat) returns (rc: Result, report: Report, ghost lost: nat)
      requires Valid() && budget > 0 && next < |registry.bound|
      modifies this, registry`world, registry`kernel, registry`log
      ensures Valid() && old(registry.log) <= registry.log && next < |registry.bound|
              && registry.Since(old(registry.Now()))
      ensures RunFacts(old(registry.kernel), registry.kernel, registry.log, |old(registry.log)|, old(next), next,
                       budget, report.processed, lost)
      ensures Follows(registry.log, |old(registry.log)|, old(next), next)
      ensures rc != ErrEmpty && (rc == Ok ==> report.processed > 0)
      ensures rc != Ok ==>
                || Blamed(registry.log, |old(registry.log)|, rc)
                || (rc == ErrState && report.processed == 0 && NoneEmpty(registry.log, |old(registry.log)|))
      ensures rc == Ok && NoneEmpty(registry.log, |old(registry.log)|) ==>
                report.processed == budget || report.pendingAfter == 0
      ensures report.pendingAfter == Sum(Waiting(registry.config, registry.bound, registry.kernel, domain))
      ensures report.exhausted <==> rc == Ok && report.processed == budget && report.pendingAfter > 0
      ensures Reported(report, budget, before, rc) && Booked(old(stats), stats, rc, report)
    {
      hide Registry.Leads, Follows, BoxesValid, Moved, OthersUntouched, AllShared, Fair, Counted;
      var end, left, examined, pumped, processed;
      end, left, examined, pumped, processed, lost := Scans(budget);
      var after := PendingMail();
      var v := Verdict(end, processed, left, after);
      rc, report := v.0, Report(budget, before, after, processed, examined, pumped, v.1, v.2);
      stats := stats.(lastProcessed := processed, lastResult := rc,
                      budgetHits := if v.1 then stats.budgetHits + 1 else stats.budgetHits);
    }

    /** One run of the domain on a budget. */
    method Run(budget: nat) returns (rc: Result, report: Report, ghost lost: nat)
      requires Valid()
      modifies this, registry`world, registry`kernel, registry`log
      ensures Valid() && old(registry.log) <= registry.log && registry.Since(old(registry.Now()))
      ensures old(Inv(registry.kernel)) && registry.BehavedSince(old(registry.Now())) ==> Inv(registry.kernel)
      ensures budget == 0 ==> rc == ErrInvalidArg
      ensures rc == ErrEmpty || budget == 0 ==>
                && registry.kernel == old(registry.kernel) && registry.log == old(registry.log)
                && report.processed == 0 && next == old(next)
      ensures budget > 0 ==> (rc == ErrEmpty <==> !old(HasMail()))
      ensures budget > 0 && old(HasMail()) && rc != Ok ==> Blamed(registry.log, |old(registry.log)|, rc)
      ensures rc == Ok && NoneEmpty(registry.log, |old(registry.log)|) ==>
                report.processed == budget || report.pendingAfter == 0
      ensures budget > 0 && rc != ErrEmpty ==>
                && next < |registry.bound|
                && RunFacts(old(registry.kernel), registry.kernel, registry.log, |old(registry.log)|, old(Cursor()),
                            next, budget, report.processed, lost)
                && Follows(registry.log, |old(registry.log)|, old(Cursor()), next)
                && (rc == Ok ==> report.processed > 0)
                && (report.exhausted <==> rc == Ok && report.processed == budget && report.pendingAfter > 0)
      ensures budget > 0 ==>
                report.pendingAfter == Sum(Waiting(registry.config, registry.bound, registry.kernel, domain))
      ensures budget > 0 ==>
                Reported(report, budget, old(Sum(Waiting(registry.config, registry.bound, registry.kernel, domain))),
                         rc)
      ensures if budget == 0 then stats == old(stats)
              else if rc == ErrEmpty then stats == Called(old(stats), budget, 1)
              else Booked(Called(old(stats), budget, 0), stats, rc, report)
    {
      hide Registry.Leads, Registry.BehavedSince, Inv, RunFacts, Follows, BoxesValid;
      registry.NothingSince();
      report := Report(budget, 0, 0, 0, 0, 0, false, Ok);
      if budget == 0 {
        return ErrInvalidArg, report, 0;
      }
      stats := stats.(pumpCalls := stats.pumpCalls + 1, lastBudget := budget, lastProcessed := 0);
      var before := PendingMail();
      if before == 0 {
        stats := stats.(emptyCalls := stats.emptyCalls + 1, lastResult := ErrEmpty);
        return ErrEmpty, report.(stopResult := ErrEmpty), 0;
      }
      ghost var x: nat :| Eligible(registry.kernel, x);
      next := Cursor();
      rc, report, lost := RunPending(budget, before);
      registry.SinceKeeps(old(registry.Now()));
      assert Eligible(old(registry.kernel), x);
      QuietRun(old(registry.Now()), old(Cursor()), budget, report.processed, lost);
    }

    /** A run that failed nobody and processed nothing had nobody to serve. */
    lemma QuietRun(m: Moment<W>, start: nat, budget: nat, processed: nat, lost: nat)
      requires Valid() && next < |registry.bound| && registry.Since(m) && Follows(registry.log, |m.log|, start, next)
      requires RunFacts(m.at.kernel, registry.kernel, registry.log, |m.log|, start, next, budget, processed, lost)
      ensures processed == 0 && NoneEmpty(registry.log, |m.log|) ==> forall x: nat :: !Eligible(m.at.kernel, x)
    {
      hide Moved, OthersUntouched, AllShared;
      if |registry.log| == |m.log| {
        assert registry.log[|m.log|..] == [];
      }
    }

    /**
     Bounded waiting.  Take any series of runs of this pump, with whatever happens
     to the kernel in between, budgets of any size and handlers failing at will.  If
     actor `x` has mail before each of them, one of the first `actor count` runs
     pumps it.
     */
    lemma WaitingIsBounded(before: seq<State>, after: seq<State>, cursors: seq<nat>, x: nat)
      requires Valid() && x < |registry.bound|
      requires |before| == |after| == |registry.bound| && |cursors| == |before| + 1
      requires forall k :: 0 <= k < |cursors| ==> cursors[k] < |registry.bound|
      requires forall k :: 0 <= k < |before| ==>
                             && |before[k].boxes| == |after[k].boxes| == |registry.bound|
                             && Eligible(before[k], x)
                             && Fair(before[k], after[k], cursors[k], cursors[k + 1])
      ensures exists k :: 0 <= k < |before| && Popped(after[k], x) > Popped(before[k], x)
    {
      var n := |registry.bound|;
      var served := seq(n, k requires 0 <= k < n && |before[k].boxes| == |after[k].boxes| > x =>
                        Popped(after[k], x) > Popped(before[k], x));
      var distance := seq(n + 1, k requires 0 <= k <= n => Distance(cursors[k], x, n));
      BoundedWaiting(distance, served);
      var k :| 0 <= k <= distance[0] && served[k];
      assert Popped(after[k], x) > Popped(before[k], x);
    }

    /** One run serves a waiting actor or brings the cursor closer to it. */
    method RunTowards(x: nat, budget: nat)
      requires Valid() && Eligible(registry.kernel, x) && budget > 0
      modifies this, registry`world, registry`kernel, registry`log
      ensures Valid() && x < |registry.bound| && Popped(registry.kernel, x) >= Popped(old(registry.kernel), x)
      ensures Popped(registry.kernel, x) == Popped(old(registry.kernel), x) ==>
                && Eligible(registry.kernel, x)
                && Distance(Cursor(), x, |registry.bound|) < old(Distance(Cursor(), x, |registry.bound|))
    {
      hide BoxesValid, Registry.Since, Registry.BehavedSince, Inv, OthersUntouched, AllShared;
      var rc, report;
      ghost var lost;
      rc, report, lost := Run(budget);
    }

    /** What acts on the kernel between runs takes no mail away. */
    method InterfereBeside(x: nat, acts: seq<ClientAction>, w: W)
      requires Valid() && Eligible(registry.kernel, x)
      modifies registry`world, registry`kernel
      ensures Valid() && Eligible(registry.kernel, x) && Popped(registry.kernel, x) == Popped(old(registry.kernel), x)
    {
      hide BoxesValid;
      registry.Interfere(acts, w);
    }

    /**
     Bounded waiting, run by run: whatever acts on the kernel before each run, whatever
     the budgets and however handlers fail, `actor count` runs serve an actor that has
     mail at the start.
     */
    method RunsServe(x: nat, budgets: seq<nat>, between: seq<(seq<ClientAction>, W)>)
      requires Valid() && Eligible(registry.kernel, x)
      requires |budgets| == |between| == |registry.bound| && forall k :: 0 <= k < |budgets| ==> budgets[k] > 0
      modifies this, registry`world, registry`kernel, registry`log
      ensures Valid() && x < |registry.kernel.boxes| && Popped(registry.kernel, x) > Popped(old(registry.kernel), x)
    {
      hide BoxesValid;
      ghost var n := |registry.bound|;
      var served := Popped(registry.kernel, x);
      for k := 0 to |registry.bound|
        invariant Valid() && |registry.bound| == n && Popped(registry.kernel, x) >= Popped(old(registry.kernel), x)
        invariant Popped(registry.kernel, x) == Popped(old(registry.kernel), x) ==>
                    Eligible(registry.kernel, x) && Distance(Cursor(), x, n) + k < n
      {
        if Popped(registry.kernel, x) > served {
          return;
        }
        InterfereBeside(x, between[k].0, between[k].1);
        RunTowards(x, budgets[k]);
      }
    }
  }
}
