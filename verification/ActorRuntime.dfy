/**
 Actors bound to mailboxes (`core/src/ev_actor_runtime.c`).  A handler is an
 arbitrary function of the world it runs in: it returns a result and a list of
 kernel actions, among them posts to any mailbox, its own included.
 */
module ActorRuntime {
  import opened Results
  import opened Messages
  import opened Mailboxes
  import opened Ownership

  datatype Domain = Isr | FastLoop | SlowIo | Network

  /** Execution domain and drain budget of every actor. */
  datatype Config = Config(catalog: Catalog, domains: seq<Domain>, drain: seq<nat>)

  datatype Outcome<W> = Outcome(world: W, acts: seq<ClientAction>, rc: Result)

  /** One handler invocation. */
  datatype Call = Call(actor: nat, rc: Result)

  // ----- relations between kernel states -----

  function Pending(s: State, a: nat): nat
    requires a < |s.boxes|
  {
    |s.boxes[a].entries|
  }

  function Popped(s: State, a: nat): nat
    requires a < |s.boxes|
  {
    s.boxes[a].stats.popped
  }

  /** Mail leaves a mailbox only by being popped. */
  ghost predicate Moved(s: State, t: State) {
    && |t.boxes| == |s.boxes|
    && forall b :: 0 <= b < |s.boxes| ==>
                     Popped(s, b) <= Popped(t, b) && Popped(s, b) + Pending(s, b) <= Popped(t, b) + Pending(t, b)
  }

  /** Exactly `n` messages of actor `a` were popped and nobody else's. */
  ghost predicate PoppedOnly(s: State, t: State, a: nat, n: nat)
    requires |t.boxes| == |s.boxes|
  {
    forall b :: 0 <= b < |s.boxes| ==> Popped(t, b) == Popped(s, b) + (if b == a then n else 0)
  }

  /** The calls made after position `from` are `n` calls of `a`, all successful but possibly the last. */
  ghost predicate CalledOnly(log: seq<Call>, from: nat, a: nat, n: nat, rc: Result) {
    && |log| == from + n
    && (forall j :: from <= j < |log| ==> log[j].actor == a)
    && (forall j :: from <= j < |log| - 1 ==> log[j].rc == Ok)
    && (n > 0 ==> log[|log| - 1].rc == rc)
  }

  lemma MovedTransitive(s: State, t: State, u: State)
    requires Moved(s, t) && Moved(t, u)
    ensures Moved(s, u)
  {
  }

  // ----- what serving one message does -----

  type Handler<!W> = (W, nat, Msg) -> Outcome<W>

  /** The handlers' world and the kernel at one instant. */
  datatype Point<W> = Point(world: W, kernel: State)

  /** ... and every call made until then. */
  datatype Moment<W> = Moment(at: Point<W>, log: seq<Call>)

  predicate Ready<W>(x: Point<W>, a: nat) {
    a < |x.kernel.boxes| && x.kernel.boxes[a].entries != []
  }

  /** What the handler of `a` answers to the oldest message of its mailbox. */
  function Answer<W>(handle: Handler<W>, x: Point<W>, a: nat): Outcome<W>
    requires Ready(x, a)
  {
    handle(x.world, a, x.kernel.boxes[a].entries[0])
  }

  /** The message is taken, the handler's actions are done, the message is disposed. */
  ghost function Served<W>(c: Catalog, handle: Handler<W>, x: Point<W>, a: nat): Point<W>
    requires Ready(x, a) && BoxesValid(x.kernel)
  {
    var o, taken := Answer(handle, x, a), AfterTake(x.kernel, a);
    TakeKeepsBoxes(x.kernel, a);
    ClientRunDrainsNothing(c, taken, o.acts);
    Point(o.world, AfterDispose(ClientRun(c, taken, o.acts), |x.kernel.held|))
  }

  lemma TakeKeepsBoxes(s: State, a: nat)
    requires BoxesValid(s) && a < |s.boxes| && s.boxes[a].entries != []
    ensures BoxesValid(AfterTake(s, a)) && |AfterTake(s, a).held| == |s.held| + 1
  {
    assert s.boxes[a].Valid();
  }

  /** Serving the actors of `calls` one after the other leads from `x` to `y`, each handler answering as recorded. */
  ghost predicate Performed<W>(c: Catalog, handle: Handler<W>, x: Point<W>, calls: seq<Call>, y: Point<W>)
    decreases |calls|
  {
    if calls == [] then y == x
    else
      && BoxesValid(x.kernel) && Ready(x, calls[0].actor)
      && Answer(handle, x, calls[0].actor).rc == calls[0].rc
      && Performed(c, handle, Served(c, handle, x, calls[0].actor), calls[1..], y)
  }

  lemma {:induction false} PerformedOn<W>(c: Catalog, handle: Handler<W>, x: Point<W>, a: seq<Call>, y: Point<W>,
                                          b: seq<Call>, z: Point<W>)
    requires Performed(c, handle, x, a, y) && Performed(c, handle, y, b, z)
    ensures Performed(c, handle, x, a + b, z)
    decreases |a|
  {
    hide Served, Answer, BoxesValid;
    if a == [] {
      assert a + b == b;
    } else {
      assert (a + b)[1..] == a[1..] + b;
      PerformedOn(c, handle, Served(c, handle, x, a[0].actor), a[1..], y, b, z);
    }
  }

  lemma ServedIsPerformed<W>(c: Catalog, handle: Handler<W>, x: Point<W>, a: nat)
    requires Ready(x, a) && BoxesValid(x.kernel)
    ensures Performed(c, handle, x, [Call(a, Answer(handle, x, a).rc)], Served(c, handle, x, a))
  {
    hide Served, Answer, BoxesValid;
    var calls := [Call(a, Answer(handle, x, a).rc)];
    assert calls[1..] == [];
  }

  /** Serving pops one message of that actor and takes no other mail away. */
  lemma ServedMoves<W>(c: Catalog, handle: Handler<W>, x: Point<W>, a: nat)
    requires Ready(x, a) && BoxesValid(x.kernel)
    ensures
      var y := Served(c, handle, x, a);
      BoxesValid(y.kernel) && Moved(x.kernel, y.kernel) && PoppedOnly(x.kernel, y.kernel, a, 1)
  {
    hide ClientRun;
    TakeKeepsBoxes(x.kernel, a);
    ClientRunDrainsNothing(c, AfterTake(x.kernel, a), Answer(handle, x, a).acts);
  }

  /**
   Serving leaves nothing behind: the message taken is the oldest of its mailbox, and when the
   handler is done it is disposed, whatever the handler did with it.
   */
  lemma ServedDisposes<W>(c: Catalog, handle: Handler<W>, x: Point<W>, a: nat)
    requires Ready(x, a) && BoxesValid(x.kernel)
    ensures
      var k, oldest, y := |x.kernel.held|, x.kernel.boxes[a].entries[0], Served(c, handle, x, a);
      && y.world == handle(x.world, a, oldest).world
      && k < |y.kernel.held| && y.kernel.held[k].disposed
      && AfterTake(x.kernel, a).held == x.kernel.held + [oldest]
      && AfterTake(x.kernel, a).boxes[a].entries == x.kernel.boxes[a].entries[1..]
  {
    hide ClientRun;
    TakeKeepsBoxes(x.kernel, a);
    ClientRunDrainsNothing(c, AfterTake(x.kernel, a), Answer(handle, x, a).acts);
  }

  /** Every handler called kept the ownership discipline when it was called. */
  ghost predicate WellBehaved<W>(c: Catalog, handle: Handler<W>, x: Point<W>, calls: seq<Call>)
    decreases |calls|
  {
    calls != [] && BoxesValid(x.kernel) && Ready(x, calls[0].actor) ==>
      && ClientDisciplined(c, AfterTake(x.kernel, calls[0].actor), Answer(handle, x, calls[0].actor).acts)
      && WellBehaved(c, handle, Served(c, handle, x, calls[0].actor), calls[1..])
  }

  lemma ServedKeeps<W>(c: Catalog, handle: Handler<W>, x: Point<W>, a: nat)
    requires Ready(x, a) && Inv(x.kernel)
    requires ClientDisciplined(c, AfterTake(x.kernel, a), Answer(handle, x, a).acts)
    ensures Inv(Served(c, handle, x, a).kernel)
  {
    hide Inv, ClientDisciplined, ClientRun;
    InvBoxes(x.kernel);
    var acts, taken := Answer(handle, x, a).acts, AfterTake(x.kernel, a);
    TakeKeepsBoxes(x.kernel, a);
    TakeKeeps(x.kernel, a);
    ClientRunDrainsNothing(c, taken, acts);
    ClientRunKeeps(c, taken, acts);
    DisposeKeeps(ClientRun(c, taken, acts), |x.kernel.held|);
  }

  lemma InvBoxes(s: State)
    requires Inv(s)
    ensures BoxesValid(s)
  {
  }

  /** Calls of well-behaved handlers keep the ownership invariant. */
  lemma {:induction false} PerformedKeeps<W>(c: Catalog, handle: Handler<W>, x: Point<W>, calls: seq<Call>, y: Point<W>)
    requires Performed(c, handle, x, calls, y) && Inv(x.kernel) && WellBehaved(c, handle, x, calls)
    ensures Inv(y.kernel)
    decreases |calls|
  {
    hide Inv, Served, Answer, ClientDisciplined;
    if calls != [] {
      ServedKeeps(c, handle, x, calls[0].actor);
      PerformedKeeps(c, handle, Served(c, handle, x, calls[0].actor), calls[1..], y);
    }
  }

  class Registry<W> {
    const config: Config
    const handle: Handler<W>
    var bound: seq<bool>
    var world: W
    var kernel: State
    ghost var log: seq<Call>

    ghost predicate Valid()
      reads this
    {
      && |config.domains| == |config.drain| == |bound| == |kernel.boxes|
      && (forall a :: 0 <= a < |bound| && bound[a] ==> config.drain[a] > 0)
      && BoxesValid(kernel)
    }

    ghost function Here(): Point<W>
      reads this`world, this`kernel
    {
      Point(world, kernel)
    }

    ghost function Now(): Moment<W>
      reads this`world, this`kernel, this`log
    {
      Moment(Here(), log)
    }

    /** The calls logged between two moments are exactly what happened between them. */
    ghost predicate Leads(m: Moment<W>, n: Moment<W>) {
      m.log <= n.log && Performed(config.catalog, handle, m.at, n.log[|m.log|..], n.at)
    }

    /** Nothing but the calls logged since moment `m` has happened since. */
    ghost predicate Since(m: Moment<W>)
      reads this`world, this`kernel, this`log
    {
      Leads(m, Now())
    }

    lemma NothingSince()
      ensures Since(Now())
    {
      assert log[|log|..] == [];
    }

    lemma LeadsOn(m: Moment<W>, n: Moment<W>)
      requires Leads(m, n) && Since(n)
      ensures Since(m)
    {
      hide Performed;
      var a, b := n.log[|m.log|..], log[|n.log|..];
      assert log[|m.log|..] == a + b;
      PerformedOn(config.catalog, handle, m.at, a, n.at, b, Here());
    }

    /** The handlers called since moment `m` kept the ownership discipline. */
    ghost predicate BehavedSince(m: Moment<W>)
      reads this`log
    {
      m.log <= log && WellBehaved(config.catalog, handle, m.at, log[|m.log|..])
    }

    /** Since a sound moment, well-behaved handlers kept the ownership invariant. */
    lemma SinceKeeps(m: Moment<W>)
      requires Since(m)
      ensures Inv(m.at.kernel) && BehavedSince(m) ==> Inv(kernel)
    {
      hide Inv, Performed, WellBehaved;
      if Inv(m.at.kernel) && BehavedSince(m) {
        PerformedKeeps(config.catalog, handle, m.at, log[|m.log|..], Here());
      }
    }

    /** One mailbox per actor; nothing bound yet. */
    constructor (config: Config, handle: Handler<W>, world: W, kernel: State)
      requires |config.domains| == |config.drain| == |kernel.boxes| && Initial(kernel)
      ensures Valid() && Inv(this.kernel) && Now() == Moment(Point(world, kernel), [])
    {
      this.config, this.handle, this.world, this.kernel := config, handle, world, kernel;
      bound := seq(|config.domains|, _ => false);
      log := [];
      InitialInv(kernel);
    }

    /** Binding refuses an actor whose mailbox kind or drain budget the catalog does not allow. */
    method Bind(a: nat, kind: Kind) returns (rc: Result)
      requires Valid()
      modifies this`bound
      ensures Valid()
      ensures rc == Ok <==> a < |old(bound)| && !old(bound)[a] && config.drain[a] > 0 && kernel.boxes[a].kind == kind
      ensures bound == if rc == Ok then old(bound)[a := true] else old(bound)
    {
      if a >= |bound| {
        return ErrOutOfRange;
      }
      if kernel.boxes[a].kind != kind || config.drain[a] == 0 {
        return ErrContract;
      }
      if bound[a] {
        return ErrState;
      }
      bound := bound[a := true];
      return Ok;
    }

    /** Code outside the pumps acts on the kernel and changes the world. */
    method Interfere(acts: seq<ClientAction>, w: W)
      requires Valid()
      modifies this`world, this`kernel
      ensures Valid() && kernel == ClientRun(config.catalog, old(kernel), acts) && NothingDrained(old(kernel), kernel)
    {
      ClientRunDrainsNothing(config.catalog, kernel, acts);
      world, kernel := w, ClientRun(config.catalog, kernel, acts);
    }

    /** Pop one message, run the handler, dispose the message. */
    method ProcessOne(a: nat) returns (rc: Result)
      requires Valid() && a < |kernel.boxes| && Pending(kernel, a) > 0
      modifies this`world, this`kernel, this`log
      ensures Valid()
      ensures Here() == Served(config.catalog, handle, old(Here()), a)
      ensures rc == Answer(handle, old(Here()), a).rc
      ensures log == old(log) + [Call(a, rc)] && Since(old(Now()))
      ensures Moved(old(kernel), kernel) && PoppedOnly(old(kernel), kernel, a, 1)
    {
      hide ClientRun, BoxesValid, Moved, Performed;
      ghost var x := Here();
      ServedMoves(config.catalog, handle, x, a);
      ServedIsPerformed(config.catalog, handle, x, a);
      TakeKeepsBoxes(kernel, a);
      var k := |kernel.held|;
      kernel := AfterTake(kernel, a);
      var o := handle(world, a, kernel.held[k]);
      ClientRunDrainsNothing(config.catalog, kernel, o.acts);
      world, rc := o.world, o.rc;
      kernel := AfterDispose(ClientRun(config.catalog, kernel, o.acts), k);
      log := log + [Call(a, rc)];
    }

    /** Drain one actor for at most `budget` messages, stopping at the first failure. */
    method Pump(a: nat, budget: nat) returns (rc: Result, processed: nat)
      requires Valid() && a < |kernel.boxes|
      modifies this`world, this`kernel, this`log
      ensures Valid() && processed <= budget && Since(old(Now()))
      ensures Moved(old(kernel), kernel) && PoppedOnly(old(kernel), kernel, a, processed)
      ensures old(log) <= log && CalledOnly(log, |old(log)|, a, processed, rc)
      ensures processed > 0 <==> budget > 0 && Pending(old(kernel), a) > 0
      ensures processed == 0 ==> kernel == old(kernel) && rc == (if budget == 0 then ErrInvalidArg else ErrEmpty)
      ensures rc == Ok ==> processed == budget || Pending(kernel, a) == 0
    {
      hide Served, Answer, Leads, BoxesValid;
      NothingSince();
      processed := 0;
      if budget == 0 {
        return ErrInvalidArg, 0;
      }
      if |kernel.boxes[a].entries| == 0 {
        return ErrEmpty, 0;
      }
      rc := Ok;
      while processed < budget && |kernel.boxes[a].entries| > 0
        invariant Valid() && processed <= budget && rc == Ok && a < |kernel.boxes| && Since(old(Now()))
        invariant Moved(old(kernel), kernel) && PoppedOnly(old(kernel), kernel, a, processed)
        invariant old(log) <= log && CalledOnly(log, |old(log)|, a, processed, Ok)
        invariant processed == 0 ==> kernel == old(kernel)
      {
        ghost var n := Now();
        rc := ProcessOne(a);
        LeadsOn(old(Now()), n);
        processed := processed + 1;
        if rc != Ok {
          return;
        }
      }
    }
  }
}
