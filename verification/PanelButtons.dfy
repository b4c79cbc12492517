/**
 The panel button machine (`actors/device/ev_panel_actor.c`): four debounced buttons that
 report press, long press, release and short press, and an independent definition of the
 report in terms of how long each button was down.
 */
module PanelButtons {
  import opened Results

  const BUTTONS: nat := 4
  const BUTTON_MASK: bv8 := 0x0F
  const DEBOUNCE_TICKS: nat := 1
  const LONG_PRESS_TICKS: nat := 10
  const UCHAR_MAX: nat := 255
  const UINT16_MAX: nat := 65535

  datatype ButtonAction = Press | Release | Short | Long

  datatype ButtonEvent = ButtonEvent(button: nat, action: ButtonAction)

  /** The actor's state as a value. */
  datatype Panel = Panel(raw: bv8, valid: bool, stable: bv8, long: bv8, debounce: seq<nat>, hold: seq<nat>)
  {
    predicate Valid() {
      |debounce| == BUTTONS && |hold| == BUTTONS
    }
  }

  /** `1 << b`. */
  function Bit(b: nat): bv8
    requires b < BUTTONS
  {
    if b == 0 then 1 else if b == 1 then 2 else if b == 2 then 4 else 8
  }

  predicate Has(m: bv8, b: nat)
    requires b < BUTTONS
  {
    m & Bit(b) != 0
  }

  function With(m: bv8, b: nat): bv8
    requires b < BUTTONS
  {
    m | Bit(b)
  }

  function Without(m: bv8, b: nat): bv8
    requires b < BUTTONS
  {
    m & !Bit(b)
  }

  /** Setting or clearing one button's bit leaves the other buttons' bits alone. */
  lemma BitsAreIndependent(m: bv8, b: nat, j: nat)
    requires b < BUTTONS && j < BUTTONS
    ensures Has(With(m, b), j) == (j == b || Has(m, j))
    ensures Has(Without(m, b), j) == (j != b && Has(m, j))
  {
  }

  /** Publishing a button event, in an arbitrary world. */
  type Publisher<!W> = (W, ButtonEvent) -> (W, Result)

  datatype Outcome<W> = Outcome(panel: Panel, world: W, log: seq<ButtonEvent>, rc: Result)
  {
    /** This outcome, with earlier events before its own. */
    ghost function After(earlier: seq<ButtonEvent>): Outcome<W> {
      this.(log := earlier + log)
    }
  }

  /** One button at one tick. */
  function ButtonStep<W>(p: Panel, b: nat, w: W, publish: Publisher<W>): (o: Outcome<W>)
    requires p.Valid() && b < BUTTONS
    ensures o.panel.Valid() && o.panel.raw == p.raw && o.panel.valid == p.valid
  {
    if Has(p.raw, b) == Has(p.stable, b) then SteadyStep(p, b, w, publish)
    else
      var d := if p.debounce[b] < UCHAR_MAX then p.debounce[b] + 1 else p.debounce[b];
      var waiting := p.(debounce := p.debounce[b := d]);
      if d < DEBOUNCE_TICKS then Outcome(waiting, w, [], Ok)
      else if Has(p.raw, b) then PressStep(p, b, w, publish)
      else ReleaseStep(p, b, w, publish)
  }

  /** A debounced press. */
  function PressStep<W>(p: Panel, b: nat, w: W, publish: Publisher<W>): (o: Outcome<W>)
    requires p.Valid() && b < BUTTONS
    ensures o.panel.Valid() && o.panel.raw == p.raw && o.panel.valid == p.valid
  {
    var q := p.(debounce := p.debounce[b := 0], stable := With(p.stable, b), hold := p.hold[b := 0],
                long := Without(p.long, b));
    var (w', rc) := publish(w, ButtonEvent(b, Press));
    Outcome(q, w', [ButtonEvent(b, Press)], rc)
  }

  /** No change: a button held long enough reports its long press, once. */
  function SteadyStep<W>(p: Panel, b: nat, w: W, publish: Publisher<W>): (o: Outcome<W>)
    requires p.Valid() && b < BUTTONS
    ensures o.panel.Valid() && o.panel.raw == p.raw && o.panel.valid == p.valid
  {
    var q := p.(debounce := p.debounce[b := 0]);
    if !Has(p.stable, b) then Outcome(q, w, [], Ok)
    else
      var h := if p.hold[b] < UINT16_MAX then p.hold[b] + 1 else p.hold[b];
      var q := q.(hold := p.hold[b := h]);
      if h < LONG_PRESS_TICKS || Has(p.long, b) then Outcome(q, w, [], Ok)
      else
        var (w', rc) := publish(w, ButtonEvent(b, Long));
        Outcome(if rc == Ok then q.(long := With(p.long, b)) else q, w', [ButtonEvent(b, Long)], rc)
  }

  /** A debounced release: the short press is reported only after the release was. */
  function ReleaseStep<W>(p: Panel, b: nat, w: W, publish: Publisher<W>): (o: Outcome<W>)
    requires p.Valid() && b < BUTTONS
    ensures o.panel.Valid() && o.panel.raw == p.raw && o.panel.valid == p.valid
  {
    var q := p.(debounce := p.debounce[b := 0], stable := Without(p.stable, b));
    var (w', rc) := publish(w, ButtonEvent(b, Release));
    var log := [ButtonEvent(b, Release)];
    if rc != Ok then Outcome(q, w', log, rc)
    else
      var r := q.(hold := p.hold[b := 0], long := Without(p.long, b));
      if Has(p.long, b) then Outcome(r, w', log, Ok)
      else
        var (w'', rc') := publish(w', ButtonEvent(b, Short));
        Outcome(r, w'', log + [ButtonEvent(b, Short)], rc')
  }

  /** The buttons from `b` on; a failed publication ends the tick. */
  function TickFrom<W>(p: Panel, b: nat, w: W, publish: Publisher<W>): (o: Outcome<W>)
    requires p.Valid() && b <= BUTTONS
    ensures o.panel.Valid() && o.panel.raw == p.raw && o.panel.valid == p.valid
    decreases BUTTONS - b
  {
    if b == BUTTONS then Outcome(p, w, [], Ok)
    else
      var o := ButtonStep(p, b, w, publish);
      if o.rc != Ok then o
      else
        var rest := TickFrom(o.panel, b + 1, o.world, publish);
        rest.(log := o.log + rest.log)
  }

  lemma TickStarts<W>(p: Panel, w: W, publish: Publisher<W>)
    requires p.Valid()
    ensures TickFrom(p, 0, w, publish) == TickFrom(p, 0, w, publish).After([])
  {
    hide ButtonStep, TickFrom;
    assert [] + TickFrom(p, 0, w, publish).log == TickFrom(p, 0, w, publish).log;
  }

  lemma TickUnfolds<W>(p: Panel, b: nat, w: W, publish: Publisher<W>, log: seq<ButtonEvent>)
    requires p.Valid() && b < BUTTONS
    ensures
      var o := ButtonStep(p, b, w, publish);
      TickFrom(p, b, w, publish).After(log) ==
      if o.rc != Ok then o.After(log) else TickFrom(o.panel, b + 1, o.world, publish).After(log + o.log)
  {
    hide ButtonStep;
    var o := ButtonStep(p, b, w, publish);
    if o.rc == Ok {
      var rest := TickFrom(o.panel, b + 1, o.world, publish);
      assert log + (o.log + rest.log) == log + o.log + rest.log;
    }
  }

  lemma TickEnds<W>(p: Panel, w: W, publish: Publisher<W>, log: seq<ButtonEvent>)
    requires p.Valid()
    ensures TickFrom(p, BUTTONS, w, publish).After(log) == Outcome(p, w, log, Ok)
  {
  }

  class PanelActor {
    var raw: bv8
    var valid: bool
    var stable: bv8
    var long: bv8
    const debounce: array<nat>
    const hold: array<nat>

    ghost predicate Valid()
      reads this
    {
      debounce.Length == BUTTONS && hold.Length == BUTTONS && debounce != hold
    }

    ghost function Value(): (p: Panel)
      reads this, debounce, hold
      requires Valid()
      ensures p.Valid()
    {
      Panel(raw, valid, stable, long, debounce[..], hold[..])
    }

    constructor ()
      ensures Valid() && Value() == InitialPanel && fresh(debounce) && fresh(hold)
    {
      raw, valid, stable, long := 0, false, 0, 0;
      debounce, hold := new nat[BUTTONS](_ => 0), new nat[BUTTONS](_ => 0);
      new;
      assert debounce[..] == [0, 0, 0, 0] && hold[..] == [0, 0, 0, 0];
    }

    method HandleInputsChanged(pressed: Option<bv8>) returns (rc: Result)
      requires Valid()
      modifies this`raw, this`valid
      ensures Valid() && rc == if pressed.Some? then Ok else ErrContract
      ensures Value() == if pressed.Some? then old(Value()).(raw := pressed.value & BUTTON_MASK, valid := true)
              else old(Value())
    {
      if pressed.None? {
        return ErrContract;
      }
      raw, valid := pressed.value & BUTTON_MASK, true;
      return Ok;
    }

    method HandleTick<W>(w: W, publish: Publisher<W>) returns (rc: Result, w': W, ghost log: seq<ButtonEvent>)
      requires Valid()
      modifies this`stable, this`long, debounce, hold
      ensures Valid()
      ensures valid ==> Outcome(Value(), w', log, rc) == TickFrom(old(Value()), 0, w, publish)
      ensures !valid ==> Value() == old(Value()) && w' == w && rc == Ok && log == []
    {
      log, w', rc := [], w, Ok;
      if !valid {
        return;
      }
      hide ButtonStep, TickFrom, Value;
      TickStarts(Value(), w, publish);
      rc, w', log := TickButtons(w, publish, TickFrom(Value(), 0, w, publish));
    }

    /** The tick loop, against what the whole tick does. */
    method TickButtons<W>(w: W, publish: Publisher<W>, ghost all: Outcome<W>)
      returns (rc: Result, w': W, ghost log: seq<ButtonEvent>)
      requires Valid() && all == TickFrom(Value(), 0, w, publish).After([])
      modifies this`stable, this`long, debounce, hold
      ensures Valid() && all == Outcome(Value(), w', log, rc)
    {
      hide ButtonStep, TickFrom, Value, Outcome.After;
      log, w', rc := [], w, Ok;
      var b := 0;
      while b < BUTTONS
        invariant b <= BUTTONS && rc == Ok
        invariant all == TickFrom(Value(), b, w', publish).After(log)
      {
        rc, w', log := TickButton(b, w', publish, log, all);
        if rc != Ok {
          return;
        }
        b := b + 1;
      }
      TickEnds(Value(), w', publish, log);
    }

    /** One turn of the tick loop, against what the whole tick does. */
    method TickButton<W>(b: nat, w: W, publish: Publisher<W>, ghost earlier: seq<ButtonEvent>, ghost all: Outcome<W>)
      returns (rc: Result, w': W, ghost log: seq<ButtonEvent>)
      requires Valid() && b < BUTTONS && all == TickFrom(Value(), b, w, publish).After(earlier)
      modifies this`stable, this`long, debounce, hold
      ensures Valid()
      ensures all == if rc == Ok then TickFrom(Value(), b + 1, w', publish).After(log)
              else Outcome(Value(), w', log, rc)
    {
      hide ButtonStep, TickFrom, Value;
      TickUnfolds(Value(), b, w, publish, earlier);
      rc, w', log := HandleButton(b, w, publish);
      log := earlier + log;
    }

    /** The body of the tick loop. */
    method HandleButton<W>(b: nat, w: W, publish: Publisher<W>) returns (rc: Result, w': W, ghost log: seq<ButtonEvent>)
      requires Valid() && b < BUTTONS
      modifies this`stable, this`long, debounce, hold
      ensures Valid() && Outcome(Value(), w', log, rc) == ButtonStep(old(Value()), b, w, publish)
    {
      hide Has, With, Without, PressStep, ReleaseStep, SteadyStep;
      rc, w', log := Ok, w, [];
      if Has(raw, b) == Has(stable, b) {
        rc, w', log := HandleSteady(b, w, publish);
        return;
      }
      if debounce[b] < UCHAR_MAX {
        debounce[b] := debounce[b] + 1;
      }
      if debounce[b] >= DEBOUNCE_TICKS {
        ghost var p := Value();
        if Has(raw, b) {
          rc, w', log := HandlePress(b, w, publish);
          PressIgnoresDebounce(p, b, w, publish, old(Value()));
        } else {
          rc, w', log := HandleRelease(b, w, publish);
          PressIgnoresDebounce(p, b, w, publish, old(Value()));
        }
      }
    }

    /** The running debounce count does not matter to what a press or a release does. */
    lemma PressIgnoresDebounce<W>(p: Panel, b: nat, w: W, publish: Publisher<W>, q: Panel)
      requires p.Valid() && q.Valid() && b < BUTTONS && p == q.(debounce := p.debounce)
               && p.debounce == q.debounce[b := p.debounce[b]]
      ensures PressStep(p, b, w, publish) == PressStep(q, b, w, publish)
      ensures ReleaseStep(p, b, w, publish) == ReleaseStep(q, b, w, publish)
    {
      hide Has, With, Without;
      assert p.debounce[b := 0] == q.debounce[b := 0];
    }

    method HandlePress<W>(b: nat, w: W, publish: Publisher<W>) returns (rc: Result, w': W, ghost log: seq<ButtonEvent>)
      requires Valid() && b < BUTTONS
      modifies this`stable, this`long, debounce, hold
      ensures Valid() && Outcome(Value(), w', log, rc) == PressStep(old(Value()), b, w, publish)
    {
      hide Has, With, Without;
      debounce[b] := 0;
      stable, long := With(stable, b), Without(long, b);
      hold[b] := 0;
      var r := publish(w, ButtonEvent(b, Press));
      w', rc, log := r.0, r.1, [ButtonEvent(b, Press)];
    }

    /** A button whose debounced state is its raw state. */
    method HandleSteady<W>(b: nat, w: W, publish: Publisher<W>) returns (rc: Result, w': W, ghost log: seq<ButtonEvent>)
      requires Valid() && b < BUTTONS
      modifies this`long, debounce, hold
      ensures Valid() && Outcome(Value(), w', log, rc) == SteadyStep(old(Value()), b, w, publish)
    {
      hide Has, With, Without;
      rc, w', log := Ok, w, [];
      debounce[b] := 0;
      if Has(stable, b) {
        if hold[b] < UINT16_MAX {
          hold[b] := hold[b] + 1;
        }
        if hold[b] >= LONG_PRESS_TICKS && !Has(long, b) {
          var r := publish(w, ButtonEvent(b, Long));
          w', rc, log := r.0, r.1, [ButtonEvent(b, Long)];
          if rc != Ok {
            return;
          }
          long := With(long, b);
        }
      }
    }

    method HandleRelease<W>(b: nat, w: W, publish: Publisher<W>)
      returns (rc: Result, w': W, ghost log: seq<ButtonEvent>)
      requires Valid() && b < BUTTONS
      modifies this`stable, this`long, debounce, hold
      ensures Valid() && Outcome(Value(), w', log, rc) == ReleaseStep(old(Value()), b, w, publish)
    {
      hide Has, With, Without;
      debounce[b] := 0;
      stable := Without(stable, b);
      var r := publish(w, ButtonEvent(b, Release));
      w', rc, log := r.0, r.1, [ButtonEvent(b, Release)];
      if rc != Ok {
        return;
      }
      if !Has(long, b) {
        r := publish(w', ButtonEvent(b, Short));
        w', rc, log := r.0, r.1, log + [ButtonEvent(b, Short)];
      }
      hold[b] := 0;
      long := Without(long, b);
    }
  }

  const InitialPanel: Panel := Panel(0, false, 0, 0, [0, 0, 0, 0], [0, 0, 0, 0])

  // ----- the report in terms of how long a button was down -----

  /** How many samples in a row, up to sample `t`, were down. */
  function HeldFor(s: seq<bool>, t: nat): (n: nat)
    requires t < |s|
    ensures n <= t + 1 && (n > 0 <==> s[t])
  {
    if !s[t] then 0 else if t == 0 then 1 else 1 + HeldFor(s, t - 1)
  }

  /** What a sample reports after `held` samples in a row down: a long press is reported at the eleventh. */
  function Edge(held: nat, down: bool): seq<ButtonAction> {
    if down && held == 0 then [Press]
    else if down && held == LONG_PRESS_TICKS then [Long]
    else if !down && held > LONG_PRESS_TICKS then [Release]
    else if !down && held > 0 then [Release, Short]
    else []
  }

  function HeldAtEnd(s: seq<bool>): nat {
    if s == [] then 0 else HeldFor(s, |s| - 1)
  }

  function Report(s: seq<bool>): seq<ButtonAction>
    decreases |s|
  {
    if s == [] then [] else Report(s[..|s| - 1]) + Edge(HeldAtEnd(s[..|s| - 1]), s[|s| - 1])
  }

  /** The events of one button. */
  function ActionsOf(log: seq<ButtonEvent>, b: nat): seq<ButtonAction>
    decreases |log|
  {
    if log == [] then []
    else ActionsOf(log[..|log| - 1], b) + if log[|log| - 1].button == b then [log[|log| - 1].action] else []
  }

  lemma {:induction false} ActionsOfConcat(x: seq<ButtonEvent>, y: seq<ButtonEvent>, b: nat)
    ensures ActionsOf(x + y, b) == ActionsOf(x, b) + ActionsOf(y, b)
    decreases |y|
  {
    if y == [] {
      assert x + y == x;
    } else {
      ActionsOfConcat(x, y[..|y| - 1], b);
      assert (x + y)[..|x + y| - 1] == x + y[..|y| - 1];
    }
  }

  /** The actor's record of a button held for `n` samples. */
  ghost predicate Holds(p: Panel, b: nat, n: nat)
    requires p.Valid() && b < BUTTONS
  {
    && p.debounce[b] == 0
    && (Has(p.stable, b) <==> n > 0)
    && (Has(p.long, b) <==> n > LONG_PRESS_TICKS)
    && (n > 0 ==> p.hold[b] == Min(n - 1, UINT16_MAX))
  }

  lemma HeldForPrefix(s: seq<bool>, t: seq<bool>, i: nat)
    requires i < |s| && s <= t
    ensures HeldFor(t, i) == HeldFor(s, i)
  {
  }

  lemma HeldAfter(s: seq<bool>, r: bool)
    ensures HeldAtEnd(s + [r]) == if r then HeldAtEnd(s) + 1 else 0
    ensures Report(s + [r]) == Report(s) + Edge(HeldAtEnd(s), r)
  {
    assert (s + [r])[..|s + [r]| - 1] == s;
    if s != [] {
      HeldForPrefix(s, s + [r], |s| - 1);
    }
  }

  /** Two states agree on a button. */
  ghost predicate Same(p: Panel, q: Panel, j: nat)
    requires p.Valid() && q.Valid() && j < BUTTONS
  {
    && Has(p.raw, j) == Has(q.raw, j) && Has(p.stable, j) == Has(q.stable, j) && Has(p.long, j) == Has(q.long, j)
    && p.debounce[j] == q.debounce[j] && p.hold[j] == q.hold[j]
  }

  /** The steps of one button report only that button. */
  lemma OneButton(b: nat, j: nat, x: ButtonAction, y: ButtonAction)
    ensures ActionsOf([], j) == []
    ensures ActionsOf([ButtonEvent(b, x)], j) == if j == b then [x] else []
    ensures ActionsOf([ButtonEvent(b, x)] + [ButtonEvent(b, y)], j) == if j == b then [x, y] else []
  {
    ActionsOfConcat([ButtonEvent(b, x)], [ButtonEvent(b, y)], j);
  }

  lemma SteadyIsLocal<W>(p: Panel, b: nat, w: W, publish: Publisher<W>, j: nat)
    requires p.Valid() && b < BUTTONS && j < BUTTONS && j != b
    ensures var o := SteadyStep(p, b, w, publish); Same(p, o.panel, j) && ActionsOf(o.log, j) == []
  {
    hide Has, With, Without, ActionsOf;
    BitsAreIndependent(p.long, b, j);
    OneButton(b, j, Long, Short);
    var q := SteadyStep(p, b, w, publish).panel;
    assert q.stable == p.stable && q.debounce[j] == p.debounce[j] && q.hold[j] == p.hold[j];
  }

  lemma ChangeIsLocal<W>(p: Panel, b: nat, w: W, publish: Publisher<W>, j: nat)
    requires p.Valid() && b < BUTTONS && j < BUTTONS && j != b
    ensures var o := PressStep(p, b, w, publish); Same(p, o.panel, j) && ActionsOf(o.log, j) == []
    ensures var o := ReleaseStep(p, b, w, publish); Same(p, o.panel, j) && ActionsOf(o.log, j) == []
  {
    hide Has, With, Without, ActionsOf;
    BitsAreIndependent(p.stable, b, j);
    BitsAreIndependent(p.long, b, j);
    OneButton(b, j, Release, Short);
    OneButton(b, j, Press, Short);
  }

  /** One button's step touches no other button's state and reports only its own events. */
  lemma ButtonsDoNotInterfere<W>(p: Panel, b: nat, w: W, publish: Publisher<W>, j: nat)
    requires p.Valid() && b < BUTTONS && j < BUTTONS && j != b
    ensures
      var o := ButtonStep(p, b, w, publish);
      Same(p, o.panel, j) && ActionsOf(o.log, j) == []
  {
    hide Has, ActionsOf, PressStep, ReleaseStep, SteadyStep;
    SteadyIsLocal(p, b, w, publish, j);
    ChangeIsLocal(p, b, w, publish, j);
    OneButton(b, j, Press, Short);
  }

  lemma PressReports<W>(p: Panel, b: nat, w: W, publish: Publisher<W>)
    requires p.Valid() && b < BUTTONS
    ensures var o := PressStep(p, b, w, publish); Holds(o.panel, b, 1) && ActionsOf(o.log, b) == [Press]
  {
    hide Has, With, Without, ActionsOf;
    BitsAreIndependent(p.stable, b, b);
    BitsAreIndependent(p.long, b, b);
    OneButton(b, b, Press, Short);
  }

  lemma ReleaseReports<W>(p: Panel, b: nat, w: W, publish: Publisher<W>, n: nat)
    requires p.Valid() && b < BUTTONS && Holds(p, b, n) && n > 0 && ReleaseStep(p, b, w, publish).rc == Ok
    ensures var o := ReleaseStep(p, b, w, publish); Holds(o.panel, b, 0) && ActionsOf(o.log, b) == Edge(n, false)
  {
    hide Has, With, Without, ActionsOf;
    BitsAreIndependent(p.stable, b, b);
    BitsAreIndependent(p.long, b, b);
    OneButton(b, b, Release, Short);
  }

  /** A steady button reports its long press at the eleventh sample down and at no other. */
  lemma SteadyLog<W>(p: Panel, b: nat, w: W, publish: Publisher<W>, n: nat)
    requires p.Valid() && b < BUTTONS && Holds(p, b, n)
    ensures SteadyStep(p, b, w, publish).log == if n == LONG_PRESS_TICKS then [ButtonEvent(b, Long)] else []
  {
    hide Has, With;
  }

  lemma SteadyHold<W>(p: Panel, b: nat, w: W, publish: Publisher<W>, n: nat)
    requires p.Valid() && b < BUTTONS && Holds(p, b, n)
    ensures
      var q := SteadyStep(p, b, w, publish).panel;
      q.debounce[b] == 0 && q.stable == p.stable && (n > 0 ==> q.hold[b] == Min(n, UINT16_MAX))
  {
    hide Has, With;
  }

  lemma SteadyLong<W>(p: Panel, b: nat, w: W, publish: Publisher<W>, n: nat)
    requires p.Valid() && b < BUTTONS && Holds(p, b, n) && SteadyStep(p, b, w, publish).rc == Ok
    ensures Has(SteadyStep(p, b, w, publish).panel.long, b) <==> n >= LONG_PRESS_TICKS
  {
    hide Has, With;
    BitsAreIndependent(p.long, b, b);
  }

  lemma SteadyRecord<W>(p: Panel, b: nat, w: W, publish: Publisher<W>, n: nat)
    requires p.Valid() && b < BUTTONS && Holds(p, b, n) && SteadyStep(p, b, w, publish).rc == Ok
    ensures Holds(SteadyStep(p, b, w, publish).panel, b, if n > 0 then n + 1 else 0)
  {
    hide Has, With, SteadyStep;
    SteadyHold(p, b, w, publish, n);
    SteadyLong(p, b, w, publish, n);
  }

  lemma SteadyReports<W>(p: Panel, b: nat, w: W, publish: Publisher<W>, n: nat)
    requires p.Valid() && b < BUTTONS && Holds(p, b, n) && SteadyStep(p, b, w, publish).rc == Ok
    ensures
      var o := SteadyStep(p, b, w, publish);
      Holds(o.panel, b, if n > 0 then n + 1 else 0) && ActionsOf(o.log, b) == Edge(n, n > 0)
  {
    hide Holds, SteadyStep, ActionsOf;
    SteadyLog(p, b, w, publish, n);
    SteadyRecord(p, b, w, publish, n);
    OneButton(b, b, Long, Short);
  }

  /** A step with its publications accepted reports exactly what the sample should, and keeps the record. */
  lemma StepReports<W>(p: Panel, b: nat, w: W, publish: Publisher<W>, n: nat)
    requires p.Valid() && b < BUTTONS && Holds(p, b, n) && ButtonStep(p, b, w, publish).rc == Ok
    ensures
      var o, down := ButtonStep(p, b, w, publish), Has(p.raw, b);
      Holds(o.panel, b, if down then n + 1 else 0) && ActionsOf(o.log, b) == Edge(n, down)
  {
    hide Has, PressStep, ReleaseStep, SteadyStep, ActionsOf;
    if Has(p.raw, b) == Has(p.stable, b) {
      SteadyReports(p, b, w, publish, n);
    } else if Has(p.raw, b) {
      PressReports(p, b, w, publish);
    } else {
      ReleaseReports(p, b, w, publish, n);
    }
  }

  /** A whole tick does so for every button from `b` on, and leaves the others alone. */
  lemma {:induction false} TickReports<W>(p: Panel, b: nat, w: W, publish: Publisher<W>, j: nat, n: nat)
    requires p.Valid() && b <= BUTTONS && j < BUTTONS && TickFrom(p, b, w, publish).rc == Ok && Holds(p, j, n)
    ensures
      var o, down := TickFrom(p, b, w, publish), Has(p.raw, j);
      if j < b then Holds(o.panel, j, n) && ActionsOf(o.log, j) == []
      else Holds(o.panel, j, if down then n + 1 else 0) && ActionsOf(o.log, j) == Edge(n, down)
    decreases BUTTONS - b
  {
    hide Has, ButtonStep, Edge;
    if b < BUTTONS {
      var o := ButtonStep(p, b, w, publish);
      var m := n;
      if b == j {
        StepReports(p, b, w, publish, n);
        m := if Has(p.raw, j) then n + 1 else 0;
      } else {
        ButtonsDoNotInterfere(p, b, w, publish, j);
      }
      TickReports(o.panel, b + 1, o.world, publish, j, m);
      ActionsOfConcat(o.log, TickFrom(o.panel, b + 1, o.world, publish).log, j);
    }
  }

  // ----- runs -----

  datatype Input = InputsChanged(pressed: Option<bv8>) | Tick

  datatype Run<W> = Run(panel: Panel, world: W, log: seq<ButtonEvent>, allAccepted: bool)

  function Exec<W>(r: Run<W>, publish: Publisher<W>, e: Input): (o: Run<W>)
    requires r.panel.Valid()
    ensures o.panel.Valid()
  {
    match e
    case InputsChanged(None) => r
    case InputsChanged(Some(m)) => r.(panel := r.panel.(raw := m & BUTTON_MASK, valid := true))
    case Tick =>
      if !r.panel.valid then r
      else
        var o := TickFrom(r.panel, 0, r.world, publish);
        Run(o.panel, o.world, r.log + o.log, r.allAccepted && o.rc == Ok)
  }

  function RunOf<W>(w: W, publish: Publisher<W>, es: seq<Input>): (o: Run<W>)
    ensures o.panel.Valid()
    decreases |es|
  {
    if es == [] then Run(InitialPanel, w, [], true)
    else Exec(RunOf(w, publish, es[..|es| - 1]), publish, es[|es| - 1])
  }

  /** The last mask received, if any. */
  function LastMask(es: seq<Input>): Option<bv8>
    decreases |es|
  {
    if es == [] then None
    else match es[|es| - 1]
      case InputsChanged(Some(m)) => Some(m)
      case _ => LastMask(es[..|es| - 1])
  }

  /** A button's samples: its bit of the last mask at every tick after the first mask. */
  function Samples(es: seq<Input>, b: nat): seq<bool>
    requires b < BUTTONS
    decreases |es|
  {
    if es == [] then []
    else
      var prior := Samples(es[..|es| - 1], b);
      var m := LastMask(es[..|es| - 1]);
      if es[|es| - 1].Tick? && m.Some? then prior + [Has(m.value & BUTTON_MASK, b)] else prior
  }

  /**
   For any inputs, if every publication was accepted, each button's events are exactly
   its report: what the others do, and in which order buttons are visited, plays no part.
   */
  lemma {:induction false} TraceIsReport<W>(w: W, publish: Publisher<W>, es: seq<Input>, b: nat)
    requires b < BUTTONS && RunOf(w, publish, es).allAccepted
    ensures ActionsOf(RunOf(w, publish, es).log, b) == Report(Samples(es, b))
    ensures Holds(RunOf(w, publish, es).panel, b, HeldAtEnd(Samples(es, b)))
    ensures RunOf(w, publish, es).panel.valid <==> LastMask(es).Some?
    ensures LastMask(es).Some? ==> RunOf(w, publish, es).panel.raw == LastMask(es).value & BUTTON_MASK
    decreases |es|
  {
    hide Exec, Has, Report, HeldAtEnd, ActionsOf, Holds;
    if es == [] {
      NothingPressed(b);
    } else {
      var prior, e := es[..|es| - 1], es[|es| - 1];
      var r := RunOf(w, publish, prior);
      ExecAccepted(r, publish, e);
      TraceIsReport(w, publish, prior, b);
      if e.Tick? && r.panel.valid {
        TickTracks(r, publish, Samples(prior, b), b);
      } else {
        MaskTracks(r, publish, e, b);
      }
    }
  }

  lemma ExecAccepted<W>(r: Run<W>, publish: Publisher<W>, e: Input)
    requires r.panel.Valid() && Exec(r, publish, e).allAccepted
    ensures r.allAccepted
  {
  }

  /** A tick adds a sample and reports it. */
  lemma TickTracks<W>(r: Run<W>, publish: Publisher<W>, s: seq<bool>, b: nat)
    requires r.panel.Valid() && r.panel.valid && b < BUTTONS && Exec(r, publish, Tick).allAccepted
    requires Holds(r.panel, b, HeldAtEnd(s)) && ActionsOf(r.log, b) == Report(s)
    ensures
      var o, t := Exec(r, publish, Tick), s + [Has(r.panel.raw, b)];
      && Holds(o.panel, b, HeldAtEnd(t)) && ActionsOf(o.log, b) == Report(t)
      && o.panel.valid && o.panel.raw == r.panel.raw
  {
    hide TickFrom, Has, Edge, Report, HeldAtEnd, ActionsOf, Holds;
    TickReports(r.panel, 0, r.world, publish, b, HeldAtEnd(s));
    ActionsOfConcat(r.log, TickFrom(r.panel, 0, r.world, publish).log, b);
    HeldAfter(s, Has(r.panel.raw, b));
  }

  /** Anything else adds no sample and reports nothing. */
  lemma MaskTracks<W>(r: Run<W>, publish: Publisher<W>, e: Input, b: nat)
    requires r.panel.Valid() && b < BUTTONS && (e.Tick? ==> !r.panel.valid)
    ensures
      var o := Exec(r, publish, e);
      && o.log == r.log && (forall n: nat :: Holds(r.panel, b, n) ==> Holds(o.panel, b, n))
      && match e {
           case InputsChanged(Some(m)) => o.panel.valid && o.panel.raw == m & BUTTON_MASK
           case _ => o.panel == r.panel
         }
  {
    hide Has;
  }

  lemma NothingPressed(b: nat)
    requires b < BUTTONS
    ensures Holds(InitialPanel, b, HeldAtEnd([])) && ActionsOf([], b) == Report([])
  {
  }

  // ----- the grammar of a report -----

  /** Where a button is in its cycle; after a release without a long press the short press is due. */
  datatype Phase = Up | Down(longSeen: bool) | ShortDue

  function Follow(p: Phase, a: ButtonAction): Option<Phase> {
    match (p, a)
    case (Up, Press) => Some(Down(false))
    case (Down(false), Long) => Some(Down(true))
    case (Down(true), Release) => Some(Up)
    case (Down(false), Release) => Some(ShortDue)
    case (ShortDue, Short) => Some(Up)
    case _ => None
  }

  /** The phase after a trace, if the trace is a prefix of press, long?, release, short-unless-long cycles. */
  function Parse(t: seq<ButtonAction>): Option<Phase>
    decreases |t|
  {
    if t == [] then Some(Up)
    else
      var p := Parse(t[..|t| - 1]);
      if p.None? then None else Follow(p.value, t[|t| - 1])
  }

  lemma ParseAppend(t: seq<ButtonAction>, a: ButtonAction)
    ensures Parse(t + [a]) == if Parse(t).None? then None else Follow(Parse(t).value, a)
  {
    assert (t + [a])[..|t + [a]| - 1] == t;
  }

  /** Every report is made of such cycles, and is up, down or past a long press as the samples are. */
  lemma {:induction false} ReportIsCyclic(s: seq<bool>)
    ensures Parse(Report(s)) == Some(if HeldAtEnd(s) == 0 then Up else Down(HeldAtEnd(s) > LONG_PRESS_TICKS))
    decreases |s|
  {
    if s != [] {
      var prior, r := s[..|s| - 1], s[|s| - 1];
      ReportIsCyclic(prior);
      assert s == prior + [r];
      HeldAfter(prior, r);
      EdgeFollows(Report(prior), HeldAtEnd(prior), r);
    }
  }

  lemma EdgeFollows(t: seq<ButtonAction>, n: nat, down: bool)
    requires Parse(t) == Some(if n == 0 then Up else Down(n > LONG_PRESS_TICKS))
    ensures Parse(t + Edge(n, down)) == Some(if !down then Up else Down(n + 1 > LONG_PRESS_TICKS))
  {
    hide Parse;
    var e := Edge(n, down);
    if |e| == 0 {
      assert t + e == t;
    } else {
      ParseAppend(t, e[0]);
      if |e| == 2 {
        ParseAppend(t + [e[0]], e[1]);
        assert t + e == t + [e[0]] + [e[1]];
      }
    }
  }
}
