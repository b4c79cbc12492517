/**
 The network outbox (`runtime/src/ev_network_outbox.c`): a ring indexed by two 32-bit
 sequence counters that wrap, with a count per category and a back-pressure policy that
 may change from call to call.
 */
module Outbox {
  import opened Results
  import opened Bits

  const CATEGORIES: nat := 4
  const PAYLOAD_BYTES: nat := 64

  /** A slot's storage; an item's payload is its first `size` bytes. */
  type Storage = s: seq<Byte> | |s| == 64 witness Zeroes(64)

  function Zeroes(n: nat): (s: seq<Byte>)
    ensures |s| == n
  {
    if n == 0 then [] else Zeroes(n - 1) + [0]
  }

  datatype Item = Item(category: nat, size: nat, payload: Storage)

  /** A policy has one limit and one choice for each category; a limit of zero is none. */
  datatype PolicyRecord = Policy(limit: seq<nat>, dropOldest: seq<bool>)

  type Policy = p: PolicyRecord | |p.limit| == CATEGORIES && |p.dropOldest| == CATEGORIES
    witness Policy([0, 0, 0, 0], [false, false, false, false])

  /** What the outbox stands for: the items queued, all that ever entered and left, and the totals. */
  datatype Ledger = Ledger(
    queue: seq<Item>, entered: seq<Item>, left: seq<Item>,
    accepted: nat, rejected: nat, dropped: nat, popped: nat, highWater: nat)

  const EmptyLedger: Ledger := Ledger([], [], [], 0, 0, 0, 0, 0)

  function CountOf(q: seq<Item>, c: nat): (n: nat)
    ensures n <= |q|
    decreases |q|
  {
    if q == [] then 0 else CountOf(q[..|q| - 1], c) + if q[|q| - 1].category == c then 1 else 0
  }

  function DropHead(l: Ledger): Ledger
    requires l.queue != []
  {
    l.(queue := l.queue[1..], left := l.left + [l.queue[0]], dropped := l.dropped + 1)
  }

  function Append(l: Ledger, item: Item): Ledger {
    l.(queue := l.queue + [item], entered := l.entered + [item], accepted := l.accepted + 1,
    highWater := Max(l.highWater, |l.queue| + 1))
  }

  predicate AtLimit(l: Ledger, p: Policy, c: nat)
    requires c < CATEGORIES
  {
    p.limit[c] != 0 && CountOf(l.queue, c) >= p.limit[c]
  }

  function Push(l: Ledger, capacity: nat, p: Policy, item: Item): (Ledger, Result)
    requires item.category < CATEGORIES
  {
    var limited := AtLimit(l, p, item.category);
    if limited && !(p.dropOldest[item.category] && l.queue != []) then (l.(rejected := l.rejected + 1), ErrFull)
    else
      var m := if limited then DropHead(l) else l;
      if |m.queue| >= capacity then (m.(rejected := m.rejected + 1), ErrFull) else (Append(m, item), Ok)
  }

  /**
   Exactly when a push is accepted.  A category below its limit needs a free place; one at
   its limit needs the leave to drop and something to drop, whatever category that is.  A
   refusal changes nothing but its count.
   */
  lemma PushIsExact(l: Ledger, capacity: nat, p: Policy, item: Item)
    requires item.category < CATEGORIES && |l.queue| <= capacity
    ensures
      var (m, rc) := Push(l, capacity, p, item);
      var c := item.category;
      var limited := 0 < p.limit[c] <= CountOf(l.queue, c);
      && (rc == Ok <==> if limited then p.dropOldest[c] && l.queue != [] else |l.queue| < capacity)
      && (rc != Ok ==> rc == ErrFull && m == l.(rejected := l.rejected + 1))
      && (rc == Ok ==>
            && m.queue == (if limited then l.queue[1..] else l.queue) + [item]
            && m.entered == l.entered + [item] && m.accepted == l.accepted + 1
            && m.left == l.left + (if limited then [l.queue[0]] else [])
            && m.dropped == l.dropped + (if limited then 1 else 0)
            && m.rejected == l.rejected && m.popped == l.popped && m.highWater == Max(l.highWater, |m.queue|))
  {
  }

  function Pop(l: Ledger): (Ledger, Option<Item>) {
    if l.queue == [] then (l, None)
    else (l.(queue := l.queue[1..], left := l.left + [l.queue[0]], popped := l.popped + 1), Some(l.queue[0]))
  }

  /** What entered is what left followed by what is queued, and the totals count both. */
  ghost predicate Balanced(l: Ledger) {
    l.entered == l.left + l.queue && |l.entered| == l.accepted && |l.left| == l.popped + l.dropped
  }

  lemma DropHeadBalances(l: Ledger)
    requires Balanced(l) && l.queue != []
    ensures Balanced(DropHead(l)) && Balanced(Pop(l).0)
  {
    assert l.left + l.queue == (l.left + [l.queue[0]]) + l.queue[1..];
  }

  lemma AppendBalances(l: Ledger, item: Item)
    requires Balanced(l)
    ensures Balanced(Append(l, item))
  {
    assert l.left + (l.queue + [item]) == (l.left + l.queue) + [item];
  }

  /** The ring slot of a sequence number. */
  function Slot(s: nat, capacity: nat): (i: nat)
    requires capacity > 0
    ensures i < capacity
  {
    s % capacity
  }

  // ----- the ring -----

  /** The slot of each pending sequence number holds the item accepted under that number. */
  ghost predicate Stored(items: array<Item>, left: nat, entered: seq<Item>)
    reads items
  {
    items.Length > 0 &&
    forall n :: left <= n < |entered| ==> items[Slot(n, items.Length)] == entered[n]
  }

  /** Each category's count is the number of its items pending. */
  ghost predicate Counted(queued: array<nat>, queue: seq<Item>)
    reads queued
  {
    && queued.Length == CATEGORIES
    && (forall c :: 0 <= c < CATEGORIES ==> queued[c] == CountOf(queue, c))
    && forall k :: 0 <= k < |queue| ==> queue[k].category < CATEGORIES
  }

  lemma NextWord(x: nat)
    ensures (x % WORD + 1) % WORD == (x + 1) % WORD
  {
  }

  lemma NothingPending(items: array<Item>, queued: array<nat>)
    requires items.Length > 0 && queued.Length == CATEGORIES && forall c :: 0 <= c < CATEGORIES ==> queued[c] == 0
    ensures Stored(items, 0, []) && Counted(queued, []) && Balanced(EmptyLedger)
  {
  }

  lemma ModOfMod(s: nat, m: nat, n: nat)
    requires m > 0 && n > 0
    ensures m * n > 0 && (s % (m * n)) % n == s % n
  {
    var w := m * n;
    assert w > 0;
    var q, r := s / w, s % w;
    var a, b := r / n, r % n;
    calc {
      s;
      q * w + r;
      q * (m * n) + (a * n + b);
      { assert q * (m * n) == (q * m) * n; }
      (q * m) * n + a * n + b;
      { assert (q * m + a) * n == (q * m) * n + a * n; }
      (q * m + a) * n + b;
    }
    ModOf(q * m + a, n, b);
  }

  /** A power of two below 2^32 divides 2^32, so reducing a counter first does not move its slot. */
  lemma WrapKeepsSlot(s: nat, capacity: nat)
    requires PowerOfTwoTest(capacity) && capacity <= WORD
    ensures (s % WORD) % capacity == s % capacity
  {
    PowerOfTwoTestIsExact(capacity);
    var k: nat :| capacity == Pow2(k);
    PowIs32();
    if k > 32 { PowGrows(32, k); }
    PowSplits(k, 32);
    ModOfMod(s, Pow2(32 - k), capacity);
  }

  lemma PowIs32()
    ensures Pow2(32) == WORD
  {
    assert Pow2(8) == 256;
    assert Pow2(16) == 65536;
    assert Pow2(24) == 0x100_0000;
  }

  lemma {:induction false} PowGrows(k: nat, n: nat)
    requires k < n
    ensures Pow2(k) < Pow2(n)
  {
    if k + 1 < n {
      PowGrows(k, n - 1);
    }
  }

  lemma {:induction false} PowSplits(k: nat, n: nat)
    requires k <= n
    ensures Pow2(n) == Pow2(n - k) * Pow2(k)
    decreases n - k
  {
    if k < n {
      PowSplits(k + 1, n);
      assert Pow2(n - k) == 2 * Pow2(n - k - 1);
    }
  }

  /** Sequence numbers less than a capacity apart have different slots. */
  lemma SlotsDiffer(s: nat, d: nat, capacity: nat)
    requires 0 < d < capacity
    ensures Slot(s + d, capacity) != Slot(s, capacity)
  {
    var q, r := s / capacity, s % capacity;
    assert s == q * capacity + r;
    if r + d < capacity {
      ModOf(q, capacity, r + d);
    } else {
      assert s + d == (q + 1) * capacity + (r + d - capacity);
      ModOf(q + 1, capacity, r + d - capacity);
    }
  }

  /** The difference of two wrapped counters is the true distance while that is small. */
  lemma WrappedDistance(a: nat, d: nat)
    requires d < WORD
    ensures ((a + d) % WORD + WORD - a % WORD) % WORD == d
  {
  }

  class OutboxRing {
    const capacity: nat
    const items: array<Item>
    const queued: array<nat>
    var writeSeq: nat
    var readSeq: nat
    var highWater: nat
    var accepted: nat
    var rejected: nat
    var dropped: nat
    /** What the ring stands for. */
    ghost var ledger: Ledger

    ghost predicate Shape() {
      && PowerOfTwoTest(capacity) && capacity < WORD
      && items.Length == capacity && queued.Length == CATEGORIES
    }

    /** The counters are the totals reduced to 32 bits; an item's place is its number among all accepted. */
    ghost predicate Counters()
      reads this`writeSeq, this`readSeq, this`highWater, this`accepted, this`rejected, this`dropped, this`ledger
    {
      && Balanced(ledger)
      && |ledger.queue| <= capacity
      && writeSeq == accepted == ledger.accepted % WORD
      && readSeq == |ledger.left| % WORD
      && rejected == ledger.rejected % WORD && dropped == ledger.dropped % WORD
      && highWater == ledger.highWater
    }

    ghost predicate Valid()
      reads this, items, queued
    {
      Shape() && Counters() && Stored(items, |ledger.left|, ledger.entered) && Counted(queued, ledger.queue)
    }

    constructor (capacity: nat)
      requires PowerOfTwoTest(capacity) && capacity < WORD
      ensures Valid() && ledger == EmptyLedger && this.capacity == capacity && fresh(items) && fresh(queued)
    {
      hide BitAnd, CountOf, Slot, Stored, Counted, Balanced;
      this.capacity := capacity;
      items := new Item[capacity](_ => Item(0, 0, Zeroes(PAYLOAD_BYTES)));
      queued := new nat[CATEGORIES](_ => 0);
      writeSeq, readSeq, highWater, accepted, rejected, dropped := 0, 0, 0, 0, 0, 0;
      ledger := EmptyLedger;
      new;
      NothingPending(items, queued);
    }

    /** How many items are pending: the wrapped difference of the counters. */
    function Pending(): (n: nat)
      requires Valid()
      reads this, items, queued
      ensures n == |ledger.queue|
    {
      WrappedDistance(|ledger.left|, |ledger.queue|);
      (writeSeq + WORD - readSeq) % WORD
    }

    function Index(seqNo: nat): (i: nat)
      requires Shape()
      ensures i == Slot(seqNo, capacity)
    {
      MaskIsMod(seqNo, capacity);
      BitAnd(seqNo, capacity - 1)
    }

    /** The slot the read counter points at holds the head. */
    lemma HeadIsStored()
      requires Valid() && ledger.queue != []
      ensures items[Slot(readSeq, capacity)] == ledger.queue[0]
      ensures Stored(items, |ledger.left| + 1, ledger.entered)
    {
      hide PowerOfTwoTest, CountOf;
      WrapKeepsSlot(|ledger.left|, capacity);
      assert ledger.entered[|ledger.left|] == ledger.queue[0];
    }

    /** Take the head out of the ring, as popping and dropping both do. */
    method TakeHead(popping: bool) returns (item: Item)
      requires Valid() && ledger.queue != []
      modifies this`readSeq, this`dropped, this`ledger, queued
      ensures Valid() && item == old(ledger.queue[0])
      ensures ledger == if popping then Pop(old(ledger)).0 else DropHead(old(ledger))
    {
      hide PowerOfTwoTest, CountOf, Slot, Stored, Counted, Balanced;
      HeadIsStored();
      item := items[Index(readSeq)];
      DropHeadBalances(ledger);
      Uncount(item);
      NextWord(|ledger.left|);
      NextWord(ledger.dropped);
      readSeq := (readSeq + 1) % WORD;
      if !popping {
        dropped := (dropped + 1) % WORD;
      }
      ledger := if popping then Pop(ledger).0 else DropHead(ledger);
    }

    /** Lower the count of the head's category; the guard against zero never applies. */
    method Uncount(item: Item)
      requires Counted(queued, ledger.queue) && ledger.queue != [] && item == ledger.queue[0]
      modifies queued
      ensures Counted(queued, ledger.queue[1..])
    {
      hide CountOf;
      CountWithoutHead(ledger.queue);
      if item.category < CATEGORIES && queued[item.category] > 0 {
        queued[item.category] := queued[item.category] - 1;
      }
    }

    /** Put an item in the slot after the last; a missing payload leaves the slot's old bytes. */
    method Put(category: nat, payload: Option<seq<Byte>>, size: nat) returns (ghost item: Item)
      requires Valid() && |ledger.queue| < capacity && category < CATEGORIES
               && (payload.Some? ==> |payload.value| == size)
      modifies this`writeSeq, this`accepted, this`highWater, this`ledger, items, queued
      ensures Valid() && ledger == Append(old(ledger), item)
      ensures IsItem(item, category, payload, size)
    {
      hide PowerOfTwoTest, CountOf, Slot, Stored, Counted, Balanced, IsItem;
      var pending := Pending();
      item := Store(category, payload, size);
      Count(item, category);
      AppendBalances(ledger, item);
      NextWord(ledger.accepted);
      writeSeq := (writeSeq + 1) % WORD;
      accepted := (accepted + 1) % WORD;
      highWater := Max(highWater, pending + 1);
      ledger := Append(ledger, item);
    }

    method Count(ghost item: Item, category: nat)
      requires Counted(queued, ledger.queue) && category == item.category < CATEGORIES
      modifies queued
      ensures Counted(queued, ledger.queue + [item])
    {
      hide CountOf;
      CountWithTail(ledger.queue, item);
      queued[category] := queued[category] + 1;
    }

    method Store(category: nat, payload: Option<seq<Byte>>, size: nat) returns (ghost item: Item)
      requires Shape() && Counters() && Stored(items, |ledger.left|, ledger.entered)
      requires |ledger.queue| < capacity && (payload.Some? ==> |payload.value| == size)
      modifies items
      ensures Stored(items, |ledger.left|, ledger.entered + [item])
      ensures IsItem(item, category, payload, size) && item.category == category
    {
      hide PowerOfTwoTest;
      WrapKeepsSlot(ledger.accepted, capacity);
      PutKeepsOthers();
      var i := Index(writeSeq);
      var stored := CopyPayload(items[i], category, payload, size);
      item := stored;
      items[i] := stored;
    }

    lemma PutKeepsOthers()
      requires Shape() && Counters() && |ledger.queue| < capacity
      ensures forall n :: |ledger.left| <= n < |ledger.entered| ==> Slot(n, capacity) != Slot(ledger.accepted, capacity)
    {
      hide PowerOfTwoTest;
      forall n | |ledger.left| <= n < |ledger.entered|
        ensures Slot(n, capacity) != Slot(ledger.accepted, capacity)
      {
        SlotsDiffer(n, ledger.accepted - n, capacity);
      }
    }

    method Reject() returns (rc: Result)
      requires Valid()
      modifies this`rejected, this`ledger
      ensures Valid() && rc == ErrFull && ledger == old(ledger).(rejected := old(ledger).rejected + 1)
    {
      hide PowerOfTwoTest, CountOf, Slot, Stored, Counted, Balanced;
      RejectBalances(ledger);
      NextWord(ledger.rejected);
      rejected := (rejected + 1) % WORD;
      ledger := ledger.(rejected := ledger.rejected + 1);
      return ErrFull;
    }

    static method CopyPayload(slot: Item, category: nat, payload: Option<seq<Byte>>, size: nat) returns (item: Item)
      requires payload.Some? ==> |payload.value| == size
      ensures IsItem(item, category, payload, size)
      ensures item.payload[if payload.Some? then item.size else 0..] ==
              slot.payload[if payload.Some? then item.size else 0..]
    {
      var n := Min(size, PAYLOAD_BYTES);
      item := Item(category, n, slot.payload);
      if payload.Some? && n > 0 {
        item := item.(payload := payload.value[..n] + slot.payload[n..]);
      }
    }

    /** The ring does what the ledger says, whatever the counters' values. */
    method PushItem(p: Policy, category: nat, payload: Option<seq<Byte>>, size: nat)
      returns (rc: Result, ghost item: Item)
      requires Valid() && (payload.Some? ==> |payload.value| == size)
      modifies this`writeSeq, this`readSeq, this`accepted, this`rejected, this`dropped, this`highWater, this`ledger,
               items, queued
      ensures Valid()
      ensures category >= CATEGORIES ==> rc == ErrInvalidArg && ledger == old(ledger)
      ensures category < CATEGORIES ==>
                IsItem(item, category, payload, size) && (ledger, rc) == Push(old(ledger), capacity, p, item)
    {
      hide PowerOfTwoTest, CountOf, Stored, Slot, Balanced;
      item := RefusedItem(category, payload, size);
      if category >= CATEGORIES {
        return ErrInvalidArg, item;
      }
      var limited := p.limit[category] != 0 && queued[category] >= p.limit[category];
      if limited {
        if p.dropOldest[category] && Pending() > 0 {
          var head := TakeHead(false);
        } else {
          rc := Reject();
          return;
        }
      }
      if Pending() >= capacity {
        rc := Reject();
        return;
      }
      item := Put(category, payload, size);
      return Ok, item;
    }

    method PopItem() returns (rc: Result, item: Option<Item>)
      requires Valid()
      modifies this`readSeq, this`dropped, this`ledger, queued
      ensures Valid() && (ledger, item) == Pop(old(ledger))
      ensures rc == if item.Some? then Ok else ErrEmpty
    {
      hide PowerOfTwoTest, CountOf, Stored, Slot, Counted, Balanced;
      if Pending() == 0 {
        return ErrEmpty, None;
      }
      var head := TakeHead(true);
      return Ok, Some(head);
    }
  }

  /** An item holds its payload, cut to the slot's size. */
  predicate IsItem(item: Item, category: nat, payload: Option<seq<Byte>>, size: nat) {
    && item.category == category && item.size == Min(size, PAYLOAD_BYTES)
    && (payload.Some? && |payload.value| == size ==> item.payload[..item.size] == payload.value[..item.size])
  }

  ghost function Cut(bytes: seq<Byte>): (s: Storage)
    ensures s[..Min(|bytes|, PAYLOAD_BYTES)] == bytes[..Min(|bytes|, PAYLOAD_BYTES)]
  {
    if |bytes| >= PAYLOAD_BYTES then bytes[..PAYLOAD_BYTES] else bytes + Zeroes(PAYLOAD_BYTES - |bytes|)
  }

  /** What a refused push would have queued. */
  ghost function RefusedItem(category: nat, payload: Option<seq<Byte>>, size: nat): (i: Item)
    requires payload.Some? ==> |payload.value| == size
    ensures IsItem(i, category, payload, size)
  {
    Item(category, Min(size, PAYLOAD_BYTES), if payload.Some? then Cut(payload.value) else Zeroes(PAYLOAD_BYTES))
  }

  lemma {:induction false} CountAppend(q: seq<Item>, item: Item, c: nat)
    ensures CountOf(q + [item], c) == CountOf(q, c) + if item.category == c then 1 else 0
  {
    assert (q + [item])[..|q + [item]| - 1] == q;
  }

  lemma CountWithTail(q: seq<Item>, item: Item)
    ensures forall c: nat :: CountOf(q + [item], c) == CountOf(q, c) + if item.category == c then 1 else 0
  {
    forall c: nat {
      CountAppend(q, item, c);
    }
  }

  lemma {:induction false} CountTail(q: seq<Item>, c: nat)
    requires q != []
    ensures CountOf(q, c) == CountOf(q[1..], c) + if q[0].category == c then 1 else 0
    decreases |q|
  {
    if |q| > 1 {
      var p := q[..|q| - 1];
      CountTail(p, c);
      assert q[1..][..|q[1..]| - 1] == p[1..];
    }
  }

  lemma CountWithoutHead(q: seq<Item>)
    requires q != []
    ensures forall c: nat :: CountOf(q, c) == CountOf(q[1..], c) + if q[0].category == c then 1 else 0
  {
    forall c: nat {
      CountTail(q, c);
    }
  }

  // ----- runs -----

  datatype Call = PushCall(policy: Policy, item: Item) | PopCall

  type Op = c: Call | c.PushCall? ==> c.item.category < CATEGORIES witness PopCall

  function Exec(l: Ledger, capacity: nat, op: Op): Ledger {
    match op
    case PushCall(p, item) => Push(l, capacity, p, item).0
    case PopCall => Pop(l).0
  }

  function Run(capacity: nat, ops: seq<Op>): Ledger
    decreases |ops|
  {
    if ops == [] then EmptyLedger else Exec(Run(capacity, ops[..|ops| - 1]), capacity, ops[|ops| - 1])
  }

  predicate Accepts(l: Ledger, capacity: nat, op: Op) {
    op.PushCall? && Push(l, capacity, op.policy, op.item).1 == Ok
  }

  /** The items accepted among the pushes, in order. */
  function AcceptedItems(capacity: nat, ops: seq<Op>): seq<Item>
    decreases |ops|
  {
    if ops == [] then []
    else
      var op := ops[|ops| - 1];
      AcceptedItems(capacity, ops[..|ops| - 1]) +
      if Accepts(Run(capacity, ops[..|ops| - 1]), capacity, op) then [op.item] else []
  }

  /** One call keeps the books balanced and the ring within its capacity. */
  lemma ExecBalances(l: Ledger, capacity: nat, op: Op)
    requires Balanced(l) && |l.queue| <= capacity && |l.queue| <= l.highWater <= capacity
    ensures
      var m := Exec(l, capacity, op);
      && Balanced(m) && |m.queue| <= capacity && |m.queue| <= m.highWater <= capacity
      && m.entered == l.entered + if Accepts(l, capacity, op) then [op.item] else []
  {
    hide AtLimit, Balanced;
    if l.queue != [] {
      DropHeadBalances(l);
    }
    if Accepts(l, capacity, op) {
      AppendBalances(l, op.item);
      if l.queue != [] {
        AppendBalances(DropHead(l), op.item);
      }
    }
    RejectBalances(l);
  }

  lemma RejectBalances(l: Ledger)
    requires Balanced(l)
    ensures Balanced(l.(rejected := l.rejected + 1))
    ensures l.queue != [] ==> Balanced(DropHead(l).(rejected := l.rejected + 1))
  {
    if l.queue != [] {
      DropHeadBalances(l);
    }
  }

  /**
   After any run, under policies that change from push to push: items leave in the order
   they were accepted, pending stays within capacity, and every accepted item was popped,
   dropped or is still pending.
   */
  lemma {:induction false} OutboxIsFifo(capacity: nat, ops: seq<Op>)
    ensures
      var l := Run(capacity, ops);
      && AcceptedItems(capacity, ops) == l.entered == l.left + l.queue
      && |l.queue| <= capacity && |l.queue| <= l.highWater <= capacity
      && l.accepted == |l.entered| == l.popped + l.dropped + |l.queue|
      && l.popped + l.dropped == |l.left|
    decreases |ops|
  {
    hide Exec, Accepts;
    if ops != [] {
      OutboxIsFifo(capacity, ops[..|ops| - 1]);
      ExecBalances(Run(capacity, ops[..|ops| - 1]), capacity, ops[|ops| - 1]);
    }
  }

  /**
   Dropping the oldest takes the head whatever its category, so an accepted push may leave
   its category over the limit.  It stays within exactly when the category was below its
   limit, or was at it and the head dropped was one of its own.
   */
  lemma LimitIsKeptExactly(l: Ledger, capacity: nat, p: Policy, item: Item)
    requires item.category < CATEGORIES && p.limit[item.category] != 0
    requires Push(l, capacity, p, item).1 == Ok
    ensures
      var c, limit := item.category, p.limit[item.category];
      CountOf(Push(l, capacity, p, item).0.queue, c) <= limit <==>
      CountOf(l.queue, c) < limit || (CountOf(l.queue, c) == limit && l.queue[0].category == c)
  {
    var c := item.category;
    if AtLimit(l, p, c) {
      CountTail(l.queue, c);
      CountAppend(l.queue[1..], item, c);
    } else {
      CountAppend(l.queue, item, c);
    }
  }

  lemma CountThree(x: Item, y: Item, z: Item, c: nat)
    ensures CountOf([x, y, z], c) ==
            (if x.category == c then 1 else 0) + (if y.category == c then 1 else 0) + if z.category == c then 1 else 0
  {
    CountAppend([], x, c);
    CountAppend([x], y, c);
    CountAppend([x, y], z, c);
    assert [] + [x] == [x] && [x] + [y] == [x, y] && [x, y] + [z] == [x, y, z];
  }

  lemma RunOn(capacity: nat, ops: seq<Op>, op: Op)
    ensures Run(capacity, ops + [op]) == Exec(Run(capacity, ops), capacity, op)
  {
    assert (ops + [op])[..|ops + [op]| - 1] == ops;
  }

  lemma RunFour(capacity: nat, a: Op, b: Op, c: Op, d: Op)
    ensures Run(capacity, [a, b, c]) == Exec(Exec(Exec(EmptyLedger, capacity, a), capacity, b), capacity, c)
    ensures Run(capacity, [a, b, c, d]) == Exec(Run(capacity, [a, b, c]), capacity, d)
  {
    hide Exec;
    RunOn(capacity, [], a);
    RunOn(capacity, [a], b);
    RunOn(capacity, [a, b], c);
    RunOn(capacity, [a, b, c], d);
    assert [] + [a] == [a] && [a] + [b] == [a, b] && [a, b] + [c] == [a, b, c] && [a, b, c] + [d] == [a, b, c, d];
  }

  const OpenPolicy: Policy := Policy([0, 0, 0, 0], [false, false, false, false])

  /** A push without limits goes behind all others while there is room. */
  lemma OpenPush(l: Ledger, capacity: nat, x: Item)
    requires |l.queue| < capacity && x.category < CATEGORIES
    ensures
      var m := Exec(l, capacity, PushCall(OpenPolicy, x));
      m.queue == l.queue + [x] && m.dropped == l.dropped
  {
    hide CountOf;
  }

  /** A telemetry item at its limit drops the head, here a fault record. */
  lemma TightPush(l: Ledger, p: Policy, t: Item, f: Item)
    requires t.category == 0 && f.category == 3 && l.queue == [f, t, t]
    requires p.limit[0] == 2 && p.dropOldest[0]
    ensures
      var m := Exec(l, 8, PushCall(p, t));
      Accepts(l, 8, PushCall(p, t)) && m.queue == [t, t, t] && m.dropped == l.dropped + 1
  {
    hide CountOf;
    CountThree(f, t, t, 0);
    assert l.queue[1..] + [t] == [t, t, t];
  }

  /** Two telemetry items pushed behind a fault record; a third, under a limit of two, makes three. */
  lemma LimitCanBeExceeded(t: Item, f: Item)
    requires t.category == 0 && f.category == 3
    ensures
      var p := Policy([2, 0, 0, 0], [true, false, false, false]);
      var before := [PushCall(OpenPolicy, f), PushCall(OpenPolicy, t), PushCall(OpenPolicy, t)];
      var l := Run(8, before + [PushCall(p, t)]);
      && Accepts(Run(8, before), 8, PushCall(p, t)) && CountOf(l.queue, 0) == 3 && l.dropped == 1
  {
    hide Exec, Accepts, CountOf, Run;
    var p := Policy([2, 0, 0, 0], [true, false, false, false]);
    var a, b, d := PushCall(OpenPolicy, f), PushCall(OpenPolicy, t), PushCall(p, t);
    RunFour(8, a, b, b, d);
    assert [a, b, b] + [d] == [a, b, b, d];
    var one := Exec(EmptyLedger, 8, a);
    var two := Exec(one, 8, b);
    OpenPush(EmptyLedger, 8, f);
    OpenPush(one, 8, t);
    OpenPush(two, 8, t);
    assert Exec(two, 8, b).queue == [f, t, t];
    TightPush(Exec(two, 8, b), p, t, f);
    CountThree(t, t, t, 0);
  }
}
