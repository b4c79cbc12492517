/**
 The OLED actor's side of the I2C bus (`actors/device/ev_oled_actor.c`): commands and
 data in chunks, and address windows for both controllers.  Any transaction may fail
 after the panel took any part of it.
 */
module OledLink {
  import opened Results
  import opened Bits
  import opened OledPanel

  const CHUNK: nat := 32

  /** What the bus does with a transaction. */
  datatype Fate = Accepted | Failed(taken: nat)

  /** Every visible cell of the window shows `data`, every other cell what it showed. */
  ghost predicate Painted(k: Controller, d: Panel, e: Panel, page: nat, start: nat, end: nat, data: seq<Byte>)
    requires |data| == WIDTH
  {
    && Shaped(d) && Shaped(e)
    && forall p, c :: 0 <= p < PAGES && 0 <= c < WIDTH ==>
                        Visible(k, e, p, c) == if p == page && start <= c < end then data[c] else Visible(k, d, p, c)
  }

  /** The first `n` columns from `current` on, fed with the pointer where they belong. */
  lemma FeedPaints(k: Controller, d: Panel, page: nat, current: nat, n: nat, data: seq<Byte>)
    requires Shaped(d) && |data| == WIDTH && page < PAGES && current + n <= WIDTH
    requires d.page == page && d.col == current + Offset(k) && current + n + Offset(k) <= d.colEnd + 1 <= RAM_COLUMNS
    ensures Painted(k, d, Feed(d, data[current..current + n]), page, current, current + n, data)
  {
    hide Feed;
    var e := Feed(d, data[current..current + n]);
    FeedFillsRow(d, data[current..current + n]);
    assert forall p, c :: 0 <= p < PAGES && 0 <= c < WIDTH ==>
             e.rows[p][c + Offset(k)] == if p == page && current <= c < current + n then data[c]
                                         else d.rows[p][c + Offset(k)];
  }

  lemma PaintedTransitive(k: Controller, d: Panel, e: Panel, f: Panel, page: nat, start: nat, mid: nat, end: nat,
                          data: seq<Byte>)
    requires |data| == WIDTH && start <= mid <= end
    requires Painted(k, d, e, page, start, mid, data) && Painted(k, e, f, page, mid, end, data)
    ensures Painted(k, d, f, page, start, end, data) && Shaped(f)
  {
  }

  lemma SameRowsPaint(k: Controller, d: Panel, e: Panel, page: nat, start: nat, data: seq<Byte>)
    requires |data| == WIDTH && Shaped(d) && e.rows == d.rows
    ensures Shaped(e) && Painted(k, d, e, page, start, start, data)
  {
  }

  /** Transactions it takes to send `n` bytes in chunks. */
  function Transfers(n: nat): nat {
    (n + CHUNK - 1) / CHUNK
  }

  /** A command stream reaches the controller a chunk at a time. */
  function AddressInChunks(k: Controller, d: Panel, cmds: seq<Byte>): Panel
    decreases |cmds|
  {
    if cmds == [] then d
    else
      var n := Min(|cmds|, CHUNK);
      AddressInChunks(k, Address(k, d, cmds[..n]), cmds[n..])
  }

  lemma OneChunk(k: Controller, d: Panel, cmds: seq<Byte>)
    requires 0 < |cmds| <= CHUNK
    ensures AddressInChunks(k, d, cmds) == Address(k, d, cmds)
  {
    assert cmds[..|cmds|] == cmds;
  }

  /** A page-addressed controller cannot tell how its commands were cut up. */
  lemma {:induction false} ChunksDoNotShow(d: Panel, cmds: seq<Byte>)
    requires cmds != []
    ensures AddressInChunks(Sh1106, d, cmds) == Address(Sh1106, d, cmds)
    decreases |cmds|
  {
    var n := Min(|cmds|, CHUNK);
    var d0 := d.(colStart := 0, colEnd := RAM_COLUMNS - 1);
    var e := Address(Sh1106, d, cmds[..n]);
    PageCommandsConcat(d0, cmds[..n], cmds[n..]);
    assert cmds[..n] + cmds[n..] == cmds;
    PageCommandsKeepWindow(d0, cmds[..n]);
    if cmds[n..] != [] {
      ChunksDoNotShow(e, cmds[n..]);
      assert e.(colStart := 0, colEnd := RAM_COLUMNS - 1) == e;
    }
  }

  lemma {:induction false} PageCommandsConcat(d: Panel, a: seq<Byte>, b: seq<Byte>)
    ensures PageCommands(d, a + b) == PageCommands(PageCommands(d, a), b)
    decreases |a|
  {
    if a == [] {
      assert a + b == b;
    } else {
      assert (a + b)[1..] == a[1..] + b;
      PageCommandsConcat(PageCommand(d, a[0]), a[1..], b);
    }
  }

  lemma {:induction false} PageCommandsKeepWindow(d: Panel, cmds: seq<Byte>)
    ensures PageCommands(d, cmds).colStart == d.colStart && PageCommands(d, cmds).colEnd == d.colEnd
    decreases |cmds|
  {
    if cmds != [] {
      PageCommandsKeepWindow(PageCommand(d, cmds[0]), cmds[1..]);
    }
  }

  class Link {
    const controller: Controller
    const fate: nat -> Fate
    var panel: Panel
    var sent: nat

    constructor (controller: Controller, fate: nat -> Fate, panel: Panel)
      ensures this.controller == controller && this.fate == fate && this.panel == panel && sent == 0
    {
      this.controller, this.fate, this.panel, sent := controller, fate, panel, 0;
    }

    /** The bus accepted every transaction numbered from `from` up to `to`. */
    ghost predicate AllAccepted(from: nat, to: nat) {
      forall i :: from <= i < to ==> fate(i).Accepted?
    }

    /** The bus accepts every transaction from `from` on. */
    ghost predicate Accepting(from: nat) {
      forall i :: from <= i ==> fate(i).Accepted?
    }

    /** Between two counts the bus took `n` transactions, or failed at the last one it was given. */
    ghost predicate Carried(from: nat, to: nat, n: nat, ok: bool) {
      && from <= to <= from + n
      && if ok then to == from + n && AllAccepted(from, to)
         else from < to && AllAccepted(from, to - 1) && !fate(to - 1).Accepted?
    }

    /** Transaction `t`, a control byte and data, brings data byte `j`. */
    ghost predicate Brings(t: nat, j: nat) {
      fate(t).Accepted? || fate(t).taken >= j + 2
    }

    /** Data sent in chunks from transaction `from` on brings its byte `i`. */
    ghost predicate Streams(from: nat, i: nat) {
      AllAccepted(from, from + i / CHUNK) && Brings(from + i / CHUNK, i % CHUNK)
    }

    /** A window sent from transaction `from` on brings its column `i`. */
    ghost predicate Arrives(from: nat, i: nat) {
      match controller
      case Ssd1306 => fate(from).Accepted? && Streams(from + 1, i)
      case Sh1106 =>
        var t := from + 2 * (i / CHUNK);
        AllAccepted(from, t) && BringsBehind(t, i % CHUNK)
    }

    /** Addresses in transaction `t` and data in the next bring data byte `j`. */
    ghost predicate BringsBehind(t: nat, j: nat) {
      fate(t).Accepted? && Brings(t + 1, j)
    }

    /** A window of `n` columns from transaction `from` on brings exactly its first `taken` columns. */
    ghost predicate BringsFirst(from: nat, n: nat, taken: nat) {
      taken <= n && forall i: nat :: i < n ==> (i < taken <==> Arrives(from, i))
    }

    /** Bytes of a transaction the panel gets. */
    function Got(t: nat, size: nat): (n: nat)
      ensures n <= size
    {
      match fate(t)
      case Accepted => size
      case Failed(taken) => Min(taken, size)
    }

    method WriteStream(tx: seq<Byte>) returns (ok: bool)
      modifies this
      ensures Carried(old(sent), sent, 1, ok)
      ensures panel == Receive(controller, old(panel), tx[..Got(old(sent), |tx|)])
    {
      var f := fate(sent);
      sent := sent + 1;
      match f {
        case Accepted =>
          panel := Receive(controller, panel, tx);
          assert tx[..|tx|] == tx;
          return true;
        case Failed(taken) =>
          var n := Min(taken, |tx|);
          panel := Receive(controller, panel, tx[..n]);
          return false;
      }
    }

    method SendCommands(cmds: seq<Byte>) returns (ok: bool)
      modifies this
      ensures panel.rows == old(panel).rows && Carried(old(sent), sent, Transfers(|cmds|), ok)
      ensures ok ==> panel == AddressInChunks(controller, old(panel), cmds)
    {
      var offset := 0;
      while offset < |cmds|
        invariant offset <= |cmds| && panel.rows == old(panel).rows
        invariant Carried(old(sent), sent, Transfers(offset), true) && (offset % CHUNK == 0 || offset == |cmds|)
        invariant AddressInChunks(controller, panel, cmds[offset..]) == AddressInChunks(controller, old(panel), cmds)
      {
        var n := Min(|cmds| - offset, CHUNK);
        var tx: seq<Byte> := [0x00] + cmds[offset..offset + n];
        ghost var d := panel;
        ok := WriteStream(tx);
        CommandsKeepRows(d, tx);
        assert tx[..|tx|] == tx;
        assert tx[1..] == cmds[offset..offset + n] == cmds[offset..][..n];
        assert cmds[offset..][n..] == cmds[offset + n..];
        MoreTransfers(offset, n, |cmds|);
        if !ok {
          return;
        }
        offset := offset + n;
      }
      ok := true;
    }

    lemma MoreTransfers(offset: nat, n: nat, size: nat)
      requires offset < size && offset % CHUNK == 0 && n == Min(size - offset, CHUNK)
      ensures Transfers(offset + n) == Transfers(offset) + 1 <= Transfers(size)
      ensures (offset + n) % CHUNK == 0 || offset + n == size
    {
    }

    lemma CommandsKeepRows(d: Panel, tx: seq<Byte>)
      requires tx != [] && tx[0] == 0x00
      ensures Receive(controller, d, tx).rows == d.rows
      ensures forall n :: 0 <= n <= |tx| ==> Receive(controller, d, tx[..n]).rows == d.rows
    {
      AddressKeepsRows(controller, d, tx[1..]);
      forall n | 0 < n <= |tx|
        ensures Receive(controller, d, tx[..n]).rows == d.rows
      {
        AddressKeepsRows(controller, d, tx[..n][1..]);
      }
    }

    /** Send data in chunks; a failure leaves the panel with exactly the prefix that arrived. */
    method SendData(data: seq<Byte>) returns (ok: bool, ghost taken: nat)
      modifies this
      ensures taken <= |data| && panel == Feed(old(panel), data[..taken])
      ensures (ok ==> taken == |data|) && Carried(old(sent), sent, Transfers(|data|), ok)
      ensures forall i: nat :: i < |data| ==> (i < taken <==> Streams(old(sent), i))
    {
      hide Feed, Streams;
      var offset := 0;
      taken := 0;
      NothingFed(panel, data);
      while offset < |data|
        invariant offset <= |data| && panel == Feed(old(panel), data[..offset])
        invariant Carried(old(sent), sent, Transfers(offset), true) && (offset % CHUNK == 0 || offset == |data|)
      {
        var n := Min(|data| - offset, CHUNK);
        var tx: seq<Byte> := [0x40] + data[offset..offset + n];
        ghost var d, t := panel, sent;
        ok := WriteStream(tx);
        taken := offset + if Got(t, n + 1) == 0 then 0 else Got(t, n + 1) - 1;
        ChunkFeeds(d, old(panel), data, offset, n, Got(t, n + 1));
        MoreTransfers(offset, n, |data|);
        if !ok {
          StoppedStream(old(sent), offset, n, |data|, taken);
          return;
        }
        offset := offset + n;
      }
      WholeStream(old(sent), |data|);
      return true, offset;
    }

    lemma NothingFed(d: Panel, data: seq<Byte>)
      ensures Feed(d, data[..0]) == d
    {
    }

    /** What has arrived once the first `got` bytes of a chunk's transaction did. */
    lemma ChunkFeeds(d: Panel, d0: Panel, data: seq<Byte>, offset: nat, n: nat, got: nat)
      requires offset + n <= |data| && d == Feed(d0, data[..offset]) && got <= n + 1
      ensures
        var tx: seq<Byte> := [0x40] + data[offset..offset + n];
        Receive(controller, d, tx[..got]) == Feed(d0, data[..offset + if got == 0 then 0 else got - 1])
    {
      var tx: seq<Byte> := [0x40] + data[offset..offset + n];
      hide Feed, Address;
      if got == 0 {
        assert tx[..got] == [];
      } else {
        var taken := offset + got - 1;
        assert tx[..got] == [0x40] + data[offset..taken];
        assert tx[..got][1..] == data[offset..taken];
        assert data[..taken] == data[..offset] + data[offset..taken];
        FeedConcat(d0, data[..offset], data[offset..taken]);
      }
    }

    /** If every chunk was accepted, every byte arrived. */
    lemma WholeStream(from: nat, size: nat)
      requires AllAccepted(from, from + Transfers(size))
      ensures forall i: nat :: i < size ==> Streams(from, i)
    {
    }

    /** If the chunk at `offset` failed, what arrived is what was sent before and its own share of the chunk. */
    lemma StoppedStream(from: nat, offset: nat, n: nat, size: nat, taken: nat)
      requires offset < size && offset % CHUNK == 0 && n == Min(size - offset, CHUNK)
      requires AllAccepted(from, from + Transfers(offset)) && !fate(from + Transfers(offset)).Accepted?
      requires
        var got := Got(from + Transfers(offset), n + 1);
        taken == offset + if got == 0 then 0 else got - 1
      ensures forall i: nat :: i < size ==> (i < taken <==> Streams(from, i))
    {
      var t := from + Transfers(offset);
      assert Transfers(offset) == offset / CHUNK;
      forall i: nat | i < size
        ensures i < taken <==> Streams(from, i)
      {
        if i < offset {
          assert i / CHUNK < offset / CHUNK;
        } else if i < offset + n {
          assert i / CHUNK == offset / CHUNK && i % CHUNK == i - offset;
        } else {
          assert i / CHUNK > offset / CHUNK;
          assert from <= t < from + i / CHUNK;
        }
      }
    }

    /** Send window data to where the pointer already is. */
    method SendWindow(page: nat, current: nat, n: nat, data: seq<Byte>) returns (ok: bool, ghost taken: nat)
      requires Shaped(panel) && |data| == WIDTH && page < PAGES && current + n <= WIDTH
      requires panel.page == page && panel.col == current + Offset(controller)
      requires current + n + Offset(controller) <= panel.colEnd + 1 <= RAM_COLUMNS
      modifies this
      ensures taken <= n && (ok ==> taken == n)
      ensures Painted(controller, old(panel), panel, page, current, current + taken, data)
      ensures forall i: nat :: i < n ==> (i < taken <==> Streams(old(sent), i))
      ensures Carried(old(sent), sent, Transfers(n), ok)
    {
      ok, taken := SendData(data[current..current + n]);
      assert data[current..current + n][..taken] == data[current..current + taken];
      FeedPaints(controller, old(panel), page, current, taken, data);
    }

    /** One chunk of a window behind its own page and column address. */
    method PaintChunk(page: nat, current: nat, n: nat, data: seq<Byte>) returns (ok: bool, ghost taken: nat)
      requires Shaped(panel) && |data| == WIDTH && page < PAGES && current + n <= WIDTH && controller == Sh1106
      requires 0 < n <= CHUNK
      modifies this
      ensures Carried(old(sent), sent, 2, ok)
      ensures taken <= n && (ok ==> taken == n)
      ensures Painted(controller, old(panel), panel, page, current, current + taken, data)
      ensures forall i: nat :: i < n ==> (i < taken <==> BringsBehind(old(sent), i))
    {
      hide Painted;
      ghost var d := panel;
      var column := current + Offset(controller);
      var address: seq<Byte> := [0xB0 + page, column % 16, 0x10 + column / 16 % 16];
      ok := SendCommands(address);
      ghost var e := panel;
      OneChunk(controller, d, address);
      SameRowsPaint(controller, d, e, page, current, data);
      if !ok {
        taken := 0;
        return;
      }
      PageAddressPoints(d, page, column);
      ghost var t := sent;
      ok, taken := SendWindow(page, current, n, data);
      OneChunkStreams(t, n);
      PaintedTransitive(controller, d, e, panel, page, current, current, current + taken, data);
    }

    lemma OneChunkStreams(t: nat, n: nat)
      requires n <= CHUNK
      ensures forall i: nat :: i < n ==> (Streams(t, i) <==> Brings(t, i))
    {
    }

    /** A page-addressed controller gets the window in chunks, each behind its own address. */
    method PaintPaged(page: nat, start: nat, end: nat, data: seq<Byte>) returns (ok: bool, ghost taken: nat)
      requires Shaped(panel) && |data| == WIDTH && page < PAGES && start < end <= WIDTH && controller == Sh1106
      modifies this
      ensures Carried(old(sent), sent, 2 * Transfers(end - start), ok)
      ensures BringsFirst(old(sent), end - start, taken) && (ok ==> taken == end - start)
      ensures Painted(controller, old(panel), panel, page, start, start + taken, data)
    {
      hide Painted, Arrives, BringsBehind, BringsFirst;
      var current := start;
      SameRowsPaint(controller, panel, panel, page, start, data);
      while current < end
        invariant start <= current <= end && Shaped(panel)
        invariant Painted(controller, old(panel), panel, page, start, current, data)
        invariant Carried(old(sent), sent, 2 * Transfers(current - start), true)
        invariant (current - start) % CHUNK == 0 || current == end
      {
        ghost var d, t := panel, sent;
        var n := Min(end - current, CHUNK);
        MoreTransfers(current - start, n, end - start);
        ok, taken := PaintChunk(page, current, n, data);
        PaintedTransitive(controller, old(panel), d, panel, page, start, current, current + taken, data);
        if !ok {
          StoppedPages(old(sent), current - start, n, end - start, taken);
          taken := current - start + taken;
          return;
        }
        current := current + n;
      }
      ok, taken := true, end - start;
      WholePages(old(sent), end - start);
    }

    lemma WholePages(from: nat, size: nat)
      requires controller == Sh1106 && AllAccepted(from, from + 2 * Transfers(size))
      ensures BringsFirst(from, size, size)
    {
      forall i: nat | i < size
        ensures Arrives(from, i)
      {
        assert i / CHUNK < Transfers(size);
      }
    }

    /** If the address or the data of the chunk at `offset` failed, what arrived is what came before and its share. */
    lemma StoppedPages(from: nat, offset: nat, n: nat, size: nat, taken: nat)
      requires controller == Sh1106 && offset < size && offset % CHUNK == 0 && n == Min(size - offset, CHUNK)
      requires AllAccepted(from, from + 2 * Transfers(offset)) && taken <= n
      requires
        var t := from + 2 * Transfers(offset);
        && !(fate(t).Accepted? && fate(t + 1).Accepted?)
        && forall i: nat :: i < n ==> (i < taken <==> BringsBehind(t, i))
      ensures BringsFirst(from, size, offset + taken)
    {
      hide BringsBehind;
      var t := from + 2 * Transfers(offset);
      assert Transfers(offset) == offset / CHUNK;
      forall i: nat | i < size
        ensures i < offset + taken <==> Arrives(from, i)
      {
        if i < offset {
          assert i / CHUNK < offset / CHUNK;
          AcceptedBrings(from + 2 * (i / CHUNK), i % CHUNK);
        } else if i < offset + n {
          assert i / CHUNK == offset / CHUNK && i % CHUNK == i - offset;
        } else {
          assert i / CHUNK > offset / CHUNK;
          assert t + 1 < from + 2 * (i / CHUNK);
        }
      }
    }

    lemma AcceptedBrings(t: nat, j: nat)
      requires fate(t).Accepted? && fate(t + 1).Accepted?
      ensures BringsBehind(t, j)
    {
    }

    /** A window-addressed controller gets one window command and then all the data. */
    method PaintWindowed(page: nat, start: nat, end: nat, data: seq<Byte>) returns (ok: bool, ghost taken: nat)
      requires Shaped(panel) && |data| == WIDTH && page < PAGES && start < end <= WIDTH && controller == Ssd1306
      modifies this
      ensures Carried(old(sent), sent, 1 + Transfers(end - start), ok)
      ensures BringsFirst(old(sent), end - start, taken) && (ok ==> taken == end - start)
      ensures Painted(controller, old(panel), panel, page, start, start + taken, data)
    {
      hide Painted, Streams;
      ghost var d := panel;
      var window: seq<Byte> := [0x21, start + Offset(controller), end - 1 + Offset(controller), 0x22, page, page];
      ok := SendCommands(window);
      ghost var e := panel;
      OneChunk(controller, d, window);
      SameRowsPaint(controller, d, e, page, start, data);
      if !ok {
        taken := 0;
        return;
      }
      WindowAddressPoints(d, page, start + Offset(controller), end - 1 + Offset(controller));
      ok, taken := SendWindow(page, start, end - start, data);
      PaintedTransitive(controller, d, e, panel, page, start, start, start + taken, data);
    }

    /** Transactions of a window of `n` columns. */
    function WindowTransfers(n: nat): nat {
      if controller == Sh1106 then 2 * Transfers(n) else 1 + Transfers(n)
    }

    /** If every transaction of a window is accepted, every column of it arrives. */
    lemma WholeWindow(from: nat, n: nat)
      requires AllAccepted(from, from + WindowTransfers(n))
      ensures forall i: nat :: i < n ==> Arrives(from, i)
    {
      hide Arrives, Streams;
      if controller == Sh1106 {
        WholePages(from, n);
      } else if n > 0 {
        WholeStream(from + 1, n);
        StreamArrives(from);
      }
    }

    lemma StreamArrives(from: nat)
      requires controller == Ssd1306 && fate(from).Accepted?
      ensures forall i: nat :: Arrives(from, i) <==> Streams(from + 1, i)
    {
    }

    /** Bring one address window of the panel up to date, as far as the bus lets it. */
    method ApplyAddressWindow(page: nat, start: nat, end: nat, data: seq<Byte>) returns (rc: Result, ghost taken: nat)
      requires Shaped(panel) && |data| == WIDTH
      modifies this
      ensures !(page < PAGES && start < end <= WIDTH) ==>
                rc == ErrInvalidArg && panel == old(panel) && sent == old(sent)
      ensures page < PAGES && start < end <= WIDTH ==>
                && (rc == Ok || rc == ErrState) && Carried(old(sent), sent, WindowTransfers(end - start), rc == Ok)
                && BringsFirst(old(sent), end - start, taken) && (rc == Ok ==> taken == end - start)
                && Painted(controller, old(panel), panel, page, start, start + taken, data)
    {
      if page >= PAGES || start >= end || end > WIDTH {
        return ErrInvalidArg, 0;
      }
      var ok;
      if controller == Sh1106 {
        ok, taken := PaintPaged(page, start, end, data);
      } else {
        ok, taken := PaintWindowed(page, start, end, data);
      }
      rc := if ok then Ok else ErrState;
    }
  }
}
