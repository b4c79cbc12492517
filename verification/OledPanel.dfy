/**
 The display at the other end of the bus: display memory, an address pointer, and
 how the two supported controllers move the pointer.  It is the reference the OLED
 actor's address arithmetic is proved against.
 */
module OledPanel {
  import opened Bits

  const WIDTH: nat := 72
  const PAGES: nat := 5
  const RAM_PAGES: nat := 8
  const RAM_COLUMNS: nat := 132

  datatype Controller = Ssd1306 | Sh1106

  /** Display memory column of the first visible column. */
  function Offset(k: Controller): nat {
    match k case Ssd1306 => 28 case Sh1106 => 2
  }

  /** Memory, address pointer, and the window the pointer wraps in. */
  datatype Panel = Panel(
    rows: seq<seq<Byte>>,
    page: nat, col: nat,
    colStart: nat, colEnd: nat, pageStart: nat, pageEnd: nat)

  ghost predicate Shaped(d: Panel) {
    |d.rows| == RAM_PAGES && forall p :: 0 <= p < RAM_PAGES ==> |d.rows[p]| == RAM_COLUMNS
  }

  /** What the glass shows. */
  function Visible(k: Controller, d: Panel, p: nat, c: nat): Byte
    requires Shaped(d) && p < PAGES && c < WIDTH
  {
    d.rows[p][c + Offset(k)]
  }

  function SetCell(rows: seq<seq<Byte>>, p: nat, c: nat, b: Byte): seq<seq<Byte>> {
    if p < |rows| && c < |rows[p]| then
      var row: seq<Byte> := rows[p][..c] + [b] + rows[p][c + 1..];
      rows[..p] + [row] + rows[p + 1..]
    else rows
  }

  /** One data byte: stored under the pointer, which moves on inside its window. */
  function Put(d: Panel, b: Byte): Panel {
    var rows := SetCell(d.rows, d.page, d.col, b);
    if d.col == d.colEnd
    then d.(rows := rows, col := d.colStart, page := if d.page == d.pageEnd then d.pageStart else d.page + 1)
    else d.(rows := rows, col := d.col + 1)
  }

  function Feed(d: Panel, data: seq<Byte>): Panel
    decreases |data|
  {
    if data == [] then d else Feed(Put(d, data[0]), data[1..])
  }

  /** One command byte of a page-addressed controller. */
  function PageCommand(d: Panel, b: Byte): Panel {
    if b < 0x10 then d.(col := d.col / 16 * 16 + b)
    else if b < 0x20 then d.(col := (b - 0x10) * 16 + d.col % 16)
    else if 0xB0 <= b < 0xB8 then d.(page := b - 0xB0)
    else d
  }

  function PageCommands(d: Panel, cmds: seq<Byte>): Panel
    decreases |cmds|
  {
    if cmds == [] then d else PageCommands(PageCommand(d, cmds[0]), cmds[1..])
  }

  /** Addressing commands; anything else leaves memory and pointer alone. */
  function Address(k: Controller, d: Panel, cmds: seq<Byte>): Panel {
    match k
    case Ssd1306 =>
      if |cmds| == 6 && cmds[0] == 0x21 && cmds[3] == 0x22
      then d.(colStart := cmds[1], colEnd := cmds[2], col := cmds[1], pageStart := cmds[4], pageEnd := cmds[5],
              page := cmds[4])
      else d
    case Sh1106 => PageCommands(d.(colStart := 0, colEnd := RAM_COLUMNS - 1), cmds)
  }

  /** A bus transaction: a control byte, then commands or data. */
  function Receive(k: Controller, d: Panel, tx: seq<Byte>): Panel {
    if tx == [] then d
    else if tx[0] == 0x00 then Address(k, d, tx[1..])
    else if tx[0] == 0x40 then Feed(d, tx[1..])
    else d
  }

  // ----- laws -----

  lemma {:induction false} FeedConcat(d: Panel, a: seq<Byte>, b: seq<Byte>)
    ensures Feed(d, a + b) == Feed(Feed(d, a), b)
    decreases |a|
  {
    if a == [] {
      assert a + b == b;
    } else {
      assert (a + b)[1..] == a[1..] + b;
      FeedConcat(Put(d, a[0]), a[1..], b);
    }
  }

  lemma SetCellIs(rows: seq<seq<Byte>>, p: nat, c: nat, b: Byte)
    requires p < |rows| && c < |rows[p]|
    ensures
      var e := SetCell(rows, p, c, b);
      && |e| == |rows| && (forall q :: 0 <= q < |rows| && q != p ==> e[q] == rows[q]) && |e[p]| == |rows[p]|
      && forall x :: 0 <= x < |rows[p]| ==> e[p][x] == if x == c then b else rows[p][x]
  {
    var row: seq<Byte> := rows[p][..c] + [b] + rows[p][c + 1..];
    assert SetCell(rows, p, c, b)[p] == row;
  }

  lemma PutFillsCell(d: Panel, b: Byte)
    requires Shaped(d) && d.page < RAM_PAGES && d.col <= d.colEnd < RAM_COLUMNS
    ensures
      var e := Put(d, b);
      && Shaped(e)
      && (d.col < d.colEnd ==> e == d.(rows := e.rows, col := d.col + 1))
      && forall p, c :: 0 <= p < RAM_PAGES && 0 <= c < RAM_COLUMNS ==>
                          e.rows[p][c] == if p == d.page && c == d.col then b else d.rows[p][c]
  {
    hide SetCell;
    SetCellIs(d.rows, d.page, d.col, b);
  }

  /** Data up to the end of the window fills the row from the pointer on, and nothing else. */
  lemma {:induction false} FeedFillsRow(d: Panel, data: seq<Byte>)
    requires Shaped(d) && d.page < RAM_PAGES && d.col + |data| <= d.colEnd + 1 <= RAM_COLUMNS
    ensures
      var e := Feed(d, data);
      && Shaped(e)
      && (d.col + |data| <= d.colEnd ==> e == d.(rows := e.rows, col := d.col + |data|))
      && forall p, c :: 0 <= p < RAM_PAGES && 0 <= c < RAM_COLUMNS ==>
                          e.rows[p][c] == if p == d.page && d.col <= c < d.col + |data| then data[c - d.col]
                              else d.rows[p][c]
    decreases |data|
  {
    hide Put;
    if data != [] {
      var d1 := Put(d, data[0]);
      PutFillsCell(d, data[0]);
      if |data| == 1 {
        assert Feed(d1, data[1..]) == d1;
      } else {
        FeedFillsRow(d1, data[1..]);
      }
    }
  }

  /** The page-address commands the actor sends point at exactly one cell. */
  lemma PageAddressPoints(d: Panel, page: nat, column: nat)
    requires page < RAM_PAGES && column < 256
    ensures
      var e := Address(Sh1106, d, [0xB0 + page, column % 16, 0x10 + column / 16 % 16]);
      e == d.(page := page, col := column, colStart := 0, colEnd := RAM_COLUMNS - 1)
  {
    var d0 := d.(colStart := 0, colEnd := RAM_COLUMNS - 1);
    var cmds: seq<Byte> := [0xB0 + page, column % 16, 0x10 + column / 16 % 16];
    var d1 := PageCommand(d0, cmds[0]);
    var d2 := PageCommand(d1, cmds[1]);
    var d3 := PageCommand(d2, cmds[2]);
    assert cmds[1..] == [cmds[1], cmds[2]] && cmds[1..][1..] == [cmds[2]] && cmds[1..][1..][1..] == [];
    assert PageCommands(d0, cmds) == PageCommands(d2, [cmds[2]]) == d3;
    assert d2.col % 16 == column % 16;
  }

  /** The window commands restrict the pointer to one stretch of one page. */
  lemma WindowAddressPoints(d: Panel, page: nat, first: nat, last: nat)
    requires page < 256 && first < 256 && last < 256
    ensures Address(Ssd1306, d, [0x21, first, last, 0x22, page, page]) ==
            d.(colStart := first, colEnd := last, col := first, pageStart := page, pageEnd := page, page := page)
  {
  }

  lemma {:induction false} PageCommandsKeepRows(d: Panel, cmds: seq<Byte>)
    ensures PageCommands(d, cmds).rows == d.rows
    decreases |cmds|
  {
    if cmds != [] {
      PageCommandsKeepRows(PageCommand(d, cmds[0]), cmds[1..]);
    }
  }

  lemma AddressKeepsRows(k: Controller, d: Panel, cmds: seq<Byte>)
    ensures Address(k, d, cmds).rows == d.rows
  {
    if k == Sh1106 {
      PageCommandsKeepRows(d.(colStart := 0, colEnd := RAM_COLUMNS - 1), cmds);
    }
  }
}
