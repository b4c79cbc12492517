/**
 The OLED actor (`actors/device/ev_oled_actor.c`): text and scenes are rendered into a
 staging frame, the changed columns of each page are kept as dirty windows, and a
 flush writes only those windows to the panel.
 */
module Oled {
  import opened Results
  import opened Bits
  import opened OledPanel
  import opened OledLink

  const TEXT_MAX: nat := 22
  const GLYPH_WIDTH: nat := 5
  const CELL_ADVANCE: nat := 6
  const RETRY_DELAY: nat := 5
  const SCENE_LINES: nat := 3

  datatype OledState = WaitBoot | Ready | Error

  /** Five column bytes for each printable character. */
  type Font = f: seq<seq<Byte>> | |f| == 95 && forall i :: 0 <= i < |f| ==> |f[i]| == 5
    witness seq(95, _ => [0, 0, 0, 0, 0])

  datatype TextCmd = TextCmd(page: nat, column: nat, text: seq<Byte>)

  datatype Scene = Scene(pageOffset: Byte, columnOffset: nat, visible: bool, lines: seq<seq<Byte>>)

  datatype Stats = Stats(
    initAttempts: nat, initSuccesses: nat, initFailures: nat,
    flushAttempts: nat, flushSuccesses: nat, flushFailures: nat, retries: nat)

  function GlyphIndex(c: Byte): (i: nat)
    ensures i < 95
  {
    if c < 32 || c > 126 then 63 - 32 else c - 32
  }

  /** Characters before the terminator, which is forced into the last byte. */
  function TextLength(text: seq<Byte>): (n: nat)
    requires |text| == TEXT_MAX
    ensures n < TEXT_MAX
    ensures forall i :: 0 <= i < n ==> text[i] != 0
    ensures n < TEXT_MAX - 1 ==> text[n] == 0
  {
    LengthFrom(text, 0)
  }

  function LengthFrom(text: seq<Byte>, i: nat): (n: nat)
    requires |text| == TEXT_MAX && i <= TEXT_MAX - 1
    ensures i <= n < TEXT_MAX
    ensures forall j :: i <= j < n ==> text[j] != 0
    ensures n < TEXT_MAX - 1 ==> text[n] == 0
    decreases TEXT_MAX - i
  {
    if i == TEXT_MAX - 1 || text[i] == 0 then i else LengthFrom(text, i + 1)
  }

  /** The byte a rendered line shows in column `c`: a glyph column, the gap after a glyph, or blank. */
  function Pixel(font: Font, cmd: TextCmd, c: nat): Byte
    requires |cmd.text| == TEXT_MAX && cmd.column <= c
  {
    var i, g := (c - cmd.column) / CELL_ADVANCE, (c - cmd.column) % CELL_ADVANCE;
    if i < TextLength(cmd.text) && g < GLYPH_WIDTH then font[GlyphIndex(cmd.text[i])][g] else 0
  }

  class OledActor {
    const link: Link
    const font: Font
    const framebuffer: array2<Byte>
    const staging: array2<Byte>
    const dirtyStart: array<nat>
    const dirtyEnd: array<nat>
    var dirtyPages: set<nat>
    var pending: bool
    var state: OledState
    var tick: Word32
    var retryDue: Word32
    var bootObserved: bool
    var stats: Stats

    ghost predicate Shape()
    {
      && framebuffer.Length0 == PAGES && framebuffer.Length1 == WIDTH
      && staging.Length0 == PAGES && staging.Length1 == WIDTH && staging != framebuffer
      && dirtyStart.Length == PAGES && dirtyEnd.Length == PAGES && dirtyStart != dirtyEnd
    }

    /** Dirty windows are well formed: empty for clean pages, a real column range for dirty ones. */
    ghost predicate WindowsValid()
      reads this`dirtyPages, this`pending, dirtyStart, dirtyEnd
    {
      && Shape()
      && (pending <==> dirtyPages != {})
      && (forall p :: p in dirtyPages ==> p < PAGES)
      && forall p :: 0 <= p < PAGES ==>
                       if p in dirtyPages then dirtyStart[p] < dirtyEnd[p] <= WIDTH
                       else dirtyStart[p] == WIDTH && dirtyEnd[p] == 0
    }

    /** Is cell `(p, c)` inside a dirty window? */
    ghost predicate InWindow(p: nat, c: nat)
      requires Shape() && p < PAGES
      reads dirtyStart, dirtyEnd
    {
      dirtyStart[p] <= c < dirtyEnd[p]
    }

    /** Staging and framebuffer differ only inside dirty windows. */
    ghost predicate Covered()
      requires Shape()
      reads dirtyStart, dirtyEnd, framebuffer, staging
    {
      forall p, c :: 0 <= p < PAGES && 0 <= c < WIDTH && !InWindow(p, c) ==> staging[p, c] == framebuffer[p, c]
    }

    ghost predicate Valid()
      reads this`dirtyPages, this`pending, dirtyStart, dirtyEnd, framebuffer, staging, link
    {
      WindowsValid() && Covered() && Shaped(link.panel)
    }

    /** The panel shows the framebuffer, except perhaps inside dirty windows. */
    ghost predicate Synced()
      requires Shape() && Shaped(link.panel)
      reads dirtyStart, dirtyEnd, framebuffer, link
    {
      forall p, c :: 0 <= p < PAGES && 0 <= c < WIDTH && !InWindow(p, c) ==>
                       Visible(link.controller, link.panel, p, c) == framebuffer[p, c]
    }

    /** The panel shows the staged frame, as a full repaint would. */
    ghost predicate ShowsStaging()
      requires Shape() && Shaped(link.panel)
      reads staging, link
    {
      forall p, c :: 0 <= p < PAGES && 0 <= c < WIDTH ==> Visible(link.controller, link.panel, p, c) == staging[p, c]
    }

    /** The panel shows the framebuffer everywhere. */
    ghost predicate PanelCurrent()
      requires Shape() && Shaped(link.panel)
      reads framebuffer, link
    {
      forall p, c :: 0 <= p < PAGES && 0 <= c < WIDTH ==>
          Visible(link.controller, link.panel, p, c) == framebuffer[p, c]
    }

    constructor (link: Link, font: Font)
      requires Shaped(link.panel)
      ensures Valid() && !pending && state == WaitBoot && !bootObserved && this.link == link && this.font == font
      ensures forall p, c :: 0 <= p < PAGES && 0 <= c < WIDTH ==> framebuffer[p, c] == 0
      ensures fresh(framebuffer) && fresh(staging) && fresh(dirtyStart) && fresh(dirtyEnd)
    {
      this.link, this.font := link, font;
      framebuffer := new Byte[PAGES, WIDTH]((_, _) => 0);
      staging := new Byte[PAGES, WIDTH]((_, _) => 0);
      dirtyStart := new nat[PAGES](_ => WIDTH);
      dirtyEnd := new nat[PAGES](_ => 0);
      dirtyPages, pending, state := {}, false, WaitBoot;
      tick, retryDue, bootObserved := 0, 0, false;
      stats := Stats(0, 0, 0, 0, 0, 0, 0);
    }

    method ResetDirty()
      requires Shape()
      modifies this`dirtyPages, this`pending, dirtyStart, dirtyEnd
      ensures WindowsValid() && !pending && dirtyPages == {}
    {
      pending, dirtyPages := false, {};
      forall p | 0 <= p < PAGES {
        dirtyStart[p] := WIDTH;
      }
      forall p | 0 <= p < PAGES {
        dirtyEnd[p] := 0;
      }
    }

    /** Widen a page's window to take in the given columns. */
    method MarkDirty(page: nat, start: nat, end: nat)
      requires WindowsValid()
      modifies this`dirtyPages, this`pending, dirtyStart, dirtyEnd
      ensures WindowsValid()
      ensures !(page < PAGES && start < end <= WIDTH) ==> dirtyPages == old(dirtyPages)
      ensures forall p :: 0 <= p < PAGES && p != page ==>
                            dirtyStart[p] == old(dirtyStart[p]) && dirtyEnd[p] == old(dirtyEnd[p])
      ensures page < PAGES && start < end <= WIDTH ==>
                && dirtyPages == old(dirtyPages) + {page}
                && dirtyStart[page] == Min(start, old(dirtyStart[page]))
                && dirtyEnd[page] == Max(end, old(dirtyEnd[page]))
      ensures !(page < PAGES && start < end <= WIDTH) && page < PAGES ==>
                dirtyStart[page] == old(dirtyStart[page]) && dirtyEnd[page] == old(dirtyEnd[page])
    {
      if page >= PAGES || start >= end || end > WIDTH {
        return;
      }
      pending, dirtyPages := true, dirtyPages + {page};
      dirtyStart[page] := Min(start, dirtyStart[page]);
      dirtyEnd[page] := Max(end, dirtyEnd[page]);
    }

    /** Draw one line of text: the row from the command's column on is cleared and redrawn, nothing else changes. */
    method RenderText(cmd: TextCmd) returns (rc: Result)
      requires Shape() && |cmd.text| == TEXT_MAX
      modifies staging
      ensures rc == Ok <==> cmd.page < PAGES && cmd.column < WIDTH
      ensures rc == Ok || rc == ErrOutOfRange
      ensures forall p, c :: 0 <= p < PAGES && 0 <= c < WIDTH ==>
                               staging[p, c] == if rc == Ok && p == cmd.page && cmd.column <= c then Pixel(font, cmd, c)
                                                else old(staging[p, c])
    {
      if cmd.page >= PAGES || cmd.column >= WIDTH {
        return ErrOutOfRange;
      }
      forall c | cmd.column <= c < WIDTH {
        staging[cmd.page, c] := 0;
      }
      var n := TextLength(cmd.text);
      var i := 0;
      while i < n && cmd.column + i * CELL_ADVANCE < WIDTH
        invariant i <= n
        invariant forall p, c :: 0 <= p < PAGES && 0 <= c < WIDTH && !(p == cmd.page && cmd.column <= c) ==>
                                   staging[p, c] == old(staging[p, c])
        invariant forall c :: cmd.column <= c < WIDTH ==>
                                staging[cmd.page, c] == if c < cmd.column + i * CELL_ADVANCE then Pixel(font, cmd, c)
                                    else 0
      {
        RenderGlyph(cmd, i);
        i := i + 1;
      }
      BlankAfterText(cmd, n);
      return Ok;
    }

    lemma BlankAfterText(cmd: TextCmd, n: nat)
      requires |cmd.text| == TEXT_MAX && n == TextLength(cmd.text)
      ensures forall c :: cmd.column + n * CELL_ADVANCE <= c ==> Pixel(font, cmd, c) == 0
    {
    }

    /** Draw glyph `i` of a line into its cell; the gap column after it stays clear. */
    method RenderGlyph(cmd: TextCmd, i: nat)
      requires Shape() && |cmd.text| == TEXT_MAX && cmd.page < PAGES && i < TextLength(cmd.text)
      requires cmd.column + i * CELL_ADVANCE < WIDTH
      requires forall c :: cmd.column + i * CELL_ADVANCE <= c < WIDTH ==> staging[cmd.page, c] == 0
      modifies staging
      ensures forall p, c :: 0 <= p < PAGES && 0 <= c < WIDTH ==>
                               staging[p, c] ==
                               if && p == cmd.page && cmd.column + i * CELL_ADVANCE <= c
                                  && c < cmd.column + (i + 1) * CELL_ADVANCE
                               then Pixel(font, cmd, c) else old(staging[p, c])
    {
      var glyph := font[GlyphIndex(cmd.text[i])];
      var base := cmd.column + i * CELL_ADVANCE;
      var g := 0;
      while g < GLYPH_WIDTH && base + g < WIDTH
        invariant g <= GLYPH_WIDTH
        invariant forall p, c :: 0 <= p < PAGES && 0 <= c < WIDTH ==>
                                   staging[p, c] == if p == cmd.page && base <= c < base + g then glyph[c - base]
                                                    else old(staging[p, c])
      {
        staging[cmd.page, base + g] := glyph[g];
        g := g + 1;
      }
      CellPixels(cmd, i);
    }

    lemma CellPixels(cmd: TextCmd, i: nat)
      requires |cmd.text| == TEXT_MAX && i < TextLength(cmd.text)
      ensures
        var base := cmd.column + i * CELL_ADVANCE;
        forall c :: base <= c < base + CELL_ADVANCE ==>
                      Pixel(font, cmd, c) == if c < base + GLYPH_WIDTH then font[GlyphIndex(cmd.text[i])][c - base]
                          else 0
    {
      var base := cmd.column + i * CELL_ADVANCE;
      forall c | base <= c < base + CELL_ADVANCE
        ensures Pixel(font, cmd, c) == if c < base + GLYPH_WIDTH then font[GlyphIndex(cmd.text[i])][c - base] else 0
      {
        ModOf(i, CELL_ADVANCE, c - base);
      }
    }

    // ----- scenes -----

    method CopyFrame(from: array2<Byte>, to: array2<Byte>)
      requires Shape() && from != to
      requires from.Length0 == to.Length0 == PAGES && from.Length1 == to.Length1 == WIDTH
      modifies to
      ensures forall p, c :: 0 <= p < PAGES && 0 <= c < WIDTH ==> to[p, c] == from[p, c]
    {
      forall p, c | 0 <= p < PAGES && 0 <= c < WIDTH {
        to[p, c] := from[p, c];
      }
    }

    /** Draw the lines of a scene into a cleared staging frame. */
    method DrawScene(scene: Scene)
      requires Shape() && SceneValid(scene) && scene.columnOffset < WIDTH
      modifies staging
      ensures forall p, c :: 0 <= p < PAGES && 0 <= c < WIDTH ==> staging[p, c] == ScenePixel(font, scene, p, c)
    {
      hide Pixel;
      forall p, c | 0 <= p < PAGES && 0 <= c < WIDTH {
        staging[p, c] := 0;
      }
      if !scene.visible {
        return;
      }
      var line := 0;
      while line < SCENE_LINES
        invariant line <= SCENE_LINES
        invariant forall p, c :: 0 <= p < PAGES && 0 <= c < WIDTH ==>
                                   staging[p, c] == if LineOf(scene, p) < line then ScenePixel(font, scene, p, c) else 0
      {
        var page := (scene.pageOffset + line) % 256;
        if page < PAGES {
          var cmd := TextCmd(page, scene.columnOffset, scene.lines[line]);
          var rc := RenderText(cmd);
        }
        line := line + 1;
      }
    }

    /** Mark exactly the columns where the frames differ, page by page. */
    method DiffFrames()
      requires Shape()
      modifies this`dirtyPages, this`pending, dirtyStart, dirtyEnd
      ensures WindowsValid() && Covered()
      ensures forall p, c :: 0 <= p < PAGES && 0 <= c < WIDTH ==> (InWindow(p, c) <==> Spanned(p, c))
    {
      ResetDirty();
      var page := 0;
      while page < PAGES
        invariant page <= PAGES && WindowsValid()
        invariant forall p, c :: 0 <= p < page && 0 <= c < WIDTH && !InWindow(p, c) ==>
                    staging[p, c] == framebuffer[p, c]
        invariant forall p :: p in dirtyPages ==> p < page && Tight(p)
      {
        DiffPage(page);
        page := page + 1;
      }
      WindowsAreSpans();
    }

    /** Cell `(p, c)` lies between two cells of its page where the frames differ. */
    ghost predicate Spanned(p: nat, c: nat)
      requires Shape() && p < PAGES
      reads staging, framebuffer
    {
      exists a, b :: 0 <= a <= c <= b < WIDTH && Differs(p, a) && Differs(p, b)
    }

    ghost predicate Differs(p: nat, c: nat)
      requires Shape() && p < PAGES && c < WIDTH
      reads staging, framebuffer
    {
      staging[p, c] != framebuffer[p, c]
    }

    lemma WindowsAreSpans()
      requires WindowsValid() && Covered() && forall p :: p in dirtyPages ==> Tight(p)
      ensures forall p, c :: 0 <= p < PAGES && 0 <= c < WIDTH ==> (InWindow(p, c) <==> Spanned(p, c))
    {
      forall p, c | 0 <= p < PAGES && 0 <= c < WIDTH
        ensures InWindow(p, c) <==> Spanned(p, c)
      {
        if InWindow(p, c) {
          assert Differs(p, dirtyStart[p]) && Differs(p, dirtyEnd[p] - 1);
        }
      }
    }

    ghost predicate Tight(p: nat)
      requires Shape() && p < PAGES
      reads dirtyStart, dirtyEnd, staging, framebuffer
    {
      dirtyStart[p] < dirtyEnd[p] <= WIDTH ==>
        && staging[p, dirtyStart[p]] != framebuffer[p, dirtyStart[p]]
        && staging[p, dirtyEnd[p] - 1] != framebuffer[p, dirtyEnd[p] - 1]
    }

    method DiffPage(page: nat)
      requires WindowsValid() && page < PAGES && page !in dirtyPages
      modifies this`dirtyPages, this`pending, dirtyStart, dirtyEnd
      ensures WindowsValid() && dirtyPages <= old(dirtyPages) + {page} && old(dirtyPages) <= dirtyPages
      ensures forall p :: 0 <= p < PAGES && p != page ==>
                            dirtyStart[p] == old(dirtyStart[p]) && dirtyEnd[p] == old(dirtyEnd[p])
      ensures forall c :: 0 <= c < WIDTH && !InWindow(page, c) ==> staging[page, c] == framebuffer[page, c]
      ensures Tight(page)
    {
      var column := 0;
      while column < WIDTH
        invariant column <= WIDTH && WindowsValid()
        invariant dirtyPages <= old(dirtyPages) + {page} && old(dirtyPages) <= dirtyPages
        invariant forall p :: 0 <= p < PAGES && p != page ==>
                                dirtyStart[p] == old(dirtyStart[p]) && dirtyEnd[p] == old(dirtyEnd[p])
        invariant dirtyEnd[page] <= column && (page in dirtyPages ==> dirtyStart[page] < column)
        invariant forall c :: 0 <= c < column && !InWindow(page, c) ==> staging[page, c] == framebuffer[page, c]
        invariant Tight(page)
      {
        if staging[page, column] != framebuffer[page, column] {
          MarkDirty(page, column, column + 1);
        }
        column := column + 1;
      }
    }

    /** The scene changes the current frame in cell `(p, c)`. */
    ghost predicate Changes(scene: Scene, p: nat, c: nat)
      requires Shape() && SceneValid(scene) && p < PAGES && c < WIDTH
      reads framebuffer
    {
      ScenePixel(font, scene, p, c) != framebuffer[p, c]
    }

    /** Cell `(p, c)` lies between two cells of its page that the scene changes. */
    ghost predicate Spans(scene: Scene, p: nat, c: nat)
      requires Shape() && SceneValid(scene) && p < PAGES
      reads framebuffer
    {
      exists a, b :: 0 <= a <= c <= b < WIDTH && Changes(scene, p, a) && Changes(scene, p, b)
    }

    /** The dirty windows are exactly what the scene spans. */
    ghost predicate WindowsSpan(scene: Scene)
      requires Shape() && SceneValid(scene)
      reads dirtyStart, dirtyEnd, framebuffer
    {
      forall p, c :: 0 <= p < PAGES && 0 <= c < WIDTH ==> (InWindow(p, c) <==> Spans(scene, p, c))
    }

    /** Wherever the panel does not show the current frame, the scene spans the cell. */
    ghost predicate Mends(scene: Scene)
      requires Shape() && SceneValid(scene) && Shaped(link.panel)
      reads framebuffer, link
    {
      forall p, c :: 0 <= p < PAGES && 0 <= c < WIDTH && !Spans(scene, p, c) ==>
                       Visible(link.controller, link.panel, p, c) == framebuffer[p, c]
    }

    /**
     Replace the staged frame by a scene and mark what changed.  The windows of an earlier
     failed flush are forgotten, so the panel is right outside the new ones exactly if the
     scene mends it.  A refused scene changes nothing.
     */
    method PrepareSceneCommit(scene: Scene) returns (rc: Result)
      requires Valid() && SceneValid(scene)
      modifies this`dirtyPages, this`pending, dirtyStart, dirtyEnd, staging
      ensures Valid()
      ensures rc == if scene.columnOffset < WIDTH then Ok else ErrOutOfRange
      ensures PanelCurrent() <==> old(PanelCurrent())
      ensures rc == Ok ==>
                forall p, c :: 0 <= p < PAGES && 0 <= c < WIDTH ==> staging[p, c] == ScenePixel(font, scene, p, c)
      ensures rc == Ok ==> WindowsSpan(scene) && (Synced() <==> Mends(scene)) && (Mends(scene) <==> old(Mends(scene)))
      ensures rc != Ok ==>
                && pending == old(pending) && dirtyPages == old(dirtyPages)
                && dirtyStart[..] == old(dirtyStart[..]) && dirtyEnd[..] == old(dirtyEnd[..])
                && (forall p, c :: 0 <= p < PAGES && 0 <= c < WIDTH ==> staging[p, c] == old(staging[p, c]))
                && (Synced() <==> old(Synced()))
    {
      if scene.columnOffset >= WIDTH {
        return ErrOutOfRange;
      }
      DrawScene(scene);
      DiffFrames();
      StagedSceneSpans(scene);
      return Ok;
    }

    /** The windows of a staged scene, and what they leave to be right. */
    lemma StagedSceneSpans(scene: Scene)
      requires Shape() && SceneValid(scene) && Shaped(link.panel)
      requires forall p, c :: 0 <= p < PAGES && 0 <= c < WIDTH ==> staging[p, c] == ScenePixel(font, scene, p, c)
      requires forall p, c :: 0 <= p < PAGES && 0 <= c < WIDTH ==> (InWindow(p, c) <==> Spanned(p, c))
      ensures WindowsSpan(scene) && (Synced() <==> Mends(scene))
    {
      hide ScenePixel;
      forall p, c | 0 <= p < PAGES && 0 <= c < WIDTH
        ensures InWindow(p, c) <==> Spans(scene, p, c)
      {
        SpansIsSpanned(scene, p, c);
      }
    }

    lemma SpansIsSpanned(scene: Scene, p: nat, c: nat)
      requires Shape() && SceneValid(scene) && p < PAGES
      requires forall p, c :: 0 <= p < PAGES && 0 <= c < WIDTH ==> staging[p, c] == ScenePixel(font, scene, p, c)
      ensures Spans(scene, p, c) <==> Spanned(p, c)
    {
      hide ScenePixel;
      if Spans(scene, p, c) {
        var a, b :| 0 <= a <= c <= b < WIDTH && Changes(scene, p, a) && Changes(scene, p, b);
        assert Differs(p, a) && Differs(p, b);
      }
      if Spanned(p, c) {
        var a, b :| 0 <= a <= c <= b < WIDTH && Differs(p, a) && Differs(p, b);
        assert Changes(scene, p, a) && Changes(scene, p, b);
      }
    }

    // ----- the panel -----

    method RowBytes(a: array2<Byte>, p: nat) returns (r: seq<Byte>)
      requires a.Length0 == PAGES && a.Length1 == WIDTH && p < PAGES
      ensures |r| == WIDTH && forall c :: 0 <= c < WIDTH ==> r[c] == a[p, c]
    {
      r := [];
      for c := 0 to WIDTH
        invariant |r| == c && forall j :: 0 <= j < c ==> r[j] == a[p, j]
      {
        r := r + [a[p, c]];
      }
    }

    method ScheduleRetry()
      modifies this`state, this`retryDue, this`stats
      ensures state == Error && retryDue == (tick + RETRY_DELAY) % WORD
      ensures stats == old(stats).(retries := old(stats).retries + 1)
    {
      state, retryDue := Error, (tick + RETRY_DELAY) % WORD;
      stats := stats.(retries := stats.retries + 1);
    }

    /** Transactions the window of a page takes. */
    ghost function PageTransfers(p: nat): nat
      requires Shape() && p < PAGES
      reads dirtyStart, dirtyEnd
    {
      if dirtyStart[p] < dirtyEnd[p] then link.WindowTransfers(dirtyEnd[p] - dirtyStart[p]) else 0
    }

    /** Transactions the windows of the first `n` pages take. */
    ghost function TransfersTo(n: nat): nat
      requires Shape() && n <= PAGES
      reads dirtyStart, dirtyEnd
    {
      if n == 0 then 0 else TransfersTo(n - 1) + PageTransfers(n - 1)
    }

    /** A flush from transaction `from` on brings cell `(p, c)`. */
    ghost predicate FlushReaches(from: nat, p: nat, c: nat)
      requires Shape() && p < PAGES
      reads dirtyStart, dirtyEnd
    {
      && InWindow(p, c) && link.AllAccepted(from, from + TransfersTo(p))
      && link.Arrives(from + TransfersTo(p), c - dirtyStart[p])
    }

    /** On pages below `n` the cells a flush brings show the staged frame, every other cell what it showed. */
    ghost predicate Written(d: Panel, e: Panel, from: nat, n: nat)
      requires Shape() && Shaped(d) && Shaped(e)
      reads dirtyStart, dirtyEnd, staging
    {
      forall p, c :: 0 <= p < PAGES && 0 <= c < WIDTH ==>
                       Visible(link.controller, e, p, c) ==
                       if p < n && FlushReaches(from, p, c) then staging[p, c] else Visible(link.controller, d, p, c)
    }

    /** Write every dirty window to the panel, page by page, until one fails. */
    method WriteWindows() returns (ok: bool)
      requires Valid()
      modifies link
      ensures Shaped(link.panel) && Written(old(link.panel), link.panel, old(link.sent), PAGES)
      ensures link.Carried(old(link.sent), link.sent, TransfersTo(PAGES), ok)
    {
      hide TransfersTo, PageTransfers, Covered, Written;
      var page := 0;
      NothingWritten(link.panel, link.sent);
      while page < PAGES
        invariant page <= PAGES && Shaped(link.panel)
        invariant Written(old(link.panel), link.panel, old(link.sent), page)
        invariant link.Carried(old(link.sent), link.sent, TransfersTo(page), true)
      {
        ok := WriteWindow(page, old(link.panel), old(link.sent));
        NextPage(page);
        TransfersGrow(page + 1, PAGES);
        if !ok {
          NothingBeyond(old(link.panel), link.panel, old(link.sent), link.sent, page);
          return;
        }
        page := page + 1;
      }
      ok := true;
    }

    lemma NothingWritten(d: Panel, from: nat)
      requires Shape() && Shaped(d)
      ensures TransfersTo(0) == 0 && Written(d, d, from, 0)
    {
    }

    lemma NextPage(p: nat)
      requires Shape() && p < PAGES
      ensures TransfersTo(p + 1) == TransfersTo(p) + PageTransfers(p)
    {
    }

    lemma {:induction false} TransfersGrow(m: nat, n: nat)
      requires Shape() && m <= n <= PAGES
      ensures TransfersTo(m) <= TransfersTo(n)
    {
      if m < n {
        TransfersGrow(m, n - 1);
      }
    }

    /** After a failure on page `f` no later page is brought anything. */
    lemma NothingBeyond(d: Panel, e: Panel, from: nat, to: nat, f: nat)
      requires Shape() && Shaped(d) && Shaped(e) && f < PAGES && Written(d, e, from, f + 1)
      requires from + TransfersTo(f) < to <= from + TransfersTo(f + 1) && !link.fate(to - 1).Accepted?
      ensures Written(d, e, from, PAGES)
    {
      hide TransfersTo, PageTransfers;
      forall p, c | f < p < PAGES && 0 <= c < WIDTH
        ensures !FlushReaches(from, p, c)
      {
        TransfersGrow(f + 1, p);
      }
    }

    /** Write one page's window, if it has one. */
    method WriteWindow(page: nat, ghost d: Panel, ghost from: nat) returns (ok: bool)
      requires WindowsValid() && page < PAGES && Shaped(d) && Shaped(link.panel) && Written(d, link.panel, from, page)
      requires link.Carried(from, link.sent, TransfersTo(page), true)
      modifies link
      ensures Shaped(link.panel) && Written(d, link.panel, from, page + 1)
      ensures link.Carried(old(link.sent), link.sent, PageTransfers(page), ok)
    {
      hide TransfersTo, Written, Link.BringsFirst, Painted;
      if page !in dirtyPages {
        CleanPage(d, link.panel, from, page);
        return true;
      }
      var row := RowBytes(staging, page);
      ghost var taken;
      var rc;
      rc, taken := link.ApplyAddressWindow(page, dirtyStart[page], dirtyEnd[page], row);
      ok := rc == Ok;
      PageWritten(d, old(link.panel), link.panel, from, page, row, taken);
    }

    lemma CleanPage(d: Panel, e: Panel, from: nat, page: nat)
      requires WindowsValid() && page < PAGES && page !in dirtyPages
      requires Shaped(d) && Shaped(e) && Written(d, e, from, page)
      ensures Written(d, e, from, page + 1)
    {
      hide TransfersTo, Link.Arrives;
    }

    /** The part of a page's window that was painted is the part the flush brings. */
    lemma PageWritten(d: Panel, m: Panel, e: Panel, from: nat, page: nat, row: seq<Byte>, taken: nat)
      requires WindowsValid() && page in dirtyPages && Shaped(d) && Shaped(m) && Written(d, m, from, page)
      requires |row| == WIDTH && forall c :: 0 <= c < WIDTH ==> row[c] == staging[page, c]
      requires link.AllAccepted(from, from + TransfersTo(page))
      requires link.BringsFirst(from + TransfersTo(page), dirtyEnd[page] - dirtyStart[page], taken)
      requires Painted(link.controller, m, e, page, dirtyStart[page], dirtyStart[page] + taken, row)
      ensures Shaped(e) && Written(d, e, from, page + 1)
    {
      hide TransfersTo, Link.Arrives;
      forall p, c | 0 <= p < PAGES && 0 <= c < WIDTH
        ensures Visible(link.controller, e, p, c) ==
                if p < page + 1 && FlushReaches(from, p, c) then staging[p, c] else Visible(link.controller, d, p, c)
      {
        if p == page && InWindow(p, c) {
          var i: nat := c - dirtyStart[page];
          assert i < taken <==> link.Arrives(from + TransfersTo(page), i);
        }
      }
    }

    /** A flush whose transactions are all accepted brings every cell of the windows. */
    lemma AllBrought(from: nat)
      requires WindowsValid() && link.AllAccepted(from, from + TransfersTo(PAGES))
      ensures forall p, c :: 0 <= p < PAGES && 0 <= c < WIDTH && InWindow(p, c) ==> FlushReaches(from, p, c)
    {
      hide TransfersTo;
      forall p, c | 0 <= p < PAGES && 0 <= c < WIDTH && InWindow(p, c)
        ensures FlushReaches(from, p, c)
      {
        NextPage(p);
        TransfersGrow(p + 1, PAGES);
        link.WholeWindow(from + TransfersTo(p), dirtyEnd[p] - dirtyStart[p]);
      }
    }

    /**
     Flush the dirty windows.  A complete flush makes the staged frame the current one, and
     it is then what the panel shows exactly if the panel was right outside the windows.
     A failed flush stopped at the transaction the bus refused and changes neither frame
     nor windows.  Either way the panel is right outside the windows exactly if it was.
     */
    method FlushPending() returns (rc: Result)
      requires Valid()
      modifies this`dirtyPages, this`pending, this`state, this`retryDue, this`stats
      modifies link, framebuffer, dirtyStart, dirtyEnd
      ensures Valid() && rc == Ok
      ensures old(pending) && !pending ==>
                && stats.flushSuccesses == old(stats).flushSuccesses + 1 && state == old(state)
                && (ShowsStaging() <==> old(Synced())) && (PanelCurrent() <==> old(Synced()))
                && link.Carried(old(link.sent), link.sent, old(TransfersTo(PAGES)), true)
                && (forall p, c :: 0 <= p < PAGES && 0 <= c < WIDTH ==> framebuffer[p, c] == staging[p, c])
      ensures pending ==>
                && state == Error && retryDue == (tick + RETRY_DELAY) % WORD
                && (forall p, c :: 0 <= p < PAGES && 0 <= c < WIDTH ==> framebuffer[p, c] == old(framebuffer[p, c]))
                && dirtyStart[..] == old(dirtyStart[..]) && dirtyEnd[..] == old(dirtyEnd[..])
                && Written(old(link.panel), link.panel, old(link.sent), PAGES)
                && link.Carried(old(link.sent), link.sent, TransfersTo(PAGES), false)
      ensures Synced() <==> old(Synced())
      ensures !old(pending) ==>
                && !pending && state == old(state) && link.panel == old(link.panel) && link.sent == old(link.sent)
                && (PanelCurrent() <==> old(PanelCurrent()))
                && forall p, c :: 0 <= p < PAGES && 0 <= c < WIDTH ==> framebuffer[p, c] == old(framebuffer[p, c])
      ensures stats.flushFailures == old(stats).flushFailures + if pending then 1 else 0
      ensures old(PanelCurrent()) && !pending ==> PanelCurrent()
      ensures old(link.sent) <= link.sent && (link.Accepting(old(link.sent)) ==> !pending)
      ensures SameInitStats(old(stats), stats)
    {
      hide FlushReaches, TransfersTo, Tight;
      if !pending {
        return Ok;
      }
      stats := stats.(flushAttempts := stats.flushAttempts + 1);
      var ok := WriteWindows();
      NothingOutside();
      if !ok {
        stats := stats.(flushFailures := stats.flushFailures + 1);
        ScheduleRetry();
        return Ok;
      }
      AllBrought(old(link.sent));
      CopyFrame(staging, framebuffer);
      ResetDirty();
      stats := stats.(flushSuccesses := stats.flushSuccesses + 1);
      return Ok;
    }

    /** A flush brings nothing outside the windows. */
    lemma NothingOutside()
      requires Shape()
      ensures forall from, p, c :: 0 <= p < PAGES && 0 <= c < WIDTH && FlushReaches(from, p, c) ==> InWindow(p, c)
    {
    }

    /** A repaint from transaction `from` on brings cell `(p, c)`. */
    ghost predicate RepaintReaches(from: nat, p: nat, c: nat) {
      && link.AllAccepted(from, from + p * link.WindowTransfers(WIDTH))
      && link.Arrives(from + p * link.WindowTransfers(WIDTH), c)
    }

    /** On pages below `n` the cells a repaint brings show the framebuffer, every other cell what it showed. */
    ghost predicate Repainted(d: Panel, e: Panel, from: nat, n: nat)
      requires Shape() && Shaped(d) && Shaped(e)
      reads framebuffer
    {
      forall p, c :: 0 <= p < PAGES && 0 <= c < WIDTH ==>
                       Visible(link.controller, e, p, c) ==
                       if p < n && RepaintReaches(from, p, c) then framebuffer[p, c]
                       else Visible(link.controller, d, p, c)
    }

    /** The cells a repaint from transaction `from` on does not bring are right already. */
    ghost predicate RightBeyond(from: nat)
      requires Shape() && Shaped(link.panel)
      reads framebuffer, link
    {
      forall p, c :: 0 <= p < PAGES && 0 <= c < WIDTH && !RepaintReaches(from, p, c) ==>
                       Visible(link.controller, link.panel, p, c) == framebuffer[p, c]
    }

    /** So they are, except perhaps inside dirty windows. */
    ghost predicate SyncedBeyond(from: nat)
      requires Shape() && Shaped(link.panel)
      reads dirtyStart, dirtyEnd, framebuffer, link
    {
      forall p, c :: 0 <= p < PAGES && 0 <= c < WIDTH && !RepaintReaches(from, p, c) && !InWindow(p, c) ==>
                       Visible(link.controller, link.panel, p, c) == framebuffer[p, c]
    }

    /**
     Repaint the whole panel from the framebuffer, as far as the bus lets it; a failure is
     booked, not reported.  The panel is then right exactly if the cells the repaint did
     not bring were.
     */
    method SyncFull() returns (ghost complete: bool)
      requires Valid()
      modifies this`state, this`retryDue, this`stats, link
      ensures Valid() && SameInitStats(old(stats), stats)
      ensures complete ==> PanelCurrent() && stats.flushFailures == old(stats).flushFailures && state == old(state)
      ensures !complete ==>
                && stats.flushFailures == old(stats).flushFailures + 1
                && state == Error && retryDue == (tick + RETRY_DELAY) % WORD
      ensures link.Carried(old(link.sent), link.sent, PAGES * link.WindowTransfers(WIDTH), complete)
      ensures Repainted(old(link.panel), link.panel, old(link.sent), PAGES)
      ensures PanelCurrent() <==> old(RightBeyond(link.sent))
      ensures Synced() <==> old(SyncedBeyond(link.sent))
      ensures complete ==> Synced()
    {
      hide Covered, Repainted, RepaintReaches, PanelCurrent, Synced, RightBeyond, SyncedBeyond;
      ghost var from := link.sent;
      stats := stats.(flushAttempts := stats.flushAttempts + 1);
      var ok := RepaintPages();
      complete := ok;
      RepaintedIsRight(from);
      if ok {
        AllRepainted(from);
        NothingMissed(old(link.panel), from);
        CurrentIsSynced();
        stats := stats.(flushSuccesses := stats.flushSuccesses + 1);
      } else {
        stats := stats.(flushFailures := stats.flushFailures + 1);
        ScheduleRetry();
      }
    }

    /** The pages of a repaint, one whole window each, until one fails. */
    method RepaintPages() returns (ok: bool)
      requires Valid()
      modifies link
      ensures Shaped(link.panel) && Repainted(old(link.panel), link.panel, old(link.sent), PAGES)
      ensures link.Carried(old(link.sent), link.sent, PAGES * link.WindowTransfers(WIDTH), ok)
    {
      hide Covered, Repainted;
      FullWindow();
      var page := 0;
      NothingRepainted(link.panel, link.sent);
      while page < PAGES
        invariant page <= PAGES && Shaped(link.panel)
        invariant Repainted(old(link.panel), link.panel, old(link.sent), page)
        invariant link.Carried(old(link.sent), link.sent, page * link.WindowTransfers(WIDTH), true)
      {
        ok := RepaintPage(page, old(link.panel), old(link.sent));
        if !ok {
          NoneRepaintedBeyond(old(link.panel), link.panel, old(link.sent), link.sent, page);
          return;
        }
        page := page + 1;
      }
      ok := true;
    }

    method RepaintPage(page: nat, ghost d: Panel, ghost from: nat) returns (ok: bool)
      requires Shape() && page < PAGES && Shaped(d) && Shaped(link.panel) && Repainted(d, link.panel, from, page)
      requires link.Carried(from, link.sent, page * link.WindowTransfers(WIDTH), true)
      modifies link
      ensures Shaped(link.panel) && Repainted(d, link.panel, from, page + 1)
      ensures link.Carried(old(link.sent), link.sent, link.WindowTransfers(WIDTH), ok)
    {
      hide Repainted, Link.BringsFirst, Painted;
      var row := RowBytes(framebuffer, page);
      ghost var taken;
      var rc;
      rc, taken := link.ApplyAddressWindow(page, 0, WIDTH, row);
      ok := rc == Ok;
      PageRepainted(d, old(link.panel), link.panel, from, page, row, taken);
    }

    /** The part of a page that was painted is the part the repaint brings. */
    lemma PageRepainted(d: Panel, m: Panel, e: Panel, from: nat, page: nat, row: seq<Byte>, taken: nat)
      requires Shape() && page < PAGES && Shaped(d) && Shaped(m) && Repainted(d, m, from, page)
      requires |row| == WIDTH && forall c :: 0 <= c < WIDTH ==> row[c] == framebuffer[page, c]
      requires link.AllAccepted(from, from + page * link.WindowTransfers(WIDTH))
      requires link.BringsFirst(from + page * link.WindowTransfers(WIDTH), WIDTH, taken)
      requires Painted(link.controller, m, e, page, 0, taken, row)
      ensures Shaped(e) && Repainted(d, e, from, page + 1)
    {
      hide Link.Arrives, Link.WindowTransfers;
    }

    lemma NothingRepainted(d: Panel, from: nat)
      requires Shape() && Shaped(d)
      ensures Repainted(d, d, from, 0)
    {
    }

    lemma NoneRepaintedBeyond(d: Panel, e: Panel, from: nat, to: nat, f: nat)
      requires Shape() && Shaped(d) && Shaped(e) && f < PAGES && Repainted(d, e, from, f + 1)
      requires to <= from + (f + 1) * link.WindowTransfers(WIDTH) && to > from && !link.fate(to - 1).Accepted?
      ensures Repainted(d, e, from, PAGES)
    {
      FullWindow();
      forall p, c | f < p < PAGES && 0 <= c < WIDTH
        ensures !RepaintReaches(from, p, c)
      {
        assert from <= to - 1 < from + p * link.WindowTransfers(WIDTH);
      }
    }

    lemma AllRepainted(from: nat)
      requires link.AllAccepted(from, from + PAGES * link.WindowTransfers(WIDTH))
      ensures forall p, c :: 0 <= p < PAGES && 0 <= c < WIDTH ==> RepaintReaches(from, p, c)
    {
      FullWindow();
      forall p, c | 0 <= p < PAGES && 0 <= c < WIDTH
        ensures RepaintReaches(from, p, c)
      {
        assert link.AllAccepted(from, from + p * link.WindowTransfers(WIDTH));
        link.WholeWindow(from + p * link.WindowTransfers(WIDTH), WIDTH);
      }
    }

    lemma NothingMissed(d: Panel, from: nat)
      requires Shape() && Shaped(d) && Shaped(link.panel) && Repainted(d, link.panel, from, PAGES)
      requires forall p, c :: 0 <= p < PAGES && 0 <= c < WIDTH ==> RepaintReaches(from, p, c)
      ensures PanelCurrent()
    {
      hide RepaintReaches;
    }

    /** After a repaint the panel is right exactly if the cells it did not bring were. */
    twostate lemma RepaintedIsRight(from: nat)
      requires Shape() && old(Shaped(link.panel)) && Shaped(link.panel)
      requires unchanged(framebuffer, dirtyStart, dirtyEnd)
      requires Repainted(old(link.panel), link.panel, from, PAGES)
      ensures PanelCurrent() <==> old(RightBeyond(from))
      ensures Synced() <==> old(SyncedBeyond(from))
    {
      hide RepaintReaches;
    }


    lemma FullWindow()
      ensures link.WindowTransfers(WIDTH) == if link.controller == Sh1106 then 6 else 4
    {
    }

    function InitSequence(): seq<Byte> {
      match link.controller
      case Sh1106 => [
        0xAE, 0xA6, 0xD5, 0x80, 0xA8, 0x3F, 0xDA, 0x12,
        0xD3, 0x00, 0x40, 0x8D, 0x14, 0x20, 0x00, 0xA1,
        0xC8, 0x81, 0x7F, 0xD9, 0x22, 0xDB, 0x40, 0xA4,
        0xAF]
      case Ssd1306 => [
        0xAE, 0xD5, 0x80, 0xA8, 0x27, 0xD3, 0x00, 0xAD,
        0x30, 0x8D, 0x14, 0x40, 0xA6, 0xA4, 0x20, 0x00,
        0xA1, 0xC8, 0xDA, 0x12, 0x81, 0xAF, 0xD9, 0x22,
        0xDB, 0x20, 0x2E, 0xAF]
    }

    /** The init stream sets the controller up without touching display memory. */
    method SendInitSequence() returns (ok: bool)
      requires Valid()
      modifies link
      ensures Valid() && link.panel.rows == old(link.panel).rows
      ensures link.Carried(old(link.sent), link.sent, 1, ok)
    {
      hide Covered;
      ok := link.SendCommands(InitSequence());
    }

    /** What the panel shows is decided by its memory. */
    twostate lemma MemoryDecides(from: nat)
      requires old(Valid()) && Valid() && link.panel.rows == old(link.panel).rows
      requires unchanged(framebuffer, dirtyStart, dirtyEnd)
      ensures (PanelCurrent() <==> old(PanelCurrent())) && (Synced() <==> old(Synced()))
      ensures (RightBeyond(from) <==> old(RightBeyond(from))) && (SyncedBeyond(from) <==> old(SyncedBeyond(from)))
    {
      hide RepaintReaches;
      assert forall p, c :: 0 <= p < PAGES && 0 <= c < WIDTH ==>
               Visible(link.controller, link.panel, p, c) == Visible(link.controller, old(link.panel), p, c);
    }

    /** A panel that is right is right beyond any repaint; without windows there is nothing else to be right about. */
    lemma BeyondIsLess(from: nat)
      requires Valid()
      ensures PanelCurrent() ==> RightBeyond(from) && Synced()
      ensures Synced() ==> SyncedBeyond(from)
      ensures RightBeyond(from) ==> SyncedBeyond(from)
      ensures !pending ==> (SyncedBeyond(from) <==> RightBeyond(from))
    {
      hide RepaintReaches;
    }

    /** Transactions of an initialisation with its repaint. */
    function InitTransfers(): nat {
      1 + PAGES * link.WindowTransfers(WIDTH)
    }

    /** The actor is ready and the panel shows the framebuffer. */
    ghost predicate Restored()
      requires Shape() && Shaped(link.panel)
      reads this`state, framebuffer, link
    {
      state == Ready && PanelCurrent()
    }

    /** The bus part of an initialisation: the init stream, and a repaint if it was accepted. */
    method StartPanel() returns (ok: bool, ghost painted: bool)
      requires Valid()
      modifies this`state, this`retryDue, this`stats, link
      ensures Valid() && SameInitStats(old(stats), stats)
      ensures ok <==> old(link.fate(link.sent)).Accepted?
      ensures !ok ==>
                && !painted && link.panel.rows == old(link.panel).rows
                && stats == old(stats) && (Synced() <==> old(Synced())) && (PanelCurrent() <==> old(PanelCurrent()))
      ensures ok ==>
                && stats.flushFailures == old(stats).flushFailures + (if painted then 0 else 1)
                && (PanelCurrent() <==> old(RightBeyond(link.sent + 1)))
                && (Synced() <==> old(SyncedBeyond(link.sent + 1)))
      ensures painted ==> PanelCurrent() && Synced() && link.sent == old(link.sent) + InitTransfers()
      ensures old(link.sent) <= link.sent
      ensures painted <==> link.AllAccepted(old(link.sent), old(link.sent) + InitTransfers())
    {
      hide Synced, Covered, WindowsValid, PanelCurrent, RightBeyond, SyncedBeyond, Repainted;
      ghost var from := link.sent;
      ok := SendInitSequence();
      MemoryDecides(from + 1);
      painted := false;
      if ok {
        painted := SyncFull();
      }
    }

    /**
     Initialise and repaint.  The state becomes ready even when the repaint failed.  When it
     is ready, the panel is right exactly if the cells neither the repaint nor the flush of
     an accepted announcement brought were right already.
     */
    method TryInitialize(announce: Result) returns (rc: Result, ghost painted: bool)
      requires Valid()
      modifies this`dirtyPages, this`pending, this`state, this`retryDue, this`stats
      modifies link, framebuffer, dirtyStart, dirtyEnd
      ensures Valid()
      ensures Synced() <==> old(if link.fate(link.sent).Accepted? then SyncedBeyond(link.sent + 1) else Synced())
      ensures state == Ready ==>
                (PanelCurrent() <==> old(if announce == Ok then SyncedBeyond(link.sent + 1)
                                         else RightBeyond(link.sent + 1)))
      ensures rc == Ok || (rc == announce && state == Ready)
      ensures !old(link.fate(link.sent)).Accepted? ==>
                && state == Error && !painted && retryDue == (tick + RETRY_DELAY) % WORD && pending == old(pending)
                && stats.flushFailures == old(stats).flushFailures && stats.initSuccesses == old(stats).initSuccesses
                && link.panel.rows == old(link.panel).rows
      ensures old(link.fate(link.sent)).Accepted? ==>
                && stats.initSuccesses == old(stats).initSuccesses + 1
                && stats.flushFailures == old(stats).flushFailures + (if painted then 0 else 1)
                                          + (if announce == Ok && pending then 1 else 0)
                && (if announce != Ok then rc == announce && state == Ready && pending == old(pending)
                    else state == if pending then Error else Ready)
      ensures stats.initAttempts == old(stats).initAttempts + 1
      ensures painted <==> link.AllAccepted(old(link.sent), old(link.sent) + InitTransfers())
      ensures !old(pending) ==>
                && !pending && (painted ==> link.sent == old(link.sent) + InitTransfers())
                && forall p, c :: 0 <= p < PAGES && 0 <= c < WIDTH ==> framebuffer[p, c] == old(framebuffer[p, c])
      ensures painted || old(Synced()) ==> Synced()
      ensures (painted || old(PanelCurrent())) && stats.flushFailures == old(stats).flushFailures ==> PanelCurrent()
      ensures old(link.sent) <= link.sent && (link.Accepting(old(link.sent)) ==> Restored())
    {
      hide Synced, Covered, WindowsValid, PanelCurrent, RightBeyond, SyncedBeyond, Written, ShowsStaging, TransfersTo;
      hide Link.Carried;
      stats := stats.(initAttempts := stats.initAttempts + 1);
      BeyondIsLess(link.sent + 1);
      var ok;
      ok, painted := StartPanel();
      if !ok {
        stats := stats.(initFailures := stats.initFailures + 1);
        ScheduleRetry();
        return Ok, false;
      }
      state := Ready;
      stats := stats.(initSuccesses := stats.initSuccesses + 1);
      if announce != Ok {
        return announce, painted;
      }
      rc := FlushPending();
    }

    // ----- event handlers -----

    /** The panel is right outside the windows, once that of a page is widened to the row's end from a column on. */
    ghost predicate SyncedBefore(page: nat, column: nat)
      requires Shape() && Shaped(link.panel) && page < PAGES
      reads dirtyStart, dirtyEnd, framebuffer, link
    {
      forall p, c :: 0 <= p < PAGES && 0 <= c < WIDTH && !InWindow(p, c)
                     && !(p == page && Min(column, dirtyStart[page]) <= c) ==>
                       Visible(link.controller, link.panel, p, c) == framebuffer[p, c]
    }

    /** Stage one line of text; outside a scene the rest of the frame stays as it was. */
    method HandleDisplayText(payload: Option<TextCmd>) returns (rc: Result)
      requires Valid() && (payload.Some? ==> |payload.value.text| == TEXT_MAX)
      modifies this`dirtyPages, this`pending, dirtyStart, dirtyEnd, staging
      ensures Valid()
      ensures rc == if payload.Some? && payload.value.page < PAGES && payload.value.column < WIDTH then Ok
              else ErrContract
      ensures forall p, c :: 0 <= p < PAGES && 0 <= c < WIDTH ==>
                               staging[p, c] == if rc == Ok && p == payload.value.page && payload.value.column <= c
                                                then Pixel(font, payload.value, c) else old(staging[p, c])
      ensures rc == Ok ==>
                && pending && dirtyEnd[payload.value.page] == WIDTH
                && dirtyStart[payload.value.page] == Min(payload.value.column, old(dirtyStart[payload.value.page]))
      ensures forall p :: 0 <= p < PAGES && !(rc == Ok && p == payload.value.page) ==>
                            dirtyStart[p] == old(dirtyStart[p]) && dirtyEnd[p] == old(dirtyEnd[p])
      ensures Synced() <==> if rc == Ok then old(SyncedBefore(payload.value.page, payload.value.column))
              else old(Synced())
      ensures (old(Synced()) ==> Synced()) && (PanelCurrent() <==> old(PanelCurrent()))
    {
      if payload.None? {
        return ErrContract;
      }
      if !pending {
        CopyFrame(framebuffer, staging);
      }
      rc := RenderText(payload.value);
      if rc != Ok {
        return ErrContract;
      }
      MarkDirty(payload.value.page, payload.value.column, WIDTH);
    }

    /** Commit a frame: stage the scene if there is one, then flush if the panel is ready. */
    method HandleCommitFrame(payload: CommitPayload) returns (rc: Result)
      requires Valid() && (payload.SceneFrame? ==> SceneValid(payload.scene))
      modifies this`dirtyPages, this`pending, this`state, this`retryDue, this`stats
      modifies link, framebuffer, staging, dirtyStart, dirtyEnd
      ensures Valid()
      ensures rc == if payload.BadSize? || (payload.SceneFrame? && payload.scene.columnOffset >= WIDTH) then ErrContract
              else Ok
      ensures old(PanelCurrent()) ==> Synced() && (stats.flushFailures == old(stats).flushFailures ==> PanelCurrent())
      ensures rc == Ok && payload.SceneFrame? ==> (Synced() <==> old(Mends(payload.scene)))
      ensures rc == Ok && payload.SceneFrame? && pending ==> WindowsSpan(payload.scene)
      ensures pending ==>
                forall p, c :: 0 <= p < PAGES && 0 <= c < WIDTH ==> framebuffer[p, c] == old(framebuffer[p, c])
      ensures !(rc == Ok && payload.SceneFrame?) ==> (Synced() <==> old(Synced()))
      ensures rc == Ok && payload.SceneFrame? ==>
                forall p, c :: 0 <= p < PAGES && 0 <= c < WIDTH ==>
                    staging[p, c] == ScenePixel(font, payload.scene, p, c)
      ensures old(state) == Ready && rc == Ok ==> !pending || stats.flushFailures > old(stats).flushFailures
      ensures old(link.sent) <= link.sent && (old(state) != Ready ==> state == old(state) && retryDue == old(retryDue))
      ensures link.Accepting(old(link.sent)) && old(Restored()) ==> Restored()
    {
      hide Covered, PanelCurrent, Synced, ScenePixel, WindowsSpan, Mends, Written, TransfersTo;
      CurrentIsSynced();
      if payload.BadSize? {
        return ErrContract;
      }
      if payload.SceneFrame? {
        rc := PrepareSceneCommit(payload.scene);
        if rc != Ok {
          CurrentIsSynced();
          return ErrContract;
        }
      }
      CurrentIsSynced();
      if !pending || state != Ready {
        return Ok;
      }
      label Staged:
      rc := FlushPending();
      if payload.SceneFrame? && pending {
        WindowsStay@Staged(payload.scene);
      }
    }

    /** Windows go on spanning a scene as long as neither they nor the frame change. */
    twostate lemma WindowsStay(scene: Scene)
      requires Shape() && SceneValid(scene) && old(WindowsSpan(scene))
      requires forall p, c :: 0 <= p < PAGES && 0 <= c < WIDTH ==> framebuffer[p, c] == old(framebuffer[p, c])
      requires dirtyStart[..] == old(dirtyStart[..]) && dirtyEnd[..] == old(dirtyEnd[..])
      ensures WindowsSpan(scene)
    {
      hide ScenePixel;
      assert forall p :: 0 <= p < PAGES ==> dirtyStart[..][p] == dirtyStart[p] && dirtyEnd[..][p] == dirtyEnd[p];
      assert forall p, c :: 0 <= p < PAGES && 0 <= c < WIDTH ==> (InWindow(p, c) <==> old(InWindow(p, c)));
      assert forall p, c :: 0 <= p < PAGES && 0 <= c < WIDTH ==> (Changes(scene, p, c) <==> old(Changes(scene, p, c)));
      assert forall p, c :: 0 <= p < PAGES && 0 <= c < WIDTH ==> (Spans(scene, p, c) <==> old(Spans(scene, p, c)));
    }

    lemma CurrentIsSynced()
      requires Valid()
      ensures PanelCurrent() ==> Synced()
    {
    }

    /** The next tick initialises: the panel is not ready and after an error the wrapped retry time has come. */
    predicate Starts()
      reads this
    {
      bootObserved && state != Ready && (state == Error ==> ((tick + 1) % WORD - retryDue) % WORD < WORD / 2)
    }

    /** Each second: flush when ready; otherwise initialise, in the error state only once the retry is due. */
    method HandleTick(announce: Result) returns (rc: Result, ghost painted: bool)
      requires Valid()
      modifies this`dirtyPages, this`pending, this`state, this`retryDue, this`stats, this`tick
      modifies link, framebuffer, dirtyStart, dirtyEnd
      ensures Valid() && tick == (old(tick) + 1) % WORD
      ensures painted || old(Synced()) ==> Synced()
      ensures (painted || old(PanelCurrent())) && stats.flushFailures == old(stats).flushFailures ==> PanelCurrent()
      ensures stats.initAttempts == old(stats).initAttempts + if old(Starts()) then 1 else 0
      ensures Synced() <==> old(if Starts() && link.fate(link.sent).Accepted? then SyncedBeyond(link.sent + 1)
                                else Synced())
      ensures old(Starts()) && state == Ready ==>
                (PanelCurrent() <==> old(if announce == Ok then SyncedBeyond(link.sent + 1)
                                         else RightBeyond(link.sent + 1)))
      ensures !old(Starts()) && !(bootObserved && old(state) == Ready) ==>
                && state == old(state) && retryDue == old(retryDue) && stats == old(stats) && pending == old(pending)
                && link.panel == old(link.panel) && link.sent == old(link.sent)
      ensures old(link.sent) <= link.sent
      ensures link.Accepting(old(link.sent)) && (old(Starts()) || (bootObserved && old(Restored()))) ==> Restored()
      ensures bootObserved && old(state) == Ready ==> !pending || stats.flushFailures > old(stats).flushFailures
    {
      hide Synced, Covered, WindowsValid, PanelCurrent, SyncedBeyond, RightBeyond, Written, ShowsStaging, TransfersTo;
      hide Link.Accepting, Link.Carried;
      rc, painted := Ok, false;
      tick := (tick + 1) % WORD;
      if !bootObserved {
        return;
      }
      if state == Ready {
        rc := FlushPending();
        return;
      }
      if state == Error && (tick - retryDue) % WORD >= WORD / 2 {
        return;
      }
      rc, painted := TryInitialize(announce);
    }

    method HandleBoot(announce: Result) returns (rc: Result, ghost painted: bool)
      requires Valid()
      modifies this`dirtyPages, this`pending, this`state, this`retryDue, this`stats, this`bootObserved
      modifies link, framebuffer, dirtyStart, dirtyEnd
      ensures Valid() && bootObserved
      ensures painted || old(Synced()) ==> Synced()
      ensures (painted || old(PanelCurrent())) && stats.flushFailures == old(stats).flushFailures ==> PanelCurrent()
      ensures painted <==> link.AllAccepted(old(link.sent), old(link.sent) + InitTransfers())
      ensures state == if !old(link.fate(link.sent)).Accepted? || (announce == Ok && pending) then Error else Ready
      ensures state == Ready ==>
                (PanelCurrent() <==> old(if announce == Ok then SyncedBeyond(link.sent + 1)
                                         else RightBeyond(link.sent + 1)))
      ensures !old(pending) ==>
                && !pending && (painted ==> link.sent == old(link.sent) + InitTransfers())
                && forall p, c :: 0 <= p < PAGES && 0 <= c < WIDTH ==> framebuffer[p, c] == old(framebuffer[p, c])
      ensures tick == old(tick) && old(link.sent) <= link.sent
      ensures link.Accepting(old(link.sent)) ==> Restored()
    {
      hide Synced, Covered, WindowsValid, PanelCurrent, SyncedBeyond, RightBeyond, Link.Accepting;
      bootObserved := true;
      rc, painted := TryInitialize(announce);
    }

    /**
     One event.  Dirty windows keep covering every difference between the frames, and a
     panel showing the framebuffer goes on showing it as long as no flush fails.
     */
    method Handle(event: Event, announce: Result) returns (rc: Result, ghost painted: bool)
      requires Valid() && EventValid(event)
      modifies this`dirtyPages, this`pending, this`state, this`retryDue, this`stats, this`tick, this`bootObserved
      modifies link, framebuffer, staging, dirtyStart, dirtyEnd
      ensures Valid()
      ensures old(PanelCurrent()) || painted ==> Synced()
      ensures (old(PanelCurrent()) || painted) && stats.flushFailures == old(stats).flushFailures ==> PanelCurrent()
      ensures (if ScenePosted(event) then old(Mends(event.frame.scene)) else old(Synced())) ==> Synced()
      ensures event.Commit? ==>
                (Synced() <==> if ScenePosted(event) then old(Mends(event.frame.scene)) else old(Synced()))
      ensures tick == if event.Tick? then (old(tick) + 1) % WORD else old(tick)
      ensures bootObserved == (old(bootObserved) || event.Boot?) && old(link.sent) <= link.sent
      ensures !(event.Boot? || (event.Tick? && old(Starts()))) && old(state) != Ready ==>
                state == old(state) && retryDue == old(retryDue)
      ensures link.Accepting(old(link.sent)) ==>
                (event.Boot? || (event.Tick? && old(Starts())) || old(bootObserved && Restored()) ==> Restored())
    {
      hide Synced, Covered, WindowsValid, PanelCurrent, Mends, WindowsSpan, SyncedBeyond, RightBeyond, Link.Accepting;
      CurrentIsSynced();
      painted := false;
      match event
      case Boot => rc, painted := HandleBoot(announce);
      case Tick => rc, painted := HandleTick(announce);
      case Text(command) => rc := HandleDisplayText(command);
      case Commit(frame) => rc := HandleCommitFrame(frame);
      case Other => rc := ErrContract;
    }
  }

  datatype CommitPayload = NoPayload | BadSize | SceneFrame(scene: Scene)

  datatype Event = Boot | Tick | Text(command: Option<TextCmd>) | Commit(frame: CommitPayload) | Other

  predicate EventValid(e: Event) {
    match e
    case Text(command) => command.Some? ==> |command.value.text| == TEXT_MAX
    case Commit(frame) => frame.SceneFrame? ==> SceneValid(frame.scene)
    case _ => true
  }

  /** The event commits a scene that is not refused. */
  predicate ScenePosted(e: Event) {
    e.Commit? && e.frame.SceneFrame? && e.frame.scene.columnOffset < WIDTH
  }

  predicate SameInitStats(a: Stats, b: Stats) {
    a.initAttempts == b.initAttempts && a.initSuccesses == b.initSuccesses && a.initFailures == b.initFailures
  }

  predicate SceneValid(s: Scene) {
    |s.lines| == SCENE_LINES && forall i :: 0 <= i < |s.lines| ==> |s.lines[i]| == TEXT_MAX
  }

  /** The scene line drawn on page `p`, if it is one of the three; page numbers wrap at a byte. */
  function LineOf(s: Scene, p: nat): nat {
    (p + 256 - s.pageOffset) % 256
  }

  /** What a committed scene shows in a cell. */
  function ScenePixel(font: Font, s: Scene, p: nat, c: nat): Byte
    requires SceneValid(s)
  {
    if s.visible && LineOf(s, p) < SCENE_LINES && s.columnOffset <= c
    then Pixel(font, TextCmd(p, s.columnOffset, s.lines[LineOf(s, p)]), c)
    else 0
  }

  // ----- a scene over a failed flush -----

  /** A bus that accepts everything but one transaction. */
  function AllBut(n: nat): nat -> Fate {
    i => if i == n then Failed(0) else Accepted
  }

  lemma TwoWindows(actor: OledActor)
    requires FirstPagesDirty(actor)
    ensures actor.TransfersTo(0) == 0 && actor.TransfersTo(1) == 4
    ensures forall f :: 2 <= f <= PAGES ==> actor.TransfersTo(f) >= 8
  {
    assert forall p :: 0 <= p < PAGES ==> actor.TransfersTo(p + 1) == actor.TransfersTo(p) + actor.PageTransfers(p);
    assert actor.TransfersTo(0) == 0 && actor.PageTransfers(0) == 4 && actor.PageTransfers(1) == 4;
  }

  /** The whole of pages 0 and 1 is waiting for a window-addressed panel. */
  ghost predicate FirstPagesDirty(actor: OledActor)
    reads actor.dirtyStart, actor.dirtyEnd
  {
    && actor.Shape() && actor.link.controller == Ssd1306
    && actor.dirtyStart[0] == 0 && actor.dirtyEnd[0] == WIDTH && actor.dirtyStart[1] == 0 && actor.dirtyEnd[1] == WIDTH
  }

  /** A flush refused at its fifth transaction wrote page 0. */
  lemma FirstPageWritten(actor: OledActor, d: Panel, from: nat)
    requires FirstPagesDirty(actor) && Shaped(d) && Shaped(actor.link.panel) && actor.link.fate == AllBut(from + 4)
    requires actor.Written(d, actor.link.panel, from, PAGES)
    ensures Visible(Ssd1306, actor.link.panel, 0, 0) == actor.staging[0, 0]
  {
    TwoWindows(actor);
    assert actor.FlushReaches(from, 0, 0);
  }

  /** An invisible scene changes nothing in a blank frame. */
  lemma BlankScene(actor: OledActor, scene: Scene)
    requires actor.Shape() && SceneValid(scene) && !scene.visible
    requires forall p, c :: 0 <= p < PAGES && 0 <= c < WIDTH ==> actor.framebuffer[p, c] == 0
    ensures forall p, c :: 0 <= p < PAGES && 0 <= c < WIDTH ==> !actor.Spans(scene, p, c)
  {
  }

  lemma NotMended(actor: OledActor, scene: Scene)
    requires actor.Shape() && SceneValid(scene) && Shaped(actor.link.panel) && !actor.Spans(scene, 0, 0)
    requires Visible(actor.link.controller, actor.link.panel, 0, 0) != actor.framebuffer[0, 0]
    ensures !actor.Mends(scene)
  {
  }

  /** If windows are pending, the scene they span changes something. */
  lemma SomethingSpanned(actor: OledActor, scene: Scene)
    requires actor.WindowsValid() && SceneValid(scene) && actor.pending && actor.WindowsSpan(scene)
    ensures exists p, c :: 0 <= p < PAGES && 0 <= c < WIDTH && actor.Spans(scene, p, c)
  {
    hide OledActor.Spans;
    var p :| p in actor.dirtyPages;
    assert actor.InWindow(p, actor.dirtyStart[p]);
  }

  /** Stage a line of As on each of the first two pages of a window-addressed panel. */
  method StageTwoLines(actor: OledActor)
    requires actor.Valid() && actor.link.controller == Ssd1306
    modifies actor`dirtyPages, actor`pending, actor.dirtyStart, actor.dirtyEnd, actor.staging
    ensures actor.Valid() && actor.pending && FirstPagesDirty(actor)
    ensures actor.staging[0, 0] == actor.font[33][0]
  {
    hide Pixel, OledActor.Covered, OledActor.PanelCurrent, OledActor.Synced;
    var text: seq<Byte> := seq(TEXT_MAX, _ => 65);
    var rc := actor.HandleDisplayText(Some(TextCmd(0, 0, text)));
    FirstPixel(actor.font, TextCmd(0, 0, text));
    rc := actor.HandleDisplayText(Some(TextCmd(1, 0, text)));
  }

  lemma FirstPixel(font: Font, cmd: TextCmd)
    requires |cmd.text| == TEXT_MAX && cmd.column == 0 && cmd.text[0] == 65
    ensures Pixel(font, cmd, 0) == font[33][0]
  {
  }

  /** A flush of the staged lines that the bus refuses at its fifth transaction. */
  method FlushRefused(actor: OledActor)
    requires actor.Valid() && actor.pending && FirstPagesDirty(actor) && actor.link.fate == AllBut(actor.link.sent + 4)
    modifies actor`dirtyPages, actor`pending, actor`state, actor`retryDue, actor`stats
    modifies actor.link, actor.framebuffer, actor.dirtyStart, actor.dirtyEnd
    ensures actor.Valid() && actor.pending && actor.state == Error
    ensures Visible(Ssd1306, actor.link.panel, 0, 0) == actor.staging[0, 0]
    ensures forall p, c :: 0 <= p < PAGES && 0 <= c < WIDTH ==> actor.framebuffer[p, c] == old(actor.framebuffer[p, c])
  {
    hide OledActor.Covered, OledActor.PanelCurrent, OledActor.Synced, OledActor.Written, OledActor.ShowsStaging;
    ghost var d, from := actor.link.panel, actor.link.sent;
    TwoWindows(actor);
    var rc := actor.FlushPending();
    assert !actor.link.fate(from + 4).Accepted?;
    assert actor.pending;
    WindowsStayDirty(actor);
    FirstPageWritten(actor, d, from);
  }

  twostate lemma WindowsStayDirty(actor: OledActor)
    requires old(FirstPagesDirty(actor))
    requires actor.dirtyStart[..] == old(actor.dirtyStart[..]) && actor.dirtyEnd[..] == old(actor.dirtyEnd[..])
    ensures FirstPagesDirty(actor)
  {
    assert forall p :: 0 <= p < 2 ==>
             actor.dirtyStart[..][p] == actor.dirtyStart[p] && actor.dirtyEnd[..][p] == actor.dirtyEnd[p];
  }

  /**
     A blank scene after a flush that failed between two pages: nothing is pending any more,
     yet the panel does not show the current frame.  The panel is booted, a line of text is
     staged on each of pages 0 and 1, and the bus refuses the first transaction of page 1.
     */
  method BlankSceneHidesFailedFlush() returns (actor: OledActor)
    ensures fresh(actor) && actor.Valid() && actor.bootObserved
    ensures !actor.pending && !actor.Synced()
  {
    hide OledActor.Covered, OledActor.PanelCurrent, OledActor.WindowsValid, OledActor.Synced;
    hide OledActor.Mends, OledActor.WindowsSpan, OledActor.Spans, OledActor.ShowsStaging, ScenePixel;
    actor := BootAllBut(25);
    StageTwoLines(actor);
    FlushRefused(actor);
    var text: seq<Byte> := seq(TEXT_MAX, _ => 65);
    var scene := Scene(0, 0, false, [text, text, text]);
    BlankScene(actor, scene);
    NotMended(actor, scene);
    var rc := actor.HandleCommitFrame(SceneFrame(scene));
    if actor.pending {
      BlankScene(actor, scene);
      SomethingSpanned(actor, scene);
    }
  }

  // ----- recovery -----

  function Ticks(es: seq<(Event, Result)>): nat
    decreases |es|
  {
    if es == [] then 0 else Ticks(es[..|es| - 1]) + if es[|es| - 1].0.Tick? then 1 else 0
  }

  /** Ticks until the retry is due. */
  function Wait(actor: OledActor): nat
    reads actor
  {
    (actor.retryDue - actor.tick) % WORD
  }

  lemma WaitShrinks(due: Word32, tick: Word32)
    requires 0 < (due - tick) % WORD <= RETRY_DELAY
    ensures (due - (tick + 1) % WORD) % WORD == (due - tick) % WORD - 1
    ensures ((tick + 1) % WORD - due) % WORD < WORD / 2 <==> (due - tick) % WORD == 1
  {
    var d := (due - tick) % WORD;
    assert due == tick + d || due == tick + d - WORD;
    assert (tick + 1) % WORD == if tick + 1 == WORD then 0 else tick + 1;
  }

  /**
   Once the bus accepts again, a failure is repaired: whatever texts, scenes and boots come
   in between, after `RETRY_DELAY` ticks the actor is ready and the panel current.
   */
  method Recovers(actor: OledActor, es: seq<(Event, Result)>)
    requires actor.Valid() && actor.bootObserved && actor.state == Error
    requires actor.retryDue == (actor.tick + RETRY_DELAY) % WORD
    requires actor.link.Accepting(actor.link.sent)
    requires (forall i :: 0 <= i < |es| ==> EventValid(es[i].0)) && Ticks(es) >= RETRY_DELAY
    modifies actor, actor.link, actor.framebuffer, actor.staging, actor.dirtyStart, actor.dirtyEnd
    ensures actor.Valid() && actor.Restored()
  {
    hide OledActor.PanelCurrent, OledActor.Synced, OledActor.Covered, OledActor.Mends, OledActor.Starts;
    hide Link.Accepting, EventValid, Wait;
    ghost var from := actor.link.sent;
    var i := 0;
    assert es[..0] == [] && Wait(actor) == RETRY_DELAY by {
      WaitStarts(actor);
    }
    while i < |es|
      invariant i <= |es| && actor.Valid() && actor.bootObserved && from <= actor.link.sent
      invariant if actor.state == Error then 0 < Wait(actor) && Wait(actor) + Ticks(es[..i]) == RETRY_DELAY
                else actor.Restored()
    {
      assert es[..i + 1][..i] == es[..i];
      AcceptingStays(actor.link, from, actor.link.sent);
      StartsAtOne(actor);
      label Before:
      var rc, painted := actor.Handle(es[i].0, es[i].1);
      Waits@Before(actor);
      i := i + 1;
    }
    assert es[..|es|] == es;
  }

  lemma WaitStarts(actor: OledActor)
    requires actor.retryDue == (actor.tick + RETRY_DELAY) % WORD
    ensures Wait(actor) == RETRY_DELAY
  {
  }

  /** The retry starts with the tick that is the last to wait for. */
  lemma StartsAtOne(actor: OledActor)
    ensures actor.bootObserved && actor.state == Error && 0 < Wait(actor) <= RETRY_DELAY ==>
              (actor.Starts() <==> Wait(actor) == 1)
  {
    if 0 < Wait(actor) <= RETRY_DELAY {
      WaitShrinks(actor.retryDue, actor.tick);
    }
  }

  /** A tick takes one off the wait, anything else that keeps tick and due time nothing. */
  twostate lemma Waits(actor: OledActor)
    ensures actor.retryDue == old(actor.retryDue) && 0 < old(Wait(actor)) <= RETRY_DELAY ==>
              && (actor.tick == old(actor.tick) ==> Wait(actor) == old(Wait(actor)))
              && (actor.tick == (old(actor.tick) + 1) % WORD ==> Wait(actor) == old(Wait(actor)) - 1)
  {
    if 0 < old(Wait(actor)) <= RETRY_DELAY {
      WaitShrinks(old(actor.retryDue), old(actor.tick));
    }
  }

  lemma AcceptingStays(link: Link, from: nat, to: nat)
    requires link.Accepting(from) && from <= to
    ensures link.Accepting(to)
  {
  }

  /**
   A boot whose repaint is refused at its first transaction leaves the actor ready, with
   nothing pending and a panel that does not show the framebuffer.
   */
  method ReadyButWrong() returns (actor: OledActor)
    ensures fresh(actor) && actor.Valid() && actor.bootObserved
    ensures actor.state == Ready && !actor.pending && !actor.PanelCurrent()
  {
    hide OledActor.Covered, OledActor.PanelCurrent, OledActor.Synced, OledActor.RightBeyond, OledActor.SyncedBeyond;
    var font: Font := seq(95, _ => [0, 0, 0, 0, 0]);
    var rows: seq<seq<Byte>> := seq(RAM_PAGES, _ => seq(RAM_COLUMNS, _ => 1));
    var link := new Link(Ssd1306, AllBut(1), Panel(rows, 0, 0, 0, 0, 0, 0));
    actor := new OledActor(link, font);
    NotRightBeyond(actor);
    actor.BeyondIsLess(1);
    var rc, painted := actor.HandleBoot(Ok);
  }

  /** A repaint refused at its first transaction misses the first cell. */
  lemma NotRightBeyond(actor: OledActor)
    requires actor.Shape() && Shaped(actor.link.panel) && !actor.link.fate(1).Accepted?
    requires actor.link.controller == Ssd1306
    requires Visible(Ssd1306, actor.link.panel, 0, 0) != actor.framebuffer[0, 0]
    ensures !actor.RightBeyond(1)
  {
    assert !actor.RepaintReaches(1, 0, 0);
  }

  /** Boot a window-addressed panel with solid glyphs on a bus that refuses one transaction after the boot. */
  method BootAllBut(n: nat) returns (actor: OledActor)
    requires n > 20
    ensures fresh(actor) && fresh(actor.link) && fresh(actor.framebuffer) && fresh(actor.staging)
    ensures fresh(actor.dirtyStart) && fresh(actor.dirtyEnd)
    ensures actor.Valid() && !actor.pending && actor.state == Ready && actor.bootObserved
    ensures actor.link.controller == Ssd1306 && actor.link.fate == AllBut(n) && actor.link.sent == 21
    ensures actor.font[33][0] == 1
    ensures forall p, c :: 0 <= p < PAGES && 0 <= c < WIDTH ==> actor.framebuffer[p, c] == 0
  {
    hide OledActor.Covered, OledActor.PanelCurrent, OledActor.Synced;
    var glyph: seq<Byte> := [1, 1, 1, 1, 1];
    var font: Font := seq(95, _ => glyph);
    var rows: seq<seq<Byte>> := seq(RAM_PAGES, _ => seq(RAM_COLUMNS, _ => 0));
    var link := new Link(Ssd1306, AllBut(n), Panel(rows, 0, 0, 0, 0, 0, 0));
    actor := new OledActor(link, font);
    var rc, painted := actor.HandleBoot(Ok);
  }
}
