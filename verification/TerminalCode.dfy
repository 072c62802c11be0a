/** The terminal as the code keeps it (tools/hypvt.py, class Screen): fields that every call changes in
    place. Each method does to them what Screen, Feeding and Transcript say. */
module TerminalCode {
  import opened Screen
  import opened Feeding
  import opened Transcript

  class Vt {
    var size: Size
    var b: Buffers
    var c: Cursor
    var r: Region
    var m: Modes
    var saved: Option<Saved>
    var last: Option<Char>
    var p: Parser
    var pending: seq<Byte>

    ghost function View(): Core
      reads this
    {
      Core(size, b, c, r, m, saved, last, p)
    }

    ghost function Whole(): Terminal
      reads this
    {
      Terminal(View(), pending)
    }

    ghost predicate Valid()
      reads this
    {
      Ok(View())
    }

    constructor (rows: int, cols: int, limit: nat)
      ensures Valid() && Whole() == Terminal(Fresh(rows, cols, limit), [])
    {
      var s := Fresh(rows, cols, limit);
      size, b, c, r, m, saved, last, p := s.size, s.b, s.c, s.r, s.m, s.saved, s.last, s.p;
      pending := [];
    }

    /** What a byte has led to, when the method that took it says whether it raised. */
    ghost function Step(raised: bool): Screen.Step
      reads this
    {
      if raised then Raised(View()) else Taken(View())
    }

    ghost function Fed(raised: bool): Feeding.Fed
      reads this
    {
      if raised then Failed(Whole()) else Done(Whole())
    }

    // ---- scrolling and characters --------------------------------------------------------------------

    /** _scroll_up */
    method DoScrollUp(n: nat)
      requires Valid()
      modifies `b
      ensures Valid() && b == ScrollUp(old(b), size, r, n)
    {
      hide RowText, MoveRow;
      for k := 0 to n
        invariant BuffersOk(b, size) && b == ScrollUp(old(b), size, r, k)
      {
        var row := b.grid[r.top];
        var grid := MoveRow(b.grid, size, r.top, r.bot);
        if b.alt.None? && r.top == 0 {
          var back := b.back + [RowText(row)];
          if |back| > size.limit { back := back[|back| - size.limit..]; }
          b := b.(back := back, out := b.out + 1);
        }
        b := b.(grid := grid);
      }
    }

    /** _newline */
    method DoNewline()
      requires Valid()
      modifies `b, `c
      ensures Valid() && View() == Newline(old(View()))
    {
      hide ScrollUp, GridOk;
      c := c.(wrap := false);
      if c.y == r.bot {
        DoScrollUp(1);
      } else if c.y + 1 < size.rows {
        c := c.(y := c.y + 1);
      }
    }

    /** _put */
    method DoPut(ch: Char)
      requires Valid()
      modifies `b, `c, `last
      ensures Valid() && View() == Put(old(View()), ch)
    {
      hide Newline, SetRow, InsertCell;
      if c.wrap && m.autowrap {
        c := c.(x := 0);
        DoNewline();
      }
      last := Some(ch);
      var row := b.grid[c.y];
      if m.insert { row := InsertCell(row, c.x); }
      b := b.(grid := SetRow(b.grid, size, c.y, row[c.x := ch]));
      if c.x + 1 >= size.cols {
        c := c.(wrap := true);
      } else {
        c := c.(x := c.x + 1);
      }
    }

    /** REP */
    method DoRepeat(ch: Char, n: nat)
      requires Valid()
      modifies `b, `c, `last
      ensures Valid() && View() == PutMany(old(View()), ch, n)
    {
      hide Put, Ok;
      for k := 0 to n
        invariant Valid() && View() == PutMany(old(View()), ch, k)
      {
        DoPut(ch);
      }
    }

    /** _erase_line */
    method DoEraseLine(mode: nat)
      requires Valid()
      modifies `b, `c
      ensures Valid() && View() == EraseLine(old(View()), mode)
    {
      hide ClearCells, GridOk;
      var lo, hi := 0, size.cols;
      if mode == 0 { lo := c.x; }
      if mode == 1 { hi := Min(c.x + 1, size.cols); }
      RowWide(b.grid, size, c.y);
      var row := BlankCells(b.grid[c.y], lo, hi);
      b := b.(grid := SetRow(b.grid, size, c.y, row));
      c := c.(wrap := false);
    }

    /** _erase_display. What is on the whole screen goes to the scrollback first. */
    method DoEraseDisplay(mode: nat)
      requires Valid()
      modifies `b, `c
      ensures Valid() && View() == EraseDisplay(old(View()), mode)
    {
      hide GridOk, RowText, ClearRows, ClearCells, SetRow, PreserveAll;
      if mode == 0 {
        DoEraseLine(0);
        var grid := BlankRows(b.grid, size, c.y + 1, size.rows);
        b := b.(grid := grid);
      } else if mode == 1 {
        DoEraseLine(1);
        var grid := BlankRows(b.grid, size, 0, c.y);
        b := b.(grid := grid);
      } else {
        if b.alt.None? { DoPreserve(); }
        var grid := BlankRows(b.grid, size, 0, size.rows);
        b := b.(grid := grid);
      }
      c := c.(wrap := false);
    }

    /** The lines with text are put in the scrollback. */
    method DoPreserve()
      requires Valid() && b.alt.None?
      modifies `b
      ensures Valid() && b == PreserveAll(old(b), size.limit) && b.grid == old(b.grid) && b.alt == old(b.alt)
    {
      hide GridOk, RowText;
      var back, out := b.back, b.out;
      for y := 0 to |b.grid|
        invariant Preserve(b.back, b.grid) == Preserve(back, b.grid[y..])
        invariant out == b.out + (|back| - |b.back|) && |back| >= |b.back|
      {
        assert b.grid[y..][0] == b.grid[y] && b.grid[y..][1..] == b.grid[y + 1..];
        var text := RowText(b.grid[y]);
        if text != [] {
          back := back + [text];
          out := out + 1;
        }
      }
      if |back| > size.limit { back := back[|back| - size.limit..]; }
      b := b.(back := back, out := out);
    }

    /** _alt_screen */
    method DoAltScreen(on: bool)
      requires Valid()
      modifies `b, `c, `r, `m, `saved
      ensures Valid() && View() == AltScreen(old(View()), on)
    {
      hide GridOk;
      if on && b.alt.None? {
        saved := Some(Saved(c.x, c.y, m.graphics, m.shifted));
        b := b.(alt := Some(b.grid), grid := BlankGrid(size));
        c := c.(x := 0, y := 0);
        r := Region(0, size.rows - 1);
      } else if !on && b.alt.Some? {
        b := b.(grid := b.alt.value, alt := None);
        r := Region(0, size.rows - 1);
        DoRestore();
      }
    }

    /** resize */
    method DoResize(rows0: int, cols0: int)
      requires Valid()
      modifies `size, `b, `c, `r
      ensures Valid() && View() == Resize(old(View()), rows0, cols0)
    {
      hide ResizeGrid;
      var rows, cols := Max(1, rows0), Max(1, cols0);
      if rows == size.rows && cols == size.cols { return; }
      var next := size.(rows := rows, cols := cols);
      var grid := ResizeGrid(b.grid, size, next);
      var alt := b.alt;
      if alt.Some? { alt := Some(ResizeGrid(alt.value, size, next)); }
      b := b.(grid := grid, alt := alt);
      size := next;
      r := Region(0, rows - 1);
      c := Cursor(Min(c.x, cols - 1), Min(c.y, rows - 1), false);
    }

    // ---- bytes ---------------------------------------------------------------------------------------

    /** _decode and _put, for a byte of a character beyond ASCII. */
    method DoDecode(x: Byte)
      requires Valid()
      modifies `b, `c, `last, `pending
      ensures Valid() && Whole() == DecodeByte(old(Whole()), x)
    {
      hide Put, Decode, Ok;
      pending := pending + [x];
      var ch := Decode(pending);
      if ch.None? {
        if |pending| >= 4 {
          pending := [];
          DoPut(REPLACEMENT);
        }
        return;
      }
      pending := [];
      DoPut(ch.value);
    }

    /** _byte */
    method DoByte(x: Byte) returns (raised: bool)
      requires Valid()
      modifies this
      ensures Valid() && Fed(raised) == OneByte(old(Whole()), x)
    {
      hide TextByte, EscByte, CsiByte, DecodeByte, BuffersOk;
      raised := false;
      if p.mode == Text {
        if x >= 0x80 { DoDecode(x); } else { DoText(x); }
        return;
      }
      match p.mode
      case Esc => DoEsc(x);
      case Csi => raised := DoCsi(x);
      case Osc => DoOsc(x);
      case Charset =>
        m := m.(graphics := x == 0x30);
        p := p.(mode := Text);
      case Hash => p := p.(mode := Text);
    }

    /** _esc_byte */
    method DoEsc(x: Byte)
      requires Valid() && p.mode == Esc
      modifies `b, `c, `r, `m, `saved, `p
      ensures Valid() && View() == EscByte(old(View()), x)
    {
      hide Newline, GridOk, MoveRows, BlankGrid;
      if x == 0x5B { p := p.(mode := Csi, parm := [], inter := []); return; }
      if x == 0x5D { p := p.(mode := Osc, osc := []); return; }
      if 0x28 <= x <= 0x2B { p := p.(mode := Charset); return; }
      if x == 0x23 { p := p.(mode := Hash); return; }
      p := p.(mode := Text);
      if x == 0x37 {
        saved := Some(Saved(c.x, c.y, m.graphics, m.shifted));
      } else if x == 0x38 {
        DoRestore();
      } else if x == 0x4D {
        if c.y == r.top {
          DoScrollDown(1);
        } else if c.y > 0 {
          c := c.(y := c.y - 1);
        }
      } else if x == 0x44 || x == 0x45 {
        if x == 0x45 { c := c.(x := 0); }
        DoNewline();
      } else if x == 0x63 {
        b := b.(grid := BlankGrid(size), alt := None);
        c, r, m, saved := Cursor(0, 0, false), Region(0, size.rows - 1), Modes(true, false, false, false), None;
      }
    }

    /** _osc_byte */
    method DoOsc(x: Byte)
      requires Valid()
      modifies `p
      ensures Valid() && View() == OscByte(old(View()), x)
    {
      if x == 0x07 || (x == 0x5C && p.osc != [] && p.osc[|p.osc| - 1] == ESC) {
        p := p.(mode := Text, osc := []);
        return;
      }
      p := p.(osc := p.osc + [x]);
      if |p.osc| > 512 { p := p.(mode := Text, osc := []); }
    }

    /** _csi_byte */
    method DoCsi(x: Byte) returns (raised: bool)
      requires Valid()
      modifies `b, `c, `r, `m, `saved, `last, `p
      ensures Valid() && Step(raised) == CsiByte(old(View()), x)
    {
      hide Dispatch, BuffersOk;
      raised := false;
      if 0x30 <= x <= 0x3F { p := p.(parm := p.parm + [x]); return; }
      if 0x20 <= x <= 0x2F { p := p.(inter := p.inter + [x]); return; }
      p := p.(mode := Text);
      raised := DoDispatch(x);
    }

    /** _dispatch. The sequences that unpack two parameters raise on a third, before they change anything. */
    method DoDispatch(final: Byte) returns (raised: bool)
      requires Valid()
      modifies `b, `c, `r, `m, `saved, `last
      ensures Valid() && Step(raised) == Dispatch(old(View()), final)
    {
      hide EraseDisplay, EraseLine, PutMany, Parms, BuffersOk, InsertLines, DeleteLines, InsertChars, DeleteChars;
      hide EraseChars, SetAnyModes, RestoreCursor, SetRegion, MoveCursor, ScrollUp, ScrollDown, Address, Nth;
      raised := false;
      var ps := Parms(p.parm, 0);
      var first := ps[0];
      var n := if first == 0 then 1 else first;
      match final
      case 0x68 => DoModes(ps, true);
      case 0x6C => DoModes(ps, false);
      case 0x48 => raised := DoAddress();
      case 0x66 => raised := DoAddress();
      case 0x4A => DoEraseDisplay(first);
      case 0x4B => DoEraseLine(first);
      case 0x4C => DoInsertLines(n);
      case 0x4D => DoDeleteLines(n);
      case 0x40 => DoInsertChars(n);
      case 0x50 => DoDeleteChars(n);
      case 0x62 => if last.Some? { DoRepeat(last.value, Min(n, size.cols * size.rows)); }
      case 0x58 => DoEraseChars(n);
      case 0x53 => DoScrollUp(n);
      case 0x54 => DoScrollDown(n);
      case 0x72 => raised := DoRegion(ps);
      case 0x73 => saved := Some(Saved(c.x, c.y, m.graphics, m.shifted));
      case 0x75 => DoRestore();
      case _ => DoMove(final, n);
    }

    // ---- sequences with loops or parts of their own ----------------------------------------------------

    /** H and f: a row and a column, 1 when left out, both brought onto the screen. */
    method DoAddress() returns (raised: bool)
      requires Valid()
      modifies `c
      ensures Valid()
      ensures raised <==> |Parms(p.parm, 0)| > 2
      ensures View() == if raised then old(View()) else Address(old(View()))
    {
      hide Parms;
      SameCount(p.parm, 0, 1);
      var ps := Parms(p.parm, 1);
      if |ps| > 2 { return true; }
      if |ps| < 2 { ps := ps + [1]; }
      c := Cursor(Min(Max(1, ps[1]), size.cols) - 1, Min(Max(1, ps[0]), size.rows) - 1, false);
      return false;
    }

    /** r: the scrolling region, taken only when it lies on the screen and has two rows or more. */
    method DoRegion(ps0: seq<nat>) returns (raised: bool)
      requires Valid() && ps0 != []
      modifies `c, `r
      ensures Valid()
      ensures raised <==> |ps0| > 2
      ensures View() == if raised then old(View()) else SetRegion(old(View()), ps0[0], Nth(ps0, 1, 0))
    {
      var ps := ps0;
      if |ps| > 2 { return true; }
      if |ps| < 2 { ps := ps + [0]; }
      var top, bot := ps[0], ps[1];
      if top == 0 { top := 1; }
      if bot == 0 { bot := size.rows; }
      if 1 <= top < bot <= size.rows {
        r := Region(top - 1, bot - 1);
        c := c.(x := 0, y := r.top);
      }
      return false;
    }

    /** The cursor movements. */
    method DoMove(final: Byte, n: nat)
      requires Valid()
      modifies `c
      ensures View() == MoveCursor(old(View()), final, n)
      ensures Valid()
    {
      hide BuffersOk, Ok;
      Positive(View());
      match final
      case 0x41 => c := c.(y := Max(r.top, c.y - n), wrap := false);
      case 0x42 => c := c.(y := Min(r.bot, c.y + n), wrap := false);
      case 0x43 => c := c.(x := Min(size.cols - 1, c.x + n), wrap := false);
      case 0x44 => c := c.(x := Max(0, c.x - n), wrap := false);
      case 0x45 => c := c.(x := 0, y := Min(r.bot, c.y + n));
      case 0x46 => c := c.(x := 0, y := Max(r.top, c.y - n));
      case 0x47 => c := c.(x := Min(Max(1, n), size.cols) - 1, wrap := false);
      case 0x60 => c := c.(x := Min(Max(1, n), size.cols) - 1, wrap := false);
      case 0x64 => c := c.(y := Min(Max(1, n), size.rows) - 1, wrap := false);
      case _ =>
    }

    /** ECH */
    method DoEraseChars(n: nat)
      requires Valid()
      modifies `b
      ensures Valid() && View() == EraseChars(old(View()), n)
    {
      hide ClearCells, GridOk;
      RowWide(b.grid, size, c.y);
      var row := BlankCells(b.grid[c.y], c.x, Min(size.cols, c.x + n));
      b := b.(grid := SetRow(b.grid, size, c.y, row));
    }

    method DoRestore()
      requires Valid()
      modifies `c, `m
      ensures Valid() && View() == RestoreCursor(old(View()))
    {
      if saved.None? {
        c := c.(x := 0, y := 0);
        return;
      }
      var k := saved.value;
      c := Cursor(Min(k.x, size.cols - 1), Min(k.y, size.rows - 1), false);
      m := m.(graphics := k.graphics, shifted := k.shifted);
    }

    /** _scroll_down */
    method DoScrollDown(n: nat)
      requires Valid()
      modifies `b
      ensures Valid() && b == ScrollDown(old(b), size, r, n)
    {
      hide MoveRow;
      for k := 0 to n
        invariant Valid() && b == old(b).(grid := MoveRows(old(b.grid), size, r.bot, r.top, k))
      {
        b := b.(grid := MoveRow(b.grid, size, r.bot, r.top));
      }
    }

    /** _insert_lines */
    method DoInsertLines(n: nat)
      requires Valid()
      modifies `b, `c
      ensures Valid() && View() == InsertLines(old(View()), n)
    {
      hide MoveRow;
      if !(r.top <= c.y <= r.bot) { return; }
      for k := 0 to Min(n, r.bot - c.y + 1)
        invariant Valid() && c == old(c) && b == old(b).(grid := MoveRows(old(b.grid), size, r.bot, c.y, k))
      {
        b := b.(grid := MoveRow(b.grid, size, r.bot, c.y));
      }
      c := c.(x := 0);
    }

    /** _delete_lines */
    method DoDeleteLines(n: nat)
      requires Valid()
      modifies `b, `c
      ensures Valid() && View() == DeleteLines(old(View()), n)
    {
      hide MoveRow;
      if !(r.top <= c.y <= r.bot) { return; }
      for k := 0 to Min(n, r.bot - c.y + 1)
        invariant Valid() && c == old(c) && b == old(b).(grid := MoveRows(old(b.grid), size, c.y, r.bot, k))
      {
        b := b.(grid := MoveRow(b.grid, size, c.y, r.bot));
      }
      c := c.(x := 0);
    }

    /** _insert_chars */
    method DoInsertChars(n: nat)
      requires Valid()
      modifies `b
      ensures Valid() && View() == InsertChars(old(View()), n)
    {
      hide InsertCell;
      var row := b.grid[c.y];
      for k := 0 to Min(n, size.cols - c.x)
        invariant |row| == size.cols && row == InsertCells(b.grid[c.y], c.x, k)
      {
        row := InsertCell(row, c.x);
      }
      b := b.(grid := b.grid[c.y := row]);
    }

    /** _delete_chars */
    method DoDeleteChars(n: nat)
      requires Valid()
      modifies `b
      ensures Valid() && View() == DeleteChars(old(View()), n)
    {
      hide DeleteCell;
      var row := b.grid[c.y];
      for k := 0 to Min(n, size.cols - c.x)
        invariant |row| == size.cols && row == DeleteCells(b.grid[c.y], c.x, k)
      {
        row := DeleteCell(row, c.x);
      }
      b := b.(grid := b.grid[c.y := row]);
    }

    /** The final bytes h and l: _mode and _ansi_mode. */
    method DoModes(ps: seq<nat>, on: bool)
      requires Valid()
      modifies `b, `c, `r, `m, `saved
      ensures Valid() && View() == SetAnyModes(old(View()), ps, on)
    {
      hide AltScreen, RestoreCursor, BuffersOk;
      if p.parm == [] || p.parm[0] != 0x3F {
        if 4 in ps { m := m.(insert := on); }
        return;
      }
      for k := 0 to |ps|
        invariant Valid() && p == old(p)
        invariant SetModes(old(View()), ps, on) == SetModes(View(), ps[k..], on)
      {
        assert ps[k..][0] == ps[k] && ps[k..][1..] == ps[k + 1..];
        DoMode(ps[k], on);
      }
    }

    method DoMode(mode: nat, on: bool)
      requires Valid()
      modifies `b, `c, `r, `m, `saved
      ensures Valid()
      ensures var s := old(View());
        View() == if mode == 7 then s.(m := s.m.(autowrap := on))
                  else if mode == 1047 || mode == 1049 then AltScreen(s, on)
                  else if mode == 1048 then (if on then SaveCursor(s) else RestoreCursor(s))
                  else s
    {
      hide AltScreen, RestoreCursor, BuffersOk;
      if mode == 7 {
        m := m.(autowrap := on);
      } else if mode == 1047 || mode == 1049 {
        DoAltScreen(on);
      } else if mode == 1048 {
        if on { saved := Some(Saved(c.x, c.y, m.graphics, m.shifted)); } else { DoRestore(); }
      }
    }

    /** _text_byte */
    method DoText(x: Byte)
      requires Valid() && p.mode == Text && x < 0x80
      modifies `b, `c, `m, `last, `p
      ensures Valid() && View() == TextByte(old(View()), x)
    {
      hide Newline, Put, Graphic, GridOk;
      match x
      case 0x1B => p := p.(mode := Esc, parm := [], inter := []);
      case 0x0D => c := c.(x := 0, wrap := false);
      case 0x0A => DoNewline();
      case 0x0B => DoNewline();
      case 0x0C => DoNewline();
      case 0x08 =>
        if c.wrap { c := c.(wrap := false); } else if c.x > 0 { c := c.(x := c.x - 1); }
      case 0x09 => c := c.(x := Min((c.x / 8 + 1) * 8, size.cols - 1), wrap := false);
      case 0x0E => m := m.(shifted := true);
      case 0x0F => m := m.(shifted := false);
      case _ =>
        if x >= 0x20 && x != 0x7F {
          DoPut(if m.graphics || m.shifted then Graphic(x) else x);
        }
    }

    /** feed. A byte that raises ends it there; what was held back is already put aside. */
    method DoFeed(chunk: seq<Byte>) returns (raised: bool)
      requires Valid()
      modifies this
      ensures Valid() && Fed(raised) == Feed(old(Whole()), chunk)
    {
      hide OneByte, Ok;
      if chunk == [] { return false; }
      var data := pending + chunk;
      pending := [];
      var held: nat := HeldBack(data);
      var cut := |data| - held;
      pending := data[cut..];
      var now := data[..cut];
      for k := 0 to |now|
        invariant Valid()
        invariant Bytes(Terminal(old(View()), data[cut..]), now) == Bytes(Whole(), now[k..])
      {
        assert now[k..][0] == now[k] && now[k..][1..] == now[k + 1..];
        raised := DoByte(now[k]);
        if raised { return; }
      }
      return false;
    }

    // ---- the transcript ------------------------------------------------------------------------------

    /** all_lines_with_ids */
    method AllLinesWithIds() returns (out: seq<Entry>)
      ensures out == AllLines(b)
      ensures b.alt.None? ==> forall e :: e in out <==> Shown(b, e)
    {
      hide RowText, Depth, Shown;
      var evicted := b.out - |b.back|;
      out := [];
      for i := 0 to |b.back|
        invariant out == Scrolled(b.back, b.out)[..i]
      {
        out := out + [Entry(b.back[i], evicted + i)];
      }
      var primary := if b.alt.Some? then b.alt.value else b.grid;
      var n := DepthOf(primary);
      var rows: seq<Entry> := [];
      for y := 0 to n
        invariant rows == Visible(primary, b.out)[..y]
      {
        rows := rows + [Entry(RowText(primary[y]), b.out + y)];
      }
      out := out + rows;
      if b.alt.None? {
        forall e { ShownIsListed(b, e); }
      }
    }
  }

  lemma Positive(s: Core)
    requires Ok(s)
    ensures s.size.rows > 0 && s.size.cols > 0
  {
  }

  lemma RowWide(g: Grid, size: Size, y: nat)
    requires GridOk(g, size) && y < size.rows
    ensures y < |g| && |g[y]| == size.cols
  {
  }

  lemma SameCount(parm: seq<Byte>, d: nat, e: nat)
    ensures |Parms(parm, d)| == |Parms(parm, e)|
  {
    hide Strip, Split;
    SplitCounts(Strip(parm), d);
    SplitCounts(Strip(parm), e);
  }

  /** Cells of a row made blank one by one. */
  method BlankCells(row0: Row, lo: nat, hi: nat) returns (row: Row)
    requires hi <= |row0|
    ensures row == ClearCells(row0, lo, hi)
  {
    row := row0;
    var i := lo;
    while i < hi
      invariant lo <= i && (i <= hi || i == lo) && |row| == |row0|
      invariant forall x :: 0 <= x < |row| ==> row[x] == if lo <= x < i && x < hi then SPACE else row0[x]
    {
      row := row[i := SPACE];
      i := i + 1;
    }
  }

  /** Every cell of some rows made blank. */
  method BlankRows(g0: Grid, size: Size, lo: nat, hi: nat) returns (g: Grid)
    requires GridOk(g0, size) && lo <= hi <= size.rows
    ensures g == ClearRows(g0, size, lo, hi)
  {
    hide ClearCells;
    g := g0;
    for y := lo to hi
      invariant GridOk(g, size)
      invariant forall k :: 0 <= k < |g| ==> g[k] == if lo <= k < y then BlankRow(size.cols) else g0[k]
    {
      var row := BlankCells(g[y], 0, size.cols);
      AllCleared(g[y]);
      g := g[y := row];
    }
  }

  lemma AllCleared(row: Row)
    ensures ClearCells(row, 0, |row|) == BlankRow(|row|)
  {
  }

  /** The loop that drops blank rows from the end. */
  method DepthOf(g: Grid) returns (n: nat)
    ensures n == Depth(g)
    ensures n <= |g| && (n > 0 ==> RowText(g[n - 1]) != [])
    ensures forall y :: n <= y < |g| ==> RowText(g[y]) == []
  {
    hide RowText;
    n := |g|;
    assert g[..n] == g;
    while n > 0 && RowText(g[n - 1]) == []
      invariant n <= |g| && Depth(g) == Depth(g[..n])
      invariant forall y :: n <= y < |g| ==> RowText(g[y]) == []
    {
      assert g[..n][..n - 1] == g[..n - 1];
      n := n - 1;
    }
    if n > 0 { assert g[..n][n - 1] == g[n - 1]; }
  }

  /** The search of feed for a character that the data ends inside. */
  method HeldBack(data: seq<Byte>) returns (held: nat)
    ensures held == Held(data, 1)
    ensures held <= |data| && held <= 3
    ensures held > 0 ==> Partial(data[|data| - held..])
  {
    held := 0;
    var back := 1;
    while back < Min(4, |data| + 1)
      invariant 1 <= back <= 4 && back <= |data| + 1 && held == 0
      invariant Held(data, 1) == Held(data, back)
      invariant forall j :: |data| - back < j < |data| ==> IsContinuation(data[j])
      decreases 4 - back
    {
      var x := data[|data| - back];
      if x < 0x80 { return; }
      if x >= 0xC0 {
        if back < Need(x) {
          held := back;
          var tail := data[|data| - back..];
          assert forall k :: 1 <= k < back ==> tail[k] == data[|data| - back + k];
        }
        return;
      }
      back := back + 1;
    }
  }
}
