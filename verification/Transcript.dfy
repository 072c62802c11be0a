/** The transcript behind the terminal (tools/hypvt.py): scrollback and primary screen as numbered lines.
    An application on the alternate screen leaves no trace in it, and scrolling keeps every line's number. */
module Transcript {
  import opened Screen
  import opened Feeding

  /** A line with its number. */
  datatype Entry = Entry(text: Row, id: int)

  function Primary(b: Buffers): Grid {
    if b.alt.Some? then b.alt.value else b.grid
  }

  function Evicted(b: Buffers): int {
    b.out - |b.back|
  }

  function Scrolled(back: seq<Row>, out: nat): seq<Entry> {
    seq(|back|, i requires 0 <= i < |back| => Entry(back[i], out - |back| + i))
  }

  /** How many rows are left when blank ones are taken off the end. */
  function Depth(g: Grid): (n: nat)
    ensures n <= |g|
  {
    if g == [] then 0 else if RowText(g[|g| - 1]) != [] then |g| else Depth(g[..|g| - 1])
  }

  function Visible(g: Grid, out: nat): seq<Entry> {
    seq(Depth(g), y requires 0 <= y < Depth(g) => Entry(RowText(g[y]), out + y))
  }

  /** all_lines_with_ids */
  function AllLines(b: Buffers): seq<Entry> {
    Scrolled(b.back, b.out) + Visible(Primary(b), b.out)
  }

  // ---- the alternate screen --------------------------------------------------------------------------

  /** The transcript is the same. */
  predicate Parked(b: Buffers, t: Buffers) {
    t.alt == b.alt && t.back == b.back && t.out == b.out
  }

  lemma {:induction false} ScrollUpParked(b: Buffers, size: Size, r: Region, n: nat)
    requires BuffersOk(b, size) && r.top <= r.bot < size.rows && b.alt.Some?
    ensures Parked(b, ScrollUp(b, size, r, n))
  {
    hide MoveRow, GridOk;
    if n > 0 { ScrollUpParked(b, size, r, n - 1); }
  }

  lemma NewlineParked(s: Core)
    requires Ok(s) && s.b.alt.Some?
    ensures Parked(s.b, Newline(s).b)
  {
    hide ScrollUp, GridOk;
    ScrollUpParked(s.b, s.size, s.r, 1);
  }

  lemma PutParked(s: Core, ch: Char)
    requires Ok(s) && s.b.alt.Some?
    ensures Parked(s.b, Put(s, ch).b)
  {
    hide Newline, GridOk;
    NewlineParked(s.(c := s.c.(x := 0)));
  }

  lemma {:induction false} PutManyParked(s: Core, ch: Char, n: nat)
    requires Ok(s) && s.b.alt.Some?
    ensures Parked(s.b, PutMany(s, ch, n).b)
  {
    hide Put, Ok;
    if n > 0 {
      PutManyParked(s, ch, n - 1);
      PutParked(PutMany(s, ch, n - 1), ch);
    }
  }

  lemma EraseParked(s: Core, mode: nat)
    requires Ok(s) && s.b.alt.Some?
    ensures Parked(s.b, EraseDisplay(s, mode).b) && Parked(s.b, EraseLine(s, mode).b)
  {
    hide GridOk, ClearRows, ClearCells, PreserveAll, SetRow;
  }

  /** A list of modes that ends with the alternate screen active never left it. */
  lemma {:induction false} SetModesParked(s: Core, ps: seq<nat>, on: bool)
    requires Ok(s) && (s.b.alt.Some? || !on)
    ensures var t := SetModes(s, ps, on); t.b.alt.Some? ==> s.b.alt.Some? && Parked(s.b, t.b)
    decreases |ps|
  {
    hide GridOk, BuffersOk;
    if ps != [] {
      var m := ps[0];
      var t := if m == 7 then s.(m := s.m.(autowrap := on))
               else if m == 1047 || m == 1049 then AltScreen(s, on)
               else if m == 1048 then (if on then SaveCursor(s) else RestoreCursor(s))
               else s;
      ModeOk(s, m, on);
      SetModesParked(t, ps[1..], on);
    }
  }

  lemma ModeOk(s: Core, m: nat, on: bool)
    requires Ok(s)
    ensures Ok(AltScreen(s, on)) && Ok(SaveCursor(s)) && Ok(RestoreCursor(s))
  {
    hide GridOk;
  }

  lemma PerformParked(s: Core, final: Byte)
    requires Ok(s) && s.b.alt.Some? && Perform(s, final).b.alt.Some?
    ensures Parked(s.b, Perform(s, final).b)
  {
    hide GridOk, BuffersOk, EraseDisplay, EraseLine, SetModes, PutMany, Parms, Nth, SetRow;
    hide InsertCells, DeleteCells, ClearCells, MoveRows, ScrollUp, Clamp, SetAnsiModes;
    var ps := Parms(s.p.parm, 0);
    var n := if ps[0] == 0 then 1 else ps[0];
    EraseParked(s, ps[0]);
    SetModesParked(s, ps, true);
    SetModesParked(s, ps, false);
    ScrollUpParked(s.b, s.size, s.r, n);
    if s.last.Some? { PutManyParked(s, s.last.value, Min(n, s.size.cols * s.size.rows)); }
  }

  lemma TextByteParked(s: Core, b: Byte)
    requires Ok(s) && s.b.alt.Some? && b < 0x80
    ensures Parked(s.b, TextByte(s, b).b)
  {
    hide GridOk, BuffersOk, Placed, Newline, Put, Graphic;
    NewlineParked(s);
    PutParked(s, if s.m.graphics || s.m.shifted then Graphic(b) else b);
  }

  lemma EscByteParked(s: Core, b: Byte)
    requires Ok(s) && s.b.alt.Some? && EscByte(s, b).b.alt.Some?
    ensures Parked(s.b, EscByte(s, b).b)
  {
    hide GridOk, BuffersOk, Newline, MoveRows, BlankGrid;
    var u := Enter(s, Text);
    NewlineParked(u);
    NewlineParked(u.(c := u.c.(x := 0)));
  }

  lemma CsiByteParked(s: Core, b: Byte)
    requires Ok(s) && s.b.alt.Some? && CsiByte(s, b).s.b.alt.Some?
    ensures Parked(s.b, CsiByte(s, b).s.b)
  {
    hide Perform, BuffersOk, Parms;
    var u := Enter(s, Text);
    if Perform(u, b).b.alt.Some? { PerformParked(u, b); }
  }

  lemma OneByteParked(t: Terminal, b: Byte)
    requires Ok(t.core) && t.core.b.alt.Some? && OneByte(t, b).t.core.b.alt.Some?
    ensures Parked(t.core.b, OneByte(t, b).t.core.b)
  {
    hide TextByte, EscByte, CsiByte, BuffersOk, Put, Decode;
    var s := t.core;
    if s.p.mode == Text && b >= 0x80 {
      var ch := Decode(t.pending + [b]);
      if ch.Some? { PutParked(s, ch.value); }
      PutParked(s, REPLACEMENT);
    } else {
      match s.p.mode
      case Text => TextByteParked(s, b);
      case Esc => EscByteParked(s, b);
      case Csi => CsiByteParked(s, b);
      case _ =>
    }
  }

  /** The alternate buffer is active before and after every byte that is taken in. */
  ghost predicate StaysAlternate(t: Terminal, bs: seq<Byte>)
    requires Ok(t.core)
    decreases |bs|
  {
    && t.core.b.alt.Some?
    && (bs != [] ==>
          match OneByte(t, bs[0])
          case Done(u) => StaysAlternate(u, bs[1..])
          case Failed(u) => u.core.b.alt.Some?)
  }

  /** Whatever an application on the alternate screen sends, the parked screen, the scrollback, the line
      count and so the whole transcript stay as they were. */
  lemma {:induction false} AlternateIsTransparent(t: Terminal, bs: seq<Byte>)
    requires Ok(t.core) && StaysAlternate(t, bs)
    ensures var u := Bytes(t, bs).t; Parked(t.core.b, u.core.b) && AllLines(u.core.b) == AllLines(t.core.b)
    decreases |bs|
  {
    hide OneByte, Ok, AllLines;
    if bs != [] {
      var u := OneByte(t, bs[0]).t;
      OneByteOk(t, bs[0]);
      assert u.core.b.alt.Some?;
      OneByteParked(t, bs[0]);
      if OneByte(t, bs[0]).Done? { AlternateIsTransparent(u, bs[1..]); }
    }
    ParkedLines(t.core.b, Bytes(t, bs).t.core.b);
  }

  lemma ParkedLines(b: Buffers, t: Buffers)
    requires b.alt.Some? && Parked(b, t)
    ensures AllLines(t) == AllLines(b)
  {
    hide Scrolled, Visible;
  }

  // ---- scrolling ---------------------------------------------------------------------------------------

  /** The line with this number, blank ones at the end of the screen included. */
  function Line(b: Buffers, id: int): Option<Row>
    requires b.alt.None?
  {
    if Evicted(b) <= id < b.out then Some(b.back[id - Evicted(b)])
    else if b.out <= id < b.out + |b.grid| then Some(RowText(b.grid[id - b.out]))
    else None
  }

  lemma {:induction false} BlankText(n: nat)
    ensures RowText(BlankRow(n)) == []
  {
    if n > 0 {
      assert BlankRow(n)[..n - 1] == BlankRow(n - 1);
      BlankText(n - 1);
    }
  }

  lemma AppendLine(b: Buffers, line: Row, limit: nat, id: int)
    requires |b.back| <= limit && |b.back| <= b.out
    ensures var t := Append(b, line, limit);
      && t.out == b.out + 1 && Evicted(b) <= Evicted(t) && |t.back| <= t.out
      && (Evicted(t) <= id < t.out ==> t.back[id - Evicted(t)] == if id == b.out then line else b.back[id - Evicted(b)])
  {
  }

  /** One scroll, line by line. From the top of the screen, lines of the region and of the scrollback keep
      their numbers until they are evicted, a blank line comes in, and lines below the region move up by
      one number. In a region further down, the lines inside move down by one and the others keep theirs. */
  lemma ScrollLine(b: Buffers, size: Size, r: Region, id: int)
    requires BuffersOk(b, size) && b.alt.None? && r.top <= r.bot < size.rows
    ensures var t := ScrollUpOnce(b, size, r);
      && t.alt.None?
      && (r.top == 0 ==>
            && t.out == b.out + 1 && Evicted(b) <= Evicted(t)
            && (Evicted(t) <= id <= b.out + r.bot ==> Line(t, id) == Line(b, id))
            && Line(t, b.out + r.bot + 1) == Some([])
            && (b.out + r.bot < id < b.out + size.rows ==> Line(t, id + 1) == Line(b, id)))
      && (r.top > 0 ==>
            && t.out == b.out && t.back == b.back
            && (id < b.out + r.top || id > b.out + r.bot ==> Line(t, id) == Line(b, id))
            && (b.out + r.top <= id < b.out + r.bot ==> Line(t, id) == Line(b, id + 1))
            && Line(t, b.out + r.bot) == Some([]))
  {
    hide RowText, MoveRow, Append, ScrollUpOnce, Line;
    if r.top == 0 { ScrollTop(b, size, r, id); } else { ScrollBelow(b, size, r, id); }
  }

  lemma ScrollTop(b: Buffers, size: Size, r: Region, id: int)
    requires BuffersOk(b, size) && b.alt.None? && r.top == 0 <= r.bot < size.rows
    ensures var t := ScrollUpOnce(b, size, r);
      && t.alt.None? && t.out == b.out + 1 && Evicted(b) <= Evicted(t)
      && (Evicted(t) <= id <= b.out + r.bot ==> Line(t, id) == Line(b, id))
      && Line(t, b.out + r.bot + 1) == Some([])
      && (b.out + r.bot < id < b.out + size.rows ==> Line(t, id + 1) == Line(b, id))
  {
    hide RowText, MoveRow, Append;
    AppendLine(b, RowText(b.grid[0]), size.limit, id);
    AppendLine(b, RowText(b.grid[0]), size.limit, b.out + r.bot + 1);
    var t := ScrollUpOnce(b, size, r);
    ScrollUpOnceParts(b, size, r);
    BlankText(size.cols);
    MoveRowMeaning(b.grid, size, 0, r.bot, r.bot);
    if b.out < id <= b.out + r.bot { MoveRowMeaning(b.grid, size, 0, r.bot, id - b.out - 1); }
    if b.out + r.bot < id < b.out + size.rows { MoveRowMeaning(b.grid, size, 0, r.bot, id - b.out); }
  }

  lemma ScrollBelow(b: Buffers, size: Size, r: Region, id: int)
    requires BuffersOk(b, size) && b.alt.None? && 0 < r.top <= r.bot < size.rows
    ensures var t := ScrollUpOnce(b, size, r);
      && t.alt.None? && t.out == b.out && t.back == b.back
      && (id < b.out + r.top || id > b.out + r.bot ==> Line(t, id) == Line(b, id))
      && (b.out + r.top <= id < b.out + r.bot ==> Line(t, id) == Line(b, id + 1))
      && Line(t, b.out + r.bot) == Some([])
  {
    hide RowText, MoveRow, Append;
    BlankText(size.cols);
    MoveRowMeaning(b.grid, size, r.top, r.bot, r.bot);
    if b.out <= id < b.out + size.rows { MoveRowMeaning(b.grid, size, r.top, r.bot, id - b.out); }
  }

  lemma ScrollUpOnceParts(b: Buffers, size: Size, r: Region)
    requires BuffersOk(b, size) && b.alt.None? && r.top == 0 <= r.bot < size.rows
    ensures var t, a := ScrollUpOnce(b, size, r), Append(b, RowText(b.grid[0]), size.limit);
      t.grid == MoveRow(b.grid, size, 0, r.bot) && t.back == a.back && t.out == a.out && t.alt.None?
      && |t.grid| == size.rows == |b.grid|
  {
    hide RowText, MoveRow;
  }

  // ---- which regions keep the numbers ----------------------------------------------------------------

  /** One scroll of the region keeps the number of every line that survives it: every line not evicted and
      not the one a region below the top throws away. */
  ghost predicate KeepsNumbers(b: Buffers, size: Size, r: Region)
    requires BuffersOk(b, size) && b.alt.None? && r.top <= r.bot < size.rows
  {
    var t := ScrollUpOnce(b, size, r);
    t.alt.None? && forall id :: Evicted(t) <= id < b.out + size.rows && !(r.top > 0 && id == b.out + r.top) ==>
      Line(t, id) == Line(b, id)
  }

  /** A screen with text on one row. */
  function Marked(size: Size, y: nat): (b: Buffers)
    requires size.cols > 0
    ensures BuffersOk(b, size) && b.alt.None?
  {
    Buffers(seq(size.rows, k requires 0 <= k < size.rows => MarkedRow(size.cols, y, k)), None, [], 0)
  }

  function MarkedRow(cols: nat, y: int, k: int): (row: Row)
    requires cols > 0
    ensures |row| == cols
  {
    if k == y then [0x41] + BlankRow(cols - 1) else BlankRow(cols)
  }

  lemma {:induction false} MarkText(n: nat)
    ensures RowText([0x41] + BlankRow(n)) == [0x41]
  {
    var row := [0x41] + BlankRow(n);
    if n > 0 {
      assert row[..n] == [0x41] + BlankRow(n - 1);
      MarkText(n - 1);
    }
  }

  lemma MarkedLine(size: Size, y: nat, id: nat)
    requires size.cols > 0 && id < size.rows
    ensures Line(Marked(size, y), id) == Some(if id == y then [0x41] else [])
  {
    hide RowText;
    MarkText(size.cols - 1);
    BlankText(size.cols);
    assert Marked(size, y).grid[id] == MarkedRow(size.cols, y, id);
  }

  /** The numbers are stable for every screen exactly when the region is the whole screen, or a single row
      below the top. Any region that a guest can set is at least two rows, so only the whole screen is. */
  lemma StableRegions(size: Size, r: Region)
    requires size.cols > 0 && r.top <= r.bot < size.rows
    ensures (forall b: Buffers :: BuffersOk(b, size) && b.alt.None? ==> KeepsNumbers(b, size, r)) <==>
              (r.top == 0 && r.bot == size.rows - 1) || (r.top > 0 && r.top == r.bot)
  {
    hide RowText, MoveRow, Append, ScrollUpOnce, Line, BuffersOk, Marked, KeepsNumbers;
    if (r.top == 0 && r.bot == size.rows - 1) || (r.top > 0 && r.top == r.bot) {
      forall b: Buffers | BuffersOk(b, size) && b.alt.None?
        ensures KeepsNumbers(b, size, r)
      {
        StableRegion(b, size, r);
      }
    } else {
      UnstableRegion(size, r);
    }
  }

  lemma StableRegion(b: Buffers, size: Size, r: Region)
    requires BuffersOk(b, size) && b.alt.None? && r.top <= r.bot < size.rows
    requires (r.top == 0 && r.bot == size.rows - 1) || (r.top > 0 && r.top == r.bot)
    ensures KeepsNumbers(b, size, r)
  {
    hide RowText, MoveRow, Append, ScrollUpOnce, Line, BuffersOk;
    ScrollLine(b, size, r, 0);
    forall id | Evicted(ScrollUpOnce(b, size, r)) <= id < b.out + size.rows && !(r.top > 0 && id == b.out + r.top)
      ensures Line(ScrollUpOnce(b, size, r), id) == Line(b, id)
    {
      ScrollLine(b, size, r, id);
    }
  }

  /** A screen that shows it: the line just below the region, or the second line inside it, is where the
      text was, and no longer is. */
  lemma UnstableRegion(size: Size, r: Region)
    requires size.cols > 0 && r.top <= r.bot < size.rows
    requires if r.top == 0 then r.bot < size.rows - 1 else r.top < r.bot
    ensures var y := if r.top == 0 then r.bot + 1 else r.top + 1;
      var b := Marked(size, y);
      var t := ScrollUpOnce(b, size, r);
      && t.alt.None? && y < size.rows && Line(b, y) == Some([0x41]) && Line(t, y) == Some([])
      && !KeepsNumbers(b, size, r)
  {
    hide RowText, MoveRow, Append, ScrollUpOnce, Line, BuffersOk, Marked;
    var y := if r.top == 0 then r.bot + 1 else r.top + 1;
    var b := Marked(size, y);
    MarkedStarts(size, y);
    MarkedLine(size, y, y);
    ScrollLine(b, size, r, y);
    if r.top > 0 && y < r.bot { MarkedLine(size, y, y + 1); }
    EvictedSmall(b, size, r);
  }

  lemma MarkedStarts(size: Size, y: nat)
    requires size.cols > 0
    ensures Marked(size, y).out == 0 && Marked(size, y).back == []
  {
  }

  lemma EvictedSmall(b: Buffers, size: Size, r: Region)
    requires BuffersOk(b, size) && b.alt.None? && r.top <= r.bot < size.rows && b.out == 0
    ensures Evicted(ScrollUpOnce(b, size, r)) <= 1
  {
    hide RowText, MoveRow;
  }

  // ---- clearing the screen ---------------------------------------------------------------------------

  /** How many rows have text. */
  function TextRows(g: Grid): (n: nat)
    ensures n <= |g|
  {
    if g == [] then 0 else (if RowText(g[|g| - 1]) == [] then 0 else 1) + TextRows(g[..|g| - 1])
  }

  lemma {:induction false} PreserveSnoc(back: seq<Row>, g: Grid, row: Row)
    ensures Preserve(back, g + [row]) == Preserve(back, g) + if RowText(row) == [] then [] else [RowText(row)]
    decreases |g|
  {
    hide RowText;
    if g == [] {
      assert (g + [row])[1..] == [];
    } else {
      assert (g + [row])[1..] == g[1..] + [row];
      PreserveSnoc(if RowText(g[0]) == [] then back else back + [RowText(g[0])], g[1..], row);
    }
  }

  /** The rows with text go to the end of the scrollback in order. */
  lemma {:induction false} PreserveMeans(back: seq<Row>, g: Grid, y: nat)
    requires y < |g| && RowText(g[y]) != []
    ensures |Preserve(back, g)| == |back| + TextRows(g) && back <= Preserve(back, g)
    ensures TextRows(g[..y]) < TextRows(g)
    ensures Preserve(back, g)[|back| + TextRows(g[..y])] == RowText(g[y])
    decreases |g|
  {
    hide RowText;
    var n := |g| - 1;
    assert g[..n] + [g[n]] == g;
    PreserveSnoc(back, g[..n], g[n]);
    PreserveLength(back, g[..n]);
    if y < n {
      assert g[..n][..y] == g[..y];
      PreserveMeans(back, g[..n], y);
    }
  }

  lemma {:induction false} PreserveLength(back: seq<Row>, g: Grid)
    ensures |Preserve(back, g)| == |back| + TextRows(g) && back <= Preserve(back, g)
    decreases |g|
  {
    hide RowText;
    if g != [] {
      var n := |g| - 1;
      assert g[..n] + [g[n]] == g;
      PreserveSnoc(back, g[..n], g[n]);
      PreserveLength(back, g[..n]);
    }
  }

  /** The number a row's line has after a clear: blank rows do not count. */
  function ClearedNumber(b: Buffers, y: nat): int
    requires y <= |b.grid|
  {
    b.out + TextRows(b.grid[..y])
  }

  /** A full clear of the primary screen keeps every line of text, under that number, until it is evicted. */
  lemma ClearLine(s: Core, mode: nat, y: nat)
    requires Ok(s) && s.b.alt.None? && mode >= 2 && y < s.size.rows && RowText(s.b.grid[y]) != []
    ensures var t := EraseDisplay(s, mode).b;
      t.alt.None? && (ClearedNumber(s.b, y) >= Evicted(t) ==>
                        Line(t, ClearedNumber(s.b, y)) == Some(RowText(s.b.grid[y])))
  {
    hide RowText, ClearRows, TextRows;
    PreserveMeans(s.b.back, s.b.grid, y);
  }

  /** No row with text has a blank one above it. */
  ghost predicate NoGap(g: Grid) {
    forall y, z :: 0 <= y < z < |g| && RowText(g[z]) != [] ==> RowText(g[y]) != []
  }

  lemma {:induction false} TextRowsFull(g: Grid)
    ensures TextRows(g) == |g| <==> forall y :: 0 <= y < |g| ==> RowText(g[y]) != []
    decreases |g|
  {
    hide RowText;
    if g != [] {
      var n := |g| - 1;
      TextRowsFull(g[..n]);
      if TextRows(g[..n]) == n {
        assert forall y :: 0 <= y < n ==> g[..n][y] == g[y];
      } else {
        var y :| 0 <= y < n && RowText(g[..n][y]) == [];
        assert RowText(g[y]) == [];
      }
    }
  }

  /** A clear keeps the number of every line of text exactly when no blank row stands above one. */
  lemma ClearKeepsNumbers(b: Buffers)
    ensures (forall y :: 0 <= y < |b.grid| && RowText(b.grid[y]) != [] ==> ClearedNumber(b, y) == b.out + y)
            <==> NoGap(b.grid)
  {
    hide RowText, TextRows;
    forall y | 0 <= y < |b.grid|
      ensures ClearedNumber(b, y) == b.out + y <==> forall k :: 0 <= k < y ==> RowText(b.grid[k]) != []
    {
      TextRowsFull(b.grid[..y]);
      assert forall k :: 0 <= k < y ==> b.grid[..y][k] == b.grid[k];
    }
  }

  /** Text, a blank row, text: after a clear the second line of text has the number the blank row had. */
  lemma ClearRenumbers(s: Core)
    requires Ok(s) && s.b.alt.None? && s.size.rows >= 3 && s.size.limit >= s.size.rows
    requires RowText(s.b.grid[0]) != [] && RowText(s.b.grid[1]) == [] && RowText(s.b.grid[2]) != []
    ensures var b, t := s.b, EraseDisplay(s, 2).b;
      t.alt.None? && Line(t, b.out + 1) == Line(b, b.out + 2) != Line(b, b.out + 1)
  {
    hide RowText, ClearRows, Preserve;
    ClearLine(s, 2, 2);
    assert s.b.grid[..2][..1] == s.b.grid[..1] && s.b.grid[..1][..0] == [];
    assert TextRows(s.b.grid[..2]) == 1;
    PreserveLength(s.b.back, s.b.grid);
    PreserveMeans(s.b.back, s.b.grid, 2);
  }

  // ---- the transcript as it is shown -----------------------------------------------------------------

  predicate Shown(b: Buffers, e: Entry)
    requires b.alt.None?
  {
    Line(b, e.id) == Some(e.text) && e.id < b.out + Depth(b.grid)
  }

  /** all_lines_with_ids holds exactly these. */
  lemma ShownIsListed(b: Buffers, e: Entry)
    requires b.alt.None?
    ensures e in AllLines(b) <==> Shown(b, e)
  {
    hide RowText, Depth;
    var all := AllLines(b);
    if e in all {
      var k :| 0 <= k < |all| && all[k] == e;
      if k >= |b.back| { assert all[k] == Visible(b.grid, b.out)[k - |b.back|]; }
    }
    if Shown(b, e) { assert all[e.id - Evicted(b)] == e; }
  }

  lemma {:induction false} DepthMeans(g: Grid, y: nat)
    requires y < |g|
    ensures y >= Depth(g) ==> RowText(g[y]) == []
    ensures Depth(g) > 0 ==> RowText(g[Depth(g) - 1]) != []
    decreases |g|
  {
    hide RowText;
    if RowText(g[|g| - 1]) == [] {
      if |g| > 1 { DepthMeans(g[..|g| - 1], if y < |g| - 1 then y else 0); }
    }
  }

  lemma {:induction false} DepthIs(g: Grid, n: nat)
    requires n <= |g| && (forall y :: n <= y < |g| ==> RowText(g[y]) == []) && (n > 0 ==> RowText(g[n - 1]) != [])
    ensures Depth(g) == n
    decreases |g|
  {
    hide RowText;
    if |g| > n { DepthIs(g[..|g| - 1], n); }
  }

  lemma ScrollDepth(b: Buffers, size: Size)
    requires BuffersOk(b, size) && b.alt.None? && size.rows > 0
    ensures var t := ScrollUpOnce(b, size, Region(0, size.rows - 1));
      Depth(t.grid) == if Depth(b.grid) == 0 then 0 else Depth(b.grid) - 1
  {
    hide RowText, MoveRow, Depth, Append;
    var r := Region(0, size.rows - 1);
    var t := ScrollUpOnce(b, size, r);
    ScrollUpOnceParts(b, size, r);
    var n := if Depth(b.grid) == 0 then 0 else Depth(b.grid) - 1;
    forall y | n <= y < |t.grid|
      ensures RowText(t.grid[y]) == []
    {
      MoveRowMeaning(b.grid, size, 0, r.bot, y);
      if y < r.bot { DepthMeans(b.grid, y + 1); } else { BlankText(size.cols); }
    }
    if n > 0 {
      DepthMeans(b.grid, 0);
      MoveRowMeaning(b.grid, size, 0, r.bot, n - 1);
    }
    DepthIs(t.grid, n);
  }

  /** A scroll of the whole primary screen keeps every surviving line with its number, and shows nothing
      new; only a screen that was blank altogether gains the blank line that left it. */
  lemma ScrollKeepsEntries(b: Buffers, size: Size, e: Entry)
    requires BuffersOk(b, size) && b.alt.None? && size.rows > 0
    ensures var t := ScrollUpOnce(b, size, Region(0, size.rows - 1));
      && t.alt.None?
      && (e.id >= Evicted(t) ==>
            (Shown(t, e) <==> Shown(b, e) || (e == Entry([], b.out) && Depth(b.grid) == 0)))
  {
    hide RowText, Depth, ScrollUpOnce, Line;
    var r := Region(0, size.rows - 1);
    ScrollLine(b, size, r, e.id);
    ScrollDepth(b, size);
    if Depth(b.grid) == 0 { BlankTop(b, size); }
    LineBeyond(b, e.id);
  }

  lemma LineBeyond(b: Buffers, id: int)
    requires b.alt.None?
    ensures Depth(b.grid) == 0 && Line(b, id).Some? && id < b.out ==> Evicted(b) <= id
    ensures Depth(b.grid) <= |b.grid|
  {
    hide RowText, Depth;
  }

  lemma BlankTop(b: Buffers, size: Size)
    requires BuffersOk(b, size) && b.alt.None? && size.rows > 0 && Depth(b.grid) == 0
    ensures Line(b, b.out) == Some([])
  {
    hide RowText, Depth;
    DepthMeans(b.grid, 0);
  }

  /** Any number of scrolls: a line that is still within the limit is shown with the number it had. */
  lemma {:induction false} ScrollsKeepEntries(b: Buffers, size: Size, n: nat, e: Entry)
    requires BuffersOk(b, size) && b.alt.None? && size.rows > 0 && Shown(b, e)
    ensures var t := ScrollUp(b, size, Region(0, size.rows - 1), n);
      t.alt.None? && Evicted(b) <= Evicted(t) && (e.id >= Evicted(t) ==> e in AllLines(t))
    decreases n
  {
    hide RowText, Depth, ScrollUpOnce, Line, AllLines, BuffersOk;
    if n == 0 {
      ShownIsListed(b, e);
    } else {
      var r := Region(0, size.rows - 1);
      var u := ScrollUp(b, size, r, n - 1);
      ScrollsKeepEntries(b, size, n - 1, e);
      ScrollLine(u, size, r, e.id);
      ScrollKeepsEntries(u, size, e);
      ShownIsListed(u, e);
      ShownIsListed(ScrollUpOnce(u, size, r), e);
    }
  }

  // ---- the screen that comes back ------------------------------------------------------------------

  /** An application that takes the alternate screen, does what it likes there and leaves it gives back
      the screen, the scrollback and the count it found. */
  lemma GivesBackScreen(s: Core, pending: seq<Byte>, bs: seq<Byte>)
    requires Ok(s) && s.b.alt.None?
    requires StaysAlternate(Terminal(AltScreen(s, true), pending), bs)
    ensures AltScreen(Bytes(Terminal(AltScreen(s, true), pending), bs).t.core, false).b == s.b
  {
    hide GridOk, AllLines, BlankGrid, StaysAlternate, Bytes;
    AlternateIsTransparent(Terminal(AltScreen(s, true), pending), bs);
  }
}
