/** The guest's terminal screen (tools/hypvt.py): the state behind `Screen` and what each byte does to it.
    A cell is its character alone; colours, attributes, titles and counters of unknown sequences are not
    part of the model. */
module Screen {
  type Byte = b: int | 0 <= b < 256

  /** A character, as its code point. */
  type Char = nat

  const SPACE: Char := 0x20

  type Row = seq<Char>
  type Grid = seq<Row>

  datatype Option<T> = None | Some(value: T)

  datatype Size = Size(rows: nat, cols: nat, limit: nat)

  /** The active grid, the parked primary one while the alternate buffer is active, and the lines that
      have scrolled off the primary one. */
  datatype Buffers = Buffers(grid: Grid, alt: Option<Grid>, back: seq<Row>, out: nat)

  datatype Cursor = Cursor(x: nat, y: nat, wrap: bool)

  datatype Region = Region(top: nat, bot: nat)

  datatype Modes = Modes(autowrap: bool, insert: bool, graphics: bool, shifted: bool)

  datatype Saved = Saved(x: nat, y: nat, graphics: bool, shifted: bool)

  datatype Mode = Text | Esc | Csi | Osc | Charset | Hash

  datatype Parser = Parser(mode: Mode, parm: seq<Byte>, inter: seq<Byte>, osc: seq<Byte>)

  datatype Core = Core(size: Size, b: Buffers, c: Cursor, r: Region, m: Modes, saved: Option<Saved>,
                       last: Option<Char>, p: Parser)

  function Min(a: int, b: int): int {
    if a < b then a else b
  }

  function Max(a: int, b: int): int {
    if a < b then b else a
  }

  // ---- rows and grids ------------------------------------------------------------------------------

  function BlankRow(cols: nat): (r: Row)
    ensures |r| == cols
  {
    seq(cols, _ => SPACE)
  }

  function BlankGrid(size: Size): (g: Grid)
    ensures GridOk(g, size)
  {
    seq(size.rows, _ => BlankRow(size.cols))
  }

  ghost predicate GridOk(g: Grid, size: Size) {
    |g| == size.rows && forall y :: 0 <= y < |g| ==> |g[y]| == size.cols
  }

  /** Pop the row at `from`, insert a blank one at `to`. */
  function MoveRow(g: Grid, size: Size, from: nat, to: nat): (t: Grid)
    requires GridOk(g, size) && from < size.rows && to < size.rows
    ensures GridOk(t, size)
  {
    var rest := g[..from] + g[from + 1..];
    rest[..to] + [BlankRow(size.cols)] + rest[to..]
  }

  function MoveRows(g: Grid, size: Size, from: nat, to: nat, n: nat): (t: Grid)
    requires GridOk(g, size) && from < size.rows && to < size.rows
    ensures GridOk(t, size)
  {
    if n == 0 then g else MoveRow(MoveRows(g, size, from, to, n - 1), size, from, to)
  }

  function SetRow(g: Grid, size: Size, y: nat, row: Row): (t: Grid)
    requires GridOk(g, size) && y < size.rows && |row| == size.cols
    ensures GridOk(t, size)
  {
    g[y := row]
  }

  /** Blank the cells from `lo` up to `hi`. */
  function ClearCells(row: Row, lo: nat, hi: nat): (t: Row)
    ensures |t| == |row|
  {
    seq(|row|, x requires 0 <= x < |row| => if lo <= x < hi then SPACE else row[x])
  }

  function RowAfterClear(g: Grid, size: Size, lo: nat, hi: nat, y: nat): (t: Row)
    requires GridOk(g, size) && y < |g|
    ensures |t| == size.cols
  {
    if lo <= y < hi then BlankRow(size.cols) else g[y]
  }

  /** Blank the rows from `lo` up to `hi`. */
  function ClearRows(g: Grid, size: Size, lo: nat, hi: nat): (t: Grid)
    requires GridOk(g, size)
    ensures GridOk(t, size)
  {
    seq(|g|, y requires 0 <= y < |g| && GridOk(g, size) => RowAfterClear(g, size, lo, hi, y))
  }

  function InsertCell(row: Row, x: nat): (t: Row)
    requires x < |row|
    ensures |t| == |row|
  {
    var rest := row[..|row| - 1];
    rest[..x] + [SPACE] + rest[x..]
  }

  function DeleteCell(row: Row, x: nat): (t: Row)
    requires x < |row|
    ensures |t| == |row|
  {
    row[..x] + row[x + 1..] + [SPACE]
  }

  function InsertCells(row: Row, x: nat, n: nat): (t: Row)
    requires x < |row|
    ensures |t| == |row|
  {
    if n == 0 then row else InsertCell(InsertCells(row, x, n - 1), x)
  }

  function DeleteCells(row: Row, x: nat, n: nat): (t: Row)
    requires x < |row|
    ensures |t| == |row|
  {
    if n == 0 then row else DeleteCell(DeleteCells(row, x, n - 1), x)
  }

  /** What str.isspace accepts. */
  predicate IsSpace(ch: Char) {
    || 0x09 <= ch <= 0x0D || 0x1C <= ch <= 0x20 || ch == 0x85 || ch == 0xA0 || ch == 0x1680
    || 0x2000 <= ch <= 0x200A || ch == 0x2028 || ch == 0x2029 || ch == 0x202F || ch == 0x205F || ch == 0x3000
  }

  /** A row as text: trailing white space stripped. */
  function RowText(row: Row): Row {
    if row != [] && IsSpace(row[|row| - 1]) then RowText(row[..|row| - 1]) else row
  }

  // ---- the shape that everything keeps ---------------------------------------------------------------

  ghost predicate BuffersOk(b: Buffers, size: Size) {
    && GridOk(b.grid, size) && (b.alt.Some? ==> GridOk(b.alt.value, size))
    && |b.back| <= size.limit && |b.back| <= b.out
  }

  ghost predicate Placed(s: Core) {
    && s.size.rows > 0 && s.size.cols > 0
    && s.c.x < s.size.cols && s.c.y < s.size.rows && s.r.top <= s.r.bot < s.size.rows
  }

  ghost predicate Ok(s: Core) {
    Placed(s) && BuffersOk(s.b, s.size)
  }

  // ---- scrolling -------------------------------------------------------------------------------------

  /** Append a line to the scrollback, and drop the oldest beyond the limit. */
  function Append(b: Buffers, line: Row, limit: nat): Buffers {
    var back := b.back + [line];
    b.(back := if |back| > limit then back[|back| - limit..] else back, out := b.out + 1)
  }

  function ScrollUpOnce(b: Buffers, size: Size, r: Region): (t: Buffers)
    requires BuffersOk(b, size) && r.top <= r.bot < size.rows
    ensures BuffersOk(t, size)
  {
    var grid := MoveRow(b.grid, size, r.top, r.bot);
    var kept := if b.alt.None? && r.top == 0 then Append(b, RowText(b.grid[r.top]), size.limit) else b;
    kept.(grid := grid)
  }

  function ScrollUp(b: Buffers, size: Size, r: Region, n: nat): (t: Buffers)
    requires BuffersOk(b, size) && r.top <= r.bot < size.rows
    ensures BuffersOk(t, size)
  {
    if n == 0 then b else ScrollUpOnce(ScrollUp(b, size, r, n - 1), size, r)
  }

  function ScrollDown(b: Buffers, size: Size, r: Region, n: nat): (t: Buffers)
    requires BuffersOk(b, size) && r.top <= r.bot < size.rows
    ensures BuffersOk(t, size)
  {
    b.(grid := MoveRows(b.grid, size, r.bot, r.top, n))
  }

  function Newline(s: Core): (t: Core)
    requires Ok(s)
    ensures Ok(t)
  {
    var c := s.c.(wrap := false);
    if c.y == s.r.bot then s.(c := c, b := ScrollUp(s.b, s.size, s.r, 1))
    else if c.y + 1 < s.size.rows then s.(c := c.(y := c.y + 1))
    else s.(c := c)
  }

  // ---- characters ------------------------------------------------------------------------------------

  function PutCell(s: Core, ch: Char): (t: Core)
    requires Ok(s)
    ensures Ok(t)
  {
    var row := s.b.grid[s.c.y];
    var room := if s.m.insert then InsertCell(row, s.c.x) else row;
    var grid := SetRow(s.b.grid, s.size, s.c.y, room[s.c.x := ch]);
    var c := if s.c.x + 1 >= s.size.cols then s.c.(wrap := true) else s.c.(x := s.c.x + 1);
    s.(last := Some(ch), b := s.b.(grid := grid), c := c)
  }

  /** _put: a character at the cursor, wrapping first when the last one filled the line. */
  function Put(s: Core, ch: Char): (t: Core)
    requires Ok(s)
    ensures Ok(t)
  {
    if s.c.wrap && s.m.autowrap then PutCell(Newline(s.(c := s.c.(x := 0))), ch) else PutCell(s, ch)
  }

  function PutMany(s: Core, ch: Char, n: nat): (t: Core)
    requires Ok(s)
    ensures Ok(t)
  {
    if n == 0 then s else Put(PutMany(s, ch, n - 1), ch)
  }

  function Tab(s: Core): (t: Core)
    requires Ok(s)
    ensures Ok(t)
  {
    s.(c := s.c.(x := Min((s.c.x / 8 + 1) * 8, s.size.cols - 1), wrap := false))
  }

  // ---- the cursor, the buffers -------------------------------------------------------------------------

  function SaveCursor(s: Core): Core {
    s.(saved := Some(Saved(s.c.x, s.c.y, s.m.graphics, s.m.shifted)))
  }

  function RestoreCursor(s: Core): (t: Core)
    requires Ok(s)
    ensures Ok(t)
  {
    if s.saved.None? then s.(c := s.c.(x := 0, y := 0))
    else
      var k := s.saved.value;
      s.(c := Cursor(Min(k.x, s.size.cols - 1), Min(k.y, s.size.rows - 1), false),
         m := s.m.(graphics := k.graphics, shifted := k.shifted))
  }

  function Whole(size: Size): Region
    requires size.rows > 0
  {
    Region(0, size.rows - 1)
  }

  function AltScreen(s: Core, on: bool): (t: Core)
    requires Ok(s)
    ensures Ok(t)
  {
    if on && s.b.alt.None? then
      var k := SaveCursor(s);
      k.(b := s.b.(alt := Some(s.b.grid), grid := BlankGrid(s.size)),
         c := s.c.(x := 0, y := 0), r := Whole(s.size))
    else if !on && s.b.alt.Some? then
      RestoreCursor(s.(b := s.b.(grid := s.b.alt.value, alt := None), r := Whole(s.size)))
    else s
  }

  function Reset(s: Core): (t: Core)
    requires Ok(s)
    ensures Ok(t)
  {
    s.(b := s.b.(grid := BlankGrid(s.size), alt := None), c := Cursor(0, 0, false), r := Whole(s.size),
       m := Modes(true, false, false, false), saved := None)
  }

  // ---- erasing, inserting, deleting ----------------------------------------------------------------

  function ChangeRow(s: Core, row: Row): (t: Core)
    requires Ok(s) && |row| == s.size.cols
    ensures Ok(t)
  {
    s.(b := s.b.(grid := SetRow(s.b.grid, s.size, s.c.y, row)))
  }

  function EraseLine(s: Core, mode: nat): (t: Core)
    requires Ok(s)
    ensures Ok(t)
  {
    var row := s.b.grid[s.c.y];
    var cleared := if mode == 0 then ClearCells(row, s.c.x, s.size.cols)
                   else if mode == 1 then ClearCells(row, 0, Min(s.c.x + 1, s.size.cols))
                   else ClearCells(row, 0, s.size.cols);
    ChangeRow(s.(c := s.c.(wrap := false)), cleared)
  }

  /** Put the lines of a grid that have text at the end of the scrollback. */
  function Preserve(back: seq<Row>, g: Grid): (t: seq<Row>)
    ensures |back| <= |t| <= |back| + |g|
    decreases |g|
  {
    if g == [] then back
    else
      var text := RowText(g[0]);
      Preserve(if text == [] then back else back + [text], g[1..])
  }

  function PreserveAll(b: Buffers, limit: nat): Buffers {
    var back := Preserve(b.back, b.grid);
    b.(back := if |back| > limit then back[|back| - limit..] else back, out := b.out + (|back| - |b.back|))
  }

  function EraseDisplay(s: Core, mode: nat): (t: Core)
    requires Ok(s)
    ensures Ok(t)
  {
    var t :=
      if mode == 0 then
        var k := EraseLine(s, 0);
        k.(b := k.b.(grid := ClearRows(k.b.grid, s.size, s.c.y + 1, s.size.rows)))
      else if mode == 1 then
        var k := EraseLine(s, 1);
        k.(b := k.b.(grid := ClearRows(k.b.grid, s.size, 0, s.c.y)))
      else
        var b := if s.b.alt.None? then PreserveAll(s.b, s.size.limit) else s.b;
        s.(b := b.(grid := ClearRows(s.b.grid, s.size, 0, s.size.rows)));
    t.(c := t.c.(wrap := false))
  }

  predicate InRegion(s: Core) {
    s.r.top <= s.c.y <= s.r.bot
  }

  function InsertLines(s: Core, n: nat): (t: Core)
    requires Ok(s)
    ensures Ok(t)
  {
    if !InRegion(s) then s
    else s.(b := s.b.(grid := MoveRows(s.b.grid, s.size, s.r.bot, s.c.y, Min(n, s.r.bot - s.c.y + 1))),
            c := s.c.(x := 0))
  }

  function DeleteLines(s: Core, n: nat): (t: Core)
    requires Ok(s)
    ensures Ok(t)
  {
    if !InRegion(s) then s
    else s.(b := s.b.(grid := MoveRows(s.b.grid, s.size, s.c.y, s.r.bot, Min(n, s.r.bot - s.c.y + 1))),
            c := s.c.(x := 0))
  }

  function InsertChars(s: Core, n: nat): (t: Core)
    requires Ok(s)
    ensures Ok(t)
  {
    ChangeRow(s, InsertCells(s.b.grid[s.c.y], s.c.x, Min(n, s.size.cols - s.c.x)))
  }

  function DeleteChars(s: Core, n: nat): (t: Core)
    requires Ok(s)
    ensures Ok(t)
  {
    ChangeRow(s, DeleteCells(s.b.grid[s.c.y], s.c.x, Min(n, s.size.cols - s.c.x)))
  }

  function EraseChars(s: Core, n: nat): (t: Core)
    requires Ok(s)
    ensures Ok(t)
  {
    ChangeRow(s, ClearCells(s.b.grid[s.c.y], s.c.x, Min(s.size.cols, s.c.x + n)))
  }

  // ---- control sequences -----------------------------------------------------------------------------

  predicate IsDigit(b: Byte) {
    0x30 <= b <= 0x39
  }

  function Digit(b: Byte): nat
    requires IsDigit(b)
  {
    b as int - 0x30
  }

  /** int(): the decimal digits of a parameter. */
  function Number(ds: seq<Byte>): nat
    requires forall k :: 0 <= k < |ds| ==> IsDigit(ds[k])
  {
    if ds == [] then 0
    else
      10 * Number(ds[..|ds| - 1]) + Digit(ds[|ds| - 1])
  }

  predicate AllDigits(ds: seq<Byte>) {
    ds != [] && forall k :: 0 <= k < |ds| ==> IsDigit(ds[k])
  }

  function Parameter(ds: seq<Byte>, default_: nat): nat {
    if AllDigits(ds) then Number(ds) else default_
  }

  /** lstrip("?<>=") */
  function Strip(ps: seq<Byte>): seq<Byte> {
    if ps != [] && 0x3C <= ps[0] <= 0x3F then Strip(ps[1..]) else ps
  }

  /** Where the first separator is, the length when there is none. */
  function Separator(ps: seq<Byte>): (k: nat)
    ensures k <= |ps| && (k < |ps| ==> ps[k] == 0x3B)
  {
    if ps == [] || ps[0] == 0x3B then 0 else 1 + Separator(ps[1..])
  }

  function Split(ps: seq<Byte>, default_: nat): (ns: seq<nat>)
    ensures ns != []
    decreases |ps|
  {
    var k := Separator(ps);
    [Parameter(ps[..k], default_)] + if k == |ps| then [] else Split(ps[k + 1..], default_)
  }

  function Parms(parm: seq<Byte>, default_: nat): (ns: seq<nat>)
    ensures ns != []
  {
    Split(Strip(parm), default_)
  }

  function SetAnsiModes(m: Modes, ps: seq<nat>, on: bool): Modes {
    if 4 in ps then m.(insert := on) else m
  }

  /** One private mode after another. */
  function SetModes(s: Core, ps: seq<nat>, on: bool): (t: Core)
    requires Ok(s)
    ensures Ok(t)
    decreases |ps|
  {
    if ps == [] then s
    else
      var m := ps[0];
      var t := if m == 7 then s.(m := s.m.(autowrap := on))
               else if m == 1047 || m == 1049 then AltScreen(s, on)
               else if m == 1048 then (if on then SaveCursor(s) else RestoreCursor(s))
               else s;
      SetModes(t, ps[1..], on)
  }

  function MoveTo(s: Core, x: nat, y: nat, wrap: bool): (t: Core)
    requires Ok(s) && x < s.size.cols && y < s.size.rows
    ensures Ok(t)
  {
    s.(c := Cursor(x, y, wrap))
  }

  /** A 1-based coordinate, kept on the screen. */
  function Clamp(n: nat, limit: nat): (k: nat)
    requires limit > 0
    ensures k < limit
  {
    Min(Max(1, n), limit) - 1
  }

  function SetRegion(s: Core, top0: nat, bot0: nat): (t: Core)
    requires Ok(s)
    ensures Ok(t)
  {
    var top := if top0 == 0 then 1 else top0;
    var bot := if bot0 == 0 then s.size.rows else bot0;
    if 1 <= top < bot <= s.size.rows then
      MoveTo(s.(r := Region(top - 1, bot - 1)), 0, top - 1, s.c.wrap)
    else s
  }

  function Nth(ns: seq<nat>, k: nat, default_: nat): nat {
    if k < |ns| then ns[k] else default_
  }

  /** The cursor movements. They stay inside the scrolling region vertically. */
  function MoveCursor(s: Core, final: Byte, n: nat): (t: Core)
    requires Ok(s)
    ensures Ok(t)
  {
    var c, up, down := s.c, Max(s.r.top, s.c.y - n), Min(s.r.bot, s.c.y + n);
    match final
    case 0x41 => MoveTo(s, c.x, up, false)                                       // A
    case 0x42 => MoveTo(s, c.x, down, false)                                     // B
    case 0x43 => MoveTo(s, Min(s.size.cols - 1, c.x + n), c.y, false)            // C
    case 0x44 => MoveTo(s, Max(0, c.x - n), c.y, false)                          // D
    case 0x45 => MoveTo(s, 0, down, c.wrap)                                      // E
    case 0x46 => MoveTo(s, 0, up, c.wrap)                                        // F
    case 0x47 => MoveTo(s, Clamp(n, s.size.cols), c.y, false)                    // G
    case 0x60 => MoveTo(s, Clamp(n, s.size.cols), c.y, false)                    // `
    case 0x64 => MoveTo(s, c.x, Clamp(n, s.size.rows), false)                    // d
    case _ => s
  }

  /** What a byte leads to: it is taken, or the code raises an exception; either way with what is left of
      the screen. */
  datatype Step = Taken(s: Core) | Raised(s: Core)

  /** The sequences that unpack exactly two parameters. */
  predicate Unpacks(final: Byte) {
    final == 0x48 || final == 0x66 || final == 0x72                              // H, f, r
  }

  /** _dispatch. A third parameter is one too many to unpack, and nothing has been changed by then. */
  function Dispatch(s: Core, final: Byte): (t: Step)
    requires Ok(s)
    ensures Ok(t.s)
  {
    if Unpacks(final) && |Parms(s.p.parm, 0)| > 2 then Raised(s) else Taken(Perform(s, final))
  }

  /** What a control sequence does. */
  function Perform(s: Core, final: Byte): (t: Core)
    requires Ok(s)
    ensures Ok(t)
  {
    var ps := Parms(s.p.parm, 0);
    var first := ps[0];
    var n := if first == 0 then 1 else first;
    match final
    case 0x68 => SetAnyModes(s, ps, true)                                        // h
    case 0x6C => SetAnyModes(s, ps, false)                                       // l
    case 0x48 => Address(s)                                                      // H
    case 0x66 => Address(s)                                                      // f
    case 0x4A => EraseDisplay(s, first)                                          // J
    case 0x4B => EraseLine(s, first)                                             // K
    case 0x4C => InsertLines(s, n)                                               // L
    case 0x4D => DeleteLines(s, n)                                               // M
    case 0x40 => InsertChars(s, n)                                               // @
    case 0x50 => DeleteChars(s, n)                                               // P
    case 0x62 => if s.last.Some? then PutMany(s, s.last.value, Min(n, s.size.cols * s.size.rows)) else s  // b
    case 0x58 => EraseChars(s, n)                                                // X
    case 0x53 => s.(b := ScrollUp(s.b, s.size, s.r, n))                          // S
    case 0x54 => s.(b := ScrollDown(s.b, s.size, s.r, n))                        // T
    case 0x72 => SetRegion(s, first, Nth(ps, 1, 0))                              // r
    case 0x73 => SaveCursor(s)                                                   // s
    case 0x75 => RestoreCursor(s)                                                // u
    case _ => MoveCursor(s, final, n)
  }

  function SetAnyModes(s: Core, ps: seq<nat>, on: bool): (t: Core)
    requires Ok(s)
    ensures Ok(t)
  {
    if s.p.parm != [] && s.p.parm[0] == 0x3F then SetModes(s, ps, on)
    else s.(m := SetAnsiModes(s.m, ps, on))
  }

  function Address(s: Core): (t: Core)
    requires Ok(s)
    ensures Ok(t)
  {
    var ps := Parms(s.p.parm, 1);
    MoveTo(s, Clamp(Nth(ps, 1, 1), s.size.cols), Clamp(ps[0], s.size.rows), false)
  }

  // ---- bytes -------------------------------------------------------------------------------------------

  const ESC: Byte := 0x1B

  /** The DEC line-drawing set. */
  function Graphic(b: Byte): Char {
    match b
    case 0x5F => 0x20 case 0x60 => 0x25C6 case 0x61 => 0x2592 case 0x62 => 0x2409 case 0x63 => 0x240C
    case 0x64 => 0x240D case 0x65 => 0x240A case 0x66 => 0xB0 case 0x67 => 0xB1 case 0x68 => 0x2424
    case 0x69 => 0x240B case 0x6A => 0x2518 case 0x6B => 0x2510 case 0x6C => 0x250C case 0x6D => 0x2514
    case 0x6E => 0x253C case 0x6F => 0x23BA case 0x70 => 0x23BB case 0x71 => 0x2500 case 0x72 => 0x23BC
    case 0x73 => 0x23BD case 0x74 => 0x251C case 0x75 => 0x2524 case 0x76 => 0x2534 case 0x77 => 0x252C
    case 0x78 => 0x2502 case 0x79 => 0x2264 case 0x7A => 0x2265 case 0x7B => 0x3C0 case 0x7C => 0x2260
    case 0x7D => 0xA3 case 0x7E => 0xB7
    case _ => b
  }

  function Enter(s: Core, mode: Mode): Core {
    s.(p := s.p.(mode := mode))
  }

  /** A 7-bit byte in the ground state. */
  function TextByte(s: Core, b: Byte): (t: Core)
    requires Ok(s) && b < 0x80
    ensures Ok(t)
  {
    match b
    case 0x1B => s.(p := s.p.(mode := Esc, parm := [], inter := []))
    case 0x0D => s.(c := s.c.(x := 0, wrap := false))
    case 0x0A => Newline(s)
    case 0x0B => Newline(s)
    case 0x0C => Newline(s)
    case 0x08 =>
      if s.c.wrap then s.(c := s.c.(wrap := false)) else if s.c.x > 0 then s.(c := s.c.(x := s.c.x - 1)) else s
    case 0x09 => Tab(s)
    case 0x0E => s.(m := s.m.(shifted := true))
    case 0x0F => s.(m := s.m.(shifted := false))
    case _ =>
      if b < 0x20 || b == 0x7F then s
      else Put(s, if s.m.graphics || s.m.shifted then Graphic(b) else b)
  }

  function ReverseIndex(s: Core): (t: Core)
    requires Ok(s)
    ensures Ok(t)
  {
    if s.c.y == s.r.top then s.(b := ScrollDown(s.b, s.size, s.r, 1))
    else if s.c.y > 0 then s.(c := s.c.(y := s.c.y - 1))
    else s
  }

  function EscByte(s: Core, b: Byte): (t: Core)
    requires Ok(s)
    ensures Ok(t)
  {
    var u := Enter(s, Text);
    match b
    case 0x5B => s.(p := s.p.(mode := Csi, parm := [], inter := []))             // [
    case 0x5D => s.(p := s.p.(mode := Osc, osc := []))                           // ]
    case 0x28 => Enter(s, Charset)                                               // (
    case 0x29 => Enter(s, Charset)
    case 0x2A => Enter(s, Charset)
    case 0x2B => Enter(s, Charset)
    case 0x23 => Enter(s, Hash)                                                  // #
    case 0x37 => SaveCursor(u)                                                   // 7
    case 0x38 => RestoreCursor(u)                                                // 8
    case 0x4D => ReverseIndex(u)                                                 // M
    case 0x44 => Newline(u)                                                      // D
    case 0x45 => Newline(u.(c := u.c.(x := 0)))                                  // E
    case 0x63 => Reset(u)                                                        // c
    case _ => u
  }

  function OscByte(s: Core, b: Byte): (t: Core)
    requires Ok(s)
    ensures Ok(t)
  {
    var osc := s.p.osc;
    if b == 0x07 || (b == 0x5C && osc != [] && osc[|osc| - 1] == ESC) then s.(p := s.p.(mode := Text, osc := []))
    else if |osc| + 1 > 512 then s.(p := s.p.(mode := Text, osc := []))
    else s.(p := s.p.(osc := osc + [b]))
  }

  function CsiByte(s: Core, b: Byte): (t: Step)
    requires Ok(s)
    ensures Ok(t.s)
  {
    if 0x30 <= b <= 0x3F then Taken(s.(p := s.p.(parm := s.p.parm + [b])))
    else if 0x20 <= b <= 0x2F then Taken(s.(p := s.p.(inter := s.p.inter + [b])))
    else Dispatch(Enter(s, Text), b)
  }

  /** Outside the ground state, and for 7-bit bytes in it: one byte on its own. */
  function ByteStep(s: Core, b: Byte): (t: Step)
    requires Ok(s) && (s.p.mode == Text ==> b < 0x80)
    ensures Ok(t.s)
  {
    match s.p.mode
    case Text => Taken(TextByte(s, b))
    case Esc => Taken(EscByte(s, b))
    case Csi => CsiByte(s, b)
    case Osc => Taken(OscByte(s, b))
    case Charset => Taken(Enter(s.(m := s.m.(graphics := b == 0x30)), Text))
    case Hash => Taken(Enter(s, Text))
  }

  // ---- when a byte raises ------------------------------------------------------------------------------

  function Separators(ps: seq<Byte>): nat {
    if ps == [] then 0 else (if ps[0] == 0x3B then 1 else 0) + Separators(ps[1..])
  }

  lemma {:induction false} SeparatorSplits(ps: seq<Byte>)
    ensures var k := Separator(ps);
      Separators(ps) == if k == |ps| then 0 else 1 + Separators(ps[k + 1..])
    decreases |ps|
  {
    if ps != [] && ps[0] != 0x3B {
      SeparatorSplits(ps[1..]);
      var k := Separator(ps[1..]);
      if k < |ps| - 1 { assert ps[1..][k + 1..] == ps[k + 2..]; }
    }
  }

  lemma SplitUnfolds(ps: seq<Byte>, default_: nat)
    ensures var k := Separator(ps);
      |Split(ps, default_)| == 1 + if k == |ps| then 0 else |Split(ps[k + 1..], default_)|
  {
    hide Parameter, Separator;
  }

  lemma {:induction false} SplitCounts(ps: seq<Byte>, default_: nat)
    ensures |Split(ps, default_)| == Separators(ps) + 1
    decreases |ps|
  {
    hide Split, Separators, Separator;
    SeparatorSplits(ps);
    SplitUnfolds(ps, default_);
    var k := Separator(ps);
    if k < |ps| { SplitCounts(ps[k + 1..], default_); }
  }

  lemma {:induction false} StripKeepsSeparators(ps: seq<Byte>)
    ensures Separators(Strip(ps)) == Separators(ps)
    decreases |ps|
  {
    if ps != [] && 0x3C <= ps[0] <= 0x3F { StripKeepsSeparators(ps[1..]); }
  }

  /** The parser and the byte alone decide: the end of a cursor address or a scrolling region with two
      separators or more, that is more than two parameters. */
  predicate Raises(p: Parser, b: Byte) {
    p.mode == Csi && Unpacks(b) && Separators(p.parm) >= 2
  }

  /** A byte raises exactly then, and leaves everything but the parser's mode as it was. */
  lemma ByteRaises(s: Core, b: Byte)
    requires Ok(s) && (s.p.mode == Text ==> b < 0x80)
    ensures ByteStep(s, b).Raised? <==> Raises(s.p, b)
    ensures ByteStep(s, b).Raised? ==> ByteStep(s, b).s == Enter(s, Text)
  {
    hide TextByte, EscByte, OscByte, Perform, Separators, Parms, Ok;
    ParmsCount(s.p.parm);
  }

  lemma ParmsCount(parm: seq<Byte>)
    ensures |Parms(parm, 0)| == Separators(parm) + 1
  {
    SplitCounts(Strip(parm), 0);
    StripKeepsSeparators(parm);
  }

  // ---- resize ------------------------------------------------------------------------------------------

  function ResizeRow(row: Row, cols: nat): (t: Row)
    ensures |t| == cols
  {
    if cols < |row| then row[..cols] else row + BlankRow(cols - |row|)
  }

  function RowAfterResize(g: Grid, cols: nat, y: nat): (t: Row)
    ensures |t| == cols
  {
    if y < |g| then ResizeRow(g[y], cols) else BlankRow(cols)
  }

  function ResizeGrid(g: Grid, old_: Size, size: Size): (t: Grid)
    requires GridOk(g, old_)
    ensures GridOk(t, size)
  {
    seq(size.rows, y requires 0 <= y < size.rows => RowAfterResize(g, size.cols, y))
  }

  function Resize(s: Core, rows0: int, cols0: int): (t: Core)
    requires Ok(s)
    ensures Ok(t)
  {
    var rows, cols := Max(1, rows0), Max(1, cols0);
    if rows == s.size.rows && cols == s.size.cols then s
    else
      var size := s.size.(rows := rows, cols := cols);
      var alt := if s.b.alt.Some? then Some(ResizeGrid(s.b.alt.value, s.size, size)) else None;
      s.(size := size, b := s.b.(grid := ResizeGrid(s.b.grid, s.size, size), alt := alt),
         r := Region(0, rows - 1), c := Cursor(Min(s.c.x, cols - 1), Min(s.c.y, rows - 1), false))
  }

  /** A new screen. */
  function Fresh(rows0: int, cols0: int, limit: nat): (s: Core)
    ensures Ok(s)
  {
    var size := Size(Max(1, rows0), Max(1, cols0), limit);
    Core(size, Buffers(BlankGrid(size), None, [], 0), Cursor(0, 0, false), Region(0, size.rows - 1),
         Modes(true, false, false, false), None, None, Parser(Text, [], [], []))
  }

  // ---- what the pieces mean ----------------------------------------------------------------------------

  /** Moving a row takes the blank one in at `to` and closes the gap at `from`; every other row keeps its
      place among the rest. */
  lemma MoveRowMeaning(g: Grid, size: Size, from: nat, to: nat, y: nat)
    requires GridOk(g, size) && from < size.rows && to < size.rows && y < size.rows
    ensures MoveRow(g, size, from, to)[y] ==
              if y == to then BlankRow(size.cols)
              else if from <= y < to then g[y + 1]
              else if to < y <= from then g[y - 1]
              else g[y]
  {
    hide BlankRow;
  }

  lemma InsertCellAt(row: Row, x: nat, k: nat)
    requires x < |row| && k < |row|
    ensures InsertCell(row, x)[k] == if k < x then row[k] else if k == x then SPACE else row[k - 1]
  {
  }

  lemma DeleteCellAt(row: Row, x: nat, k: nat)
    requires x < |row| && k < |row|
    ensures DeleteCell(row, x)[k] == if k < x then row[k] else if k + 1 < |row| then row[k + 1] else SPACE
  {
  }

  /** Inserting blanks at `x` shifts the rest of the line right, and what falls off the end is lost. */
  lemma {:induction false} InsertCellsMeaning(row: Row, x: nat, n: nat, k: nat)
    requires x < |row| && k < |row|
    ensures InsertCells(row, x, n)[k] == if k < x then row[k] else if k < x + n then SPACE else row[k - n]
  {
    hide InsertCell;
    if n > 0 {
      InsertCellAt(InsertCells(row, x, n - 1), x, k);
      InsertCellsMeaning(row, x, n - 1, if k > x then k - 1 else k);
    }
  }

  /** Deleting at `x` shifts the rest of the line left, and blanks come in at the end. */
  lemma {:induction false} DeleteCellsMeaning(row: Row, x: nat, n: nat, k: nat)
    requires x < |row| && k < |row|
    ensures DeleteCells(row, x, n)[k] == if k < x then row[k] else if k + n < |row| then row[k + n] else SPACE
  {
    hide DeleteCell;
    if n > 0 {
      DeleteCellAt(DeleteCells(row, x, n - 1), x, k);
      DeleteCellsMeaning(row, x, n - 1, if k >= x && k + 1 < |row| then k + 1 else k);
    }
  }

  /** Resizing keeps what is at the top left and blanks what is new. */
  lemma ResizeMeaning(s: Core, rows: nat, cols: nat, x: nat, y: nat)
    requires Ok(s) && rows > 0 && cols > 0 && x < cols && y < rows
    ensures
      var t := Resize(s, rows, cols);
      && t.size.rows == rows && t.size.cols == cols
      && t.b.grid[y][x] == (if y < s.size.rows && x < s.size.cols then s.b.grid[y][x] else SPACE)
      && (t.b.alt.Some? <==> s.b.alt.Some?)
      && (t.b.alt.Some? ==>
            t.b.alt.value[y][x] == if y < s.size.rows && x < s.size.cols then s.b.alt.value[y][x] else SPACE)
      && t.b.back == s.b.back && t.b.out == s.b.out
  {
    hide ResizeGrid;
    var size := s.size.(rows := rows, cols := cols);
    ResizedCell(s.b.grid, s.size, size, x, y);
    if s.b.alt.Some? { ResizedCell(s.b.alt.value, s.size, size, x, y); }
  }

  /** The cursor is brought onto the new screen, the region is the whole of it, and the rest stays; at the size
      it has, and with sizes below 1 counted as 1, nothing happens. */
  lemma ResizeCursor(s: Core, rows: int, cols: int)
    requires Ok(s)
    ensures var t, r, c := Resize(s, rows, cols), if rows < 1 then 1 else rows, if cols < 1 then 1 else cols;
      if r == s.size.rows && c == s.size.cols then t == s
      else
        && t.size == Size(r, c, s.size.limit) && t.r == Region(0, r - 1)
        && t.c == Cursor(if s.c.x >= c then c - 1 else s.c.x, if s.c.y >= r then r - 1 else s.c.y, false)
        && t == s.(size := t.size, b := t.b, r := t.r, c := t.c)
  {
    hide ResizeGrid;
  }

  lemma ResizedCell(g: Grid, old_: Size, size: Size, x: nat, y: nat)
    requires GridOk(g, old_) && x < size.cols && y < size.rows
    ensures GridOk(ResizeGrid(g, old_, size), size)
    ensures ResizeGrid(g, old_, size)[y][x] == if y < old_.rows && x < old_.cols then g[y][x] else SPACE
  {
    var t := ResizeGrid(g, old_, size);
    assert t[y] == RowAfterResize(g, size.cols, y);
  }
}
