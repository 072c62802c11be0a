/** What reaches the screen: every character, control code and escape sequence of tools/hypvt.py, cell by
    cell and from the bytes that ask for it. */
module Sequences {
  import opened Screen
  import opened Feeding

  // ---- characters ------------------------------------------------------------------------------------

  /** The cursor after a character: one column on, or in the last column with the wrap pending. */
  function Advanced(c: Cursor, cols: nat): Cursor {
    if c.x + 1 < cols then Cursor(c.x + 1, c.y, c.wrap) else Cursor(c.x, c.y, true)
  }

  /** A character that does not wrap: it is in the cell at the cursor. Without insert mode every other cell is
      as it was; with it the cells behind the cursor have moved one to the right. */
  lemma PutMeans(s: Core, ch: Char, x: nat, y: nat)
    requires Ok(s) && !(s.c.wrap && s.m.autowrap) && x < s.size.cols && y < s.size.rows
    ensures var t := Put(s, ch);
      && Ok(t) && t.b.grid[s.c.y][s.c.x] == ch
      && (y != s.c.y || x < s.c.x ==> t.b.grid[y][x] == s.b.grid[y][x])
      && (y == s.c.y && x > s.c.x ==> t.b.grid[y][x] == if s.m.insert then s.b.grid[y][x - 1] else s.b.grid[y][x])
      && t.b == s.b.(grid := t.b.grid) && t.c == Advanced(s.c, s.size.cols) && t.last == Some(ch)
      && t == s.(b := t.b, c := t.c, last := t.last)
  {
    hide InsertCell;
    var row := s.b.grid[s.c.y];
    InsertCellAt(row, s.c.x, x);
    PutCellMeans(s, ch);
  }

  lemma PutCellMeans(s: Core, ch: Char)
    requires Ok(s) && !(s.c.wrap && s.m.autowrap)
    ensures var t, row := Put(s, ch), s.b.grid[s.c.y];
      t == s.(b := s.b.(grid := s.b.grid[s.c.y := (if s.m.insert then InsertCell(row, s.c.x) else row)[s.c.x := ch]]),
              c := Advanced(s.c, s.size.cols), last := Some(ch))
  {
    hide InsertCell;
  }

  /** Row `y` once the lines of the region have moved up by one. */
  function RowAbove(s: Core, y: nat): Row
    requires Ok(s) && y < s.size.rows
  {
    if y == s.r.bot then BlankRow(s.size.cols)
    else if s.r.top <= y < s.r.bot then s.b.grid[y + 1]
    else s.b.grid[y]
  }

  /** A line feed: on the region's last line the region scrolls, elsewhere the cursor goes down if it can. */
  lemma LineFeedMeans(s: Core, y: nat)
    requires Ok(s) && y < s.size.rows
    ensures var t := Newline(s);
      && Ok(t) && t == s.(b := t.b, c := t.c)
      && t.c == Cursor(s.c.x, if s.c.y == s.r.bot || s.c.y + 1 == s.size.rows then s.c.y else s.c.y + 1, false)
      && (s.c.y == s.r.bot ==> t.b == ScrollUpOnce(s.b, s.size, s.r) && t.b.grid[y] == RowAbove(s, y))
      && (s.c.y != s.r.bot ==> t.b == s.b)
  {
    hide ScrollUpOnce, BlankRow;
    assert ScrollUp(s.b, s.size, s.r, 0) == s.b;
    assert ScrollUp(s.b, s.size, s.r, 1) == ScrollUpOnce(s.b, s.size, s.r);
    ScrolledRow(s, y);
  }

  lemma ScrolledRow(s: Core, y: nat)
    requires Ok(s) && y < s.size.rows
    ensures var t := ScrollUpOnce(s.b, s.size, s.r);
      t.grid[y] == RowAbove(s, y) && t.alt == s.b.alt
  {
    hide MoveRow, RowText, BlankRow;
    MoveRowMeaning(s.b.grid, s.size, s.r.top, s.r.bot, y);
  }

  /** A line that leaves the top of the primary screen goes to the end of the scrollback, without the white
      space at its end, and is counted; beyond the limit the oldest goes. */
  lemma ScrollKeepsLine(b: Buffers, size: Size, r: Region)
    requires BuffersOk(b, size) && r.top <= r.bot < size.rows
    ensures var t := ScrollUpOnce(b, size, r);
      if b.alt.None? && r.top == 0 then
        var all := b.back + [RowText(b.grid[0])];
        && t.out == b.out + 1
        && (|all| <= size.limit ==> t.back == all) && (|all| > size.limit ==> t.back == all[|all| - size.limit..])
      else t.out == b.out && t.back == b.back
  {
    hide MoveRow, RowText;
  }

  /** White space, code point by code point. */
  lemma SpacesAre(ch: Char)
    ensures IsSpace(ch) <==>
              || ch == 9 || ch == 10 || ch == 11 || ch == 12 || ch == 13
              || ch == 28 || ch == 29 || ch == 30 || ch == 31 || ch == 32 || ch == 133 || ch == 160 || ch == 5760
              || (0 <= ch - 8192 <= 10) || ch == 8232 || ch == 8233 || ch == 8239 || ch == 8287 || ch == 12288
  {
  }

  /** A row's text is the row up to its last character that is not white space. */
  lemma {:induction false} TextMeans(row: Row, k: nat)
    requires k < |row|
    ensures var text := RowText(row);
      && |text| <= |row| && text == row[..|text|] && (text != [] ==> !IsSpace(text[|text| - 1]))
      && (k >= |text| ==> IsSpace(row[k]))
  {
    hide IsSpace;
    var n := |row| - 1;
    if IsSpace(row[n]) {
      if n > 0 { TextMeans(row[..n], if k < n then k else 0); }
    }
  }

  /** A character with the wrap pending and autowrap on: it lands in the first column of the next line, or
      of the region's last line once that has scrolled. */
  lemma PutWraps(s: Core, ch: Char, x: nat, y: nat)
    requires Ok(s) && s.c.wrap && s.m.autowrap && x < s.size.cols && y < s.size.rows
    ensures
      var t := Put(s, ch);
      var to := if s.c.y == s.r.bot || s.c.y + 1 == s.size.rows then s.c.y else s.c.y + 1;
      var row := if s.c.y == s.r.bot then RowAbove(s, y) else s.b.grid[y];
      && Ok(t) && t.b.grid[to][0] == ch && t.c == Advanced(Cursor(0, to, false), s.size.cols)
      && (y != to ==> t.b.grid[y][x] == row[x])
      && (y == to && x > 0 ==> t.b.grid[y][x] == if s.m.insert then row[x - 1] else row[x])
      && t.b.alt == s.b.alt && t.last == Some(ch)
  {
    hide ScrollUpOnce, BlankRow, PutCell;
    var u := s.(c := s.c.(x := 0));
    LineFeedMeans(u, y);
    ScrolledRow(u, y);
    var v := Newline(u);
    PutMeans(v, ch, x, y);
    assert Put(v, ch) == PutCell(v, ch);
  }

  /** REP puts the last character again, so many times. */
  lemma {:induction false} RepeatMeans(s: Core, ch: Char, n: nat)
    requires Ok(s)
    ensures PutMany(s, ch, 0) == s && PutMany(s, ch, n + 1) == Put(PutMany(s, ch, n), ch)
    ensures n > 0 ==> PutMany(s, ch, n).last == Some(ch)
  {
    hide Newline, InsertCell, SetRow;
  }

  /** The printable characters of the DEC line-drawing set from 0x5F on, in order. */
  const LINES: seq<Char> :=
    [0x20, 0x25C6, 0x2592, 0x2409, 0x240C, 0x240D, 0x240A, 0xB0, 0xB1, 0x2424, 0x240B, 0x2518, 0x2510, 0x250C, 0x2514,
     0x253C, 0x23BA, 0x23BB, 0x2500, 0x23BC, 0x23BD, 0x251C, 0x2524, 0x2534, 0x252C, 0x2502, 0x2264, 0x2265, 0x3C0,
     0x2260, 0xA3, 0xB7]

  /** A printable byte in the ground state is its character, or the one that stands for it in the
      line-drawing set while that is selected; other bytes below 0x80 that are no control codes do
      nothing. */
  lemma TextMeans7(s: Core, b: Byte)
    requires Ok(s) && s.p.mode == Text && b < 0x80
    ensures 0x20 <= b < 0x7F ==>
              ByteStep(s, b) == Taken(Put(s, if (s.m.graphics || s.m.shifted) && b >= 0x5F then LINES[b - 0x5F] else b))
    ensures b == 0x7F || b < 0x07 || b == 0x07 || 0x10 <= b < 0x1B || 0x1C <= b < 0x20 ==> ByteStep(s, b) == Taken(s)
  {
    hide Put, Ok;
    if b < 0x7F { GraphicTable(b); }
  }

  lemma GraphicTable(b: Byte)
    requires b < 0x7F
    ensures Graphic(b) == if b >= 0x5F then LINES[b - 0x5F] else b
  {
  }

  // ---- control codes -----------------------------------------------------------------------------------

  /** Carriage return, line feed (and its two siblings), backspace, and the shifts. */
  lemma Controls(s: Core)
    requires Ok(s) && s.p.mode == Text
    ensures ByteStep(s, 0x0D) == Taken(s.(c := Cursor(0, s.c.y, false)))
    ensures ByteStep(s, 0x0A) == ByteStep(s, 0x0B) == ByteStep(s, 0x0C) == Taken(Newline(s))
    ensures ByteStep(s, 0x08) == Taken(s.(c := if s.c.wrap then Cursor(s.c.x, s.c.y, false)
                                              else Cursor(Max(0, s.c.x - 1), s.c.y, false)))
    ensures ByteStep(s, 0x0E) == Taken(s.(m := s.m.(shifted := true)))
    ensures ByteStep(s, 0x0F) == Taken(s.(m := s.m.(shifted := false)))
    ensures ByteStep(s, 0x1B) == Taken(s.(p := Parser(Esc, [], [], s.p.osc)))
  {
    hide Newline, Ok;
    assert s.c == Cursor(s.c.x, s.c.y, s.c.wrap);
  }

  /** A tab goes to the next column that is a multiple of eight, or to the last one. */
  lemma TabMeans(s: Core, k: nat)
    requires Ok(s) && s.p.mode == Text
    ensures var t := ByteStep(s, 0x09).s;
      && ByteStep(s, 0x09).Taken? && t == s.(c := Cursor(t.c.x, s.c.y, false))
      && s.c.x <= t.c.x < s.size.cols && (s.c.x < k < t.c.x ==> k % 8 != 0)
      && (t.c.x == s.size.cols - 1 || (t.c.x % 8 == 0 && s.c.x < t.c.x))
  {
    hide BuffersOk;
    NextStop(s.c.x, k);
  }

  lemma NextStop(x: nat, k: nat)
    ensures var t := (x / 8 + 1) * 8; x < t && t % 8 == 0 && (x < k < t ==> k % 8 != 0)
  {
  }

  // ---- escape sequences of two bytes -------------------------------------------------------------------

  /** The byte after ESC. */
  lemma Escapes(s: Core)
    requires Ok(s) && s.p.mode == Esc
    ensures var u := s.(p := s.p.(mode := Text));
      && ByteStep(s, 0x37) == Taken(SaveCursor(u)) && ByteStep(s, 0x38) == Taken(RestoreCursor(u))
      && ByteStep(s, 0x44) == Taken(Newline(u))
      && ByteStep(s, 0x45) == Taken(Newline(u.(c := Cursor(0, s.c.y, s.c.wrap))))
      && ByteStep(s, 0x4D) == Taken(ReverseIndex(u)) && ByteStep(s, 0x63) == Taken(Reset(u))
    ensures ByteStep(s, 0x5B) == Taken(s.(p := Parser(Csi, [], [], s.p.osc)))
    ensures ByteStep(s, 0x5D) == Taken(s.(p := s.p.(mode := Osc, osc := [])))
    ensures ByteStep(s, 0x23) == Taken(s.(p := s.p.(mode := Hash)))
  {
    hide Newline, ReverseIndex, Reset, RestoreCursor, Ok;
  }

  /** Any other byte after ESC does nothing but end the sequence, but for the four that select a character
      set, whose next byte says whether it is the line-drawing one; the byte after ESC # is skipped. */
  lemma OtherEscapes(s: Core, b: Byte, set_: Byte)
    requires Ok(s) && s.p.mode == Esc
    ensures 0x28 <= b <= 0x2B ==>
              && ByteStep(s, b) == Taken(s.(p := s.p.(mode := Charset)))
              && ByteStep(s.(p := s.p.(mode := Charset)), set_)
                 == Taken(s.(p := s.p.(mode := Text), m := s.m.(graphics := set_ == 0x30)))
    ensures ByteStep(s.(p := s.p.(mode := Hash)), set_) == Taken(s.(p := s.p.(mode := Text)))
    ensures !(0x28 <= b <= 0x2B)
            && b !in {0x23, 0x37, 0x38, 0x44, 0x45, 0x4D, 0x5B, 0x5D, 0x63} ==>
              ByteStep(s, b) == Taken(s.(p := s.p.(mode := Text)))
  {
    hide Newline, ReverseIndex, Reset, RestoreCursor, BuffersOk, Placed;
  }

  /** Reverse index: on the region's first line the region scrolls down, elsewhere the cursor goes up. */
  lemma ReverseIndexMeans(s: Core, y: nat)
    requires Ok(s) && y < s.size.rows
    ensures var t := ReverseIndex(s);
      && Ok(t)
      && (s.c.y == s.r.top ==>
            && t == s.(b := s.b.(grid := t.b.grid))
            && t.b.grid[y] == if y == s.r.top then BlankRow(s.size.cols)
                              else if s.r.top < y <= s.r.bot then s.b.grid[y - 1] else s.b.grid[y])
      && (s.c.y != s.r.top ==> t == s.(c := Cursor(s.c.x, Max(0, s.c.y - 1), s.c.wrap)))
  {
    hide MoveRow, BlankRow;
    assert MoveRows(s.b.grid, s.size, s.r.bot, s.r.top, 0) == s.b.grid;
    assert MoveRows(s.b.grid, s.size, s.r.bot, s.r.top, 1) == MoveRow(s.b.grid, s.size, s.r.bot, s.r.top);
    MoveRowMeaning(s.b.grid, s.size, s.r.bot, s.r.top, y);
    assert s.c == Cursor(s.c.x, s.c.y, s.c.wrap);
  }

  /** Saving and restoring give back the cursor and the character set, on a screen of the same size. */
  lemma SaveRestores(s: Core, t: Core)
    requires Ok(s) && Ok(t) && t.saved == SaveCursor(s).saved && t.size.rows == s.size.rows && t.size.cols == s.size.cols
    ensures SaveCursor(s) == s.(saved := SaveCursor(s).saved)
    ensures RestoreCursor(t) == t.(c := Cursor(s.c.x, s.c.y, false),
                                   m := t.m.(graphics := s.m.graphics, shifted := s.m.shifted))
  {
    hide BuffersOk;
  }

  /** On a smaller screen the cursor is brought back onto it; with nothing saved it goes home. */
  lemma RestoreClamps(s: Core)
    requires Ok(s)
    ensures var t := RestoreCursor(s);
      if s.saved.None? then t == s.(c := Cursor(0, 0, s.c.wrap))
      else t.c == Cursor(Min(s.saved.value.x, s.size.cols - 1), Min(s.saved.value.y, s.size.rows - 1), false)
           && t.b == s.b && t.r == s.r && t.saved == s.saved
  {
    hide BuffersOk;
  }

  /** ESC c: a blank primary screen, the modes and the region as they start; the scrollback stays. */
  lemma ResetMeans(s: Core, x: nat, y: nat)
    requires Ok(s) && x < s.size.cols && y < s.size.rows
    ensures var t := Reset(s);
      && t.b.grid[y][x] == 0x20 && t.b.alt.None? && t.b.back == s.b.back && t.b.out == s.b.out
      && t.c == Cursor(0, 0, false) && t.r == Region(0, s.size.rows - 1) && t.saved.None?
      && t.m == Modes(true, false, false, false) && t.size == s.size && t.last == s.last
  {
  }

  /** A new screen is blank, with autowrap on, insert off and the region the whole screen. */
  lemma FreshMeans(rows: int, cols: int, limit: nat, x: nat, y: nat)
    ensures var s := Fresh(rows, cols, limit);
      && s.size == Size(Max(1, rows), Max(1, cols), limit)
      && (y < s.size.rows && x < s.size.cols ==> s.b.grid[y][x] == 0x20)
      && s.b.alt.None? && s.b.back == [] && s.b.out == 0 && s.c == Cursor(0, 0, false)
      && s.r == Region(0, s.size.rows - 1) && s.m == Modes(true, false, false, false) && s.p.mode == Text
  {
  }

  /** Entering the alternate screen saves the cursor, parks the screen and starts on a blank one; entering it
      again does nothing, nor does leaving it twice. */
  lemma EnterAlternate(s: Core, x: nat, y: nat)
    requires Ok(s) && x < s.size.cols && y < s.size.rows
    ensures var t := AltScreen(s, true);
      if s.b.alt.Some? then t == s
      else
        && t.b.grid[y][x] == 0x20 && t.b == s.b.(grid := t.b.grid, alt := Some(s.b.grid))
        && t.c == Cursor(0, 0, s.c.wrap) && t.r == Region(0, s.size.rows - 1)
        && t == s.(saved := SaveCursor(s).saved, b := t.b, c := t.c, r := t.r)
    ensures s.b.alt.None? ==> AltScreen(s, false) == s
    ensures s.b.alt.Some? ==>
              AltScreen(s, false)
              == RestoreCursor(s.(b := s.b.(grid := s.b.alt.value, alt := None), r := Region(0, s.size.rows - 1)))
  {
  }

  /** An operating-system command takes no screen: it ends at BEL, at ESC \, or after 512 bytes. */
  lemma OscMeans(s: Core, b: Byte)
    requires Ok(s) && s.p.mode == Osc
    ensures var t := ByteStep(s, b).s;
      && ByteStep(s, b).Taken? && t == s.(p := t.p)
      && var ends := b == 0x07 || (b == 0x5C && s.p.osc != [] && s.p.osc[|s.p.osc| - 1] == 0x1B) || |s.p.osc| >= 512;
         t.p == if ends then s.p.(mode := Text, osc := []) else s.p.(osc := s.p.osc + [b])
  {
    hide Ok;
  }

  // ---- parameters ----------------------------------------------------------------------------------------

  /** A number in decimal. */
  function Decimal(n: nat): (ds: seq<Byte>)
    ensures ds != []
  {
    if n < 10 then [0x30 + n] else Decimal(n / 10) + [0x30 + n % 10]
  }

  /** Numbers with semicolons between them. */
  function Joined(ns: seq<nat>): seq<Byte>
    requires ns != []
  {
    if |ns| == 1 then Decimal(ns[0]) else Decimal(ns[0]) + [0x3B] + Joined(ns[1..])
  }

  lemma {:induction false} DecimalIsNumber(n: nat)
    ensures AllDigits(Decimal(n)) && Number(Decimal(n)) == n
  {
    if n >= 10 {
      DecimalIsNumber(n / 10);
      assert Decimal(n)[..|Decimal(n)| - 1] == Decimal(n / 10);
    } else {
      assert Number([]) == 0 && [0x30 + n][..0] == [];
    }
  }

  /** A separator ends the first parameter, when none is in it. */
  lemma {:induction false} SeparatorAfter(a: seq<Byte>, rest: seq<Byte>)
    requires forall k :: 0 <= k < |a| ==> a[k] != 0x3B
    ensures Separator(a) == |a| && Separator(a + [0x3B] + rest) == |a|
  {
    if a != [] {
      SeparatorAfter(a[1..], rest);
      assert (a + [0x3B] + rest)[1..] == a[1..] + [0x3B] + rest;
    }
  }

  lemma DigitsOnly(ds: seq<Byte>)
    requires AllDigits(ds)
    ensures forall k :: 0 <= k < |ds| ==> ds[k] != 0x3B
    ensures ds != [] && !(0x3C <= ds[0] <= 0x3F)
  {
  }

  lemma SplitFirst(a: seq<Byte>, rest: seq<Byte>, d: nat)
    requires forall k :: 0 <= k < |a| ==> a[k] != 0x3B
    ensures Split(a, d) == [Parameter(a, d)] && Split(a + [0x3B] + rest, d) == [Parameter(a, d)] + Split(rest, d)
  {
    hide Parameter, Separator;
    SeparatorAfter(a, rest);
    var ps := a + [0x3B] + rest;
    assert ps[..|a|] == a && ps[|a| + 1..] == rest && a[..|a|] == a;
  }

  lemma {:induction false} SplitJoined(ns: seq<nat>, d: nat)
    requires ns != []
    ensures Split(Joined(ns), d) == ns
  {
    hide Number, AllDigits, Split;
    DecimalIsNumber(ns[0]);
    DigitsOnly(Decimal(ns[0]));
    SplitFirst(Decimal(ns[0]), if |ns| == 1 then [] else Joined(ns[1..]), d);
    if |ns| > 1 {
      SplitJoined(ns[1..], d);
      assert [ns[0]] + ns[1..] == ns;
    } else {
      assert [ns[0]] == ns;
    }
  }

  lemma NothingToStrip(ps: seq<Byte>)
    requires ps != [] ==> !(0x3C <= ps[0] <= 0x3F)
    ensures Strip(ps) == ps && Strip([0x3F] + ps) == ps
  {
    assert ([0x3F] + ps)[1..] == ps;
  }

  /** The parameters stand behind the private marks, less-than, equals, greater-than and question mark. */
  lemma {:induction false} StripMeans(ps: seq<Byte>, k: nat)
    requires k < |ps|
    ensures var skip := |ps| - |Strip(ps)|;
      && |Strip(ps)| <= |ps| && Strip(ps) == ps[skip..]
      && (k < skip ==> ps[k] == 0x3C || ps[k] == 0x3D || ps[k] == 0x3E || ps[k] == 0x3F)
      && (k == skip ==> ps[k] != 0x3C && ps[k] != 0x3D && ps[k] != 0x3E && ps[k] != 0x3F)
  {
    if 0x3C <= ps[0] <= 0x3F && |ps| > 1 {
      StripMeans(ps[1..], if k > 0 then k - 1 else 0);
    }
  }

  /** What is written in decimal is read, with or without the question mark of a private sequence; a
      parameter that is left out, or is no number, is the default. */
  lemma ParmsRead(ns: seq<nat>, d: nat)
    requires ns != []
    ensures Parms(Joined(ns), d) == ns && Parms([0x3F] + Joined(ns), d) == ns
    ensures Parms([], d) == [d] && Parms([0x3B] + Joined(ns), d) == [d] + ns
  {
    hide Split, Strip, Parameter;
    DecimalIsNumber(ns[0]);
    DigitsOnly(Decimal(ns[0]));
    JoinedStart(ns);
    NothingToStrip(Joined(ns));
    NothingToStrip([]);
    NothingToStrip([0x3B] + Joined(ns));
    SplitJoined(ns, d);
    SplitFirst([], Joined(ns), d);
    assert [] + [0x3B] + Joined(ns) == [0x3B] + Joined(ns);
    ParameterLeftOut(d);
  }

  lemma ParameterLeftOut(d: nat)
    ensures Parameter([], d) == d
  {
  }

  lemma JoinedStart(ns: seq<nat>)
    requires ns != []
    ensures Joined(ns) != [] && Joined(ns)[0] == Decimal(ns[0])[0]
  {
  }

  lemma NotANumber(ds: seq<Byte>, d: nat, k: nat)
    requires k < |ds| && !(0x30 <= ds[k] <= 0x39)
    ensures Parameter(ds, d) == d
  {
  }

  // ---- control sequences ---------------------------------------------------------------------------------

  /** A byte of a control sequence, before its last. */
  predicate Inner(b: Byte) {
    0x30 <= b <= 0x3F
  }

  /** The terminal that a byte leaves, with the bytes not decoded yet as they were. */
  function WithPending(step: Step, pending: seq<Byte>): Fed {
    match step
    case Taken(s) => Done(Terminal(s, pending))
    case Raised(s) => Failed(Terminal(s, pending))
  }

  /** A control sequence in the ground state: ESC, a bracket, parameters, and a last byte that is none of
      them and no intermediate. Nothing happens before the last byte, and then what it stands for, with the
      parameters as they were sent. */
  lemma SequenceRuns(t: Terminal, parm: seq<Byte>, final: Byte)
    requires Ok(t.core) && t.core.p.mode == Text && (forall k :: 0 <= k < |parm| ==> Inner(parm[k]))
    requires !(0x20 <= final <= 0x3F)
    ensures var s := t.core.(p := Parser(Text, parm, [], t.core.p.osc));
      Bytes(t, [0x1B, 0x5B] + parm + [final]) == WithPending(Dispatch(s, final), t.pending)
  {
    hide Dispatch, Bytes, OneByte, BuffersOk, Placed, ByteStep;
    Introduced(t);
    var v := t.(core := t.core.(p := Parser(Csi, [], [], t.core.p.osc)));
    BytesAppend(t, [0x1B, 0x5B], parm);
    Collected(v, parm);
    assert [] + parm == parm;
    var w := v.(core := v.core.(p := Parser(Csi, parm, [], t.core.p.osc)));
    BytesAppend(t, [0x1B, 0x5B] + parm, [final]);
    SingleByte(w, final);
    FinalByte(w, final);
  }

  lemma Introduced(t: Terminal)
    requires Ok(t.core) && t.core.p.mode == Text
    ensures Bytes(t, [0x1B, 0x5B]) == Done(t.(core := t.core.(p := Parser(Csi, [], [], t.core.p.osc))))
  {
    hide TextByte, EscByte, ByteStep, BuffersOk, Placed;
    Controls(t.core);
    var v := t.(core := t.core.(p := Parser(Esc, [], [], t.core.p.osc)));
    Escapes(v.core);
    assert [0x1B, 0x5B][1..] == [0x5B];
    SingleByte(v, 0x5B);
    assert Bytes(v, [0x5B]) == OneByte(v, 0x5B);
  }

  lemma {:induction false} Collected(t: Terminal, parm: seq<Byte>)
    requires Ok(t.core) && t.core.p.mode == Csi && (forall k :: 0 <= k < |parm| ==> Inner(parm[k]))
    ensures Bytes(t, parm) == Done(t.(core := t.core.(p := t.core.p.(parm := t.core.p.parm + parm))))
    decreases |parm|
  {
    hide Dispatch, BuffersOk, Placed;
    if parm == [] {
      assert t.core.p.parm + [] == t.core.p.parm;
    } else {
      var u := t.(core := t.core.(p := t.core.p.(parm := t.core.p.parm + [parm[0]])));
      assert OneByte(t, parm[0]) == Done(u);
      Collected(u, parm[1..]);
      assert t.core.p.parm + [parm[0]] + parm[1..] == t.core.p.parm + parm;
    }
  }

  lemma FinalByte(t: Terminal, final: Byte)
    requires Ok(t.core) && t.core.p.mode == Csi && !(0x20 <= final <= 0x3F)
    ensures OneByte(t, final) == WithPending(Dispatch(t.core.(p := t.core.p.(mode := Text)), final), t.pending)
  {
    hide Dispatch, BuffersOk, Placed;
  }

  // ---- what the sequences do -------------------------------------------------------------------------------

  /** The first parameter, and the count it stands for: 0 counts as 1. */
  function First(s: Core): nat {
    Parms(s.p.parm, 0)[0]
  }

  function Times(s: Core): (n: nat)
    ensures n > 0
  {
    if First(s) == 0 then 1 else First(s)
  }

  /** H and f: to a row and a column, counted from 1, 1 when left out, brought onto the screen; a third
      parameter raises. */
  lemma Addressed(s: Core, row: nat, col: nat)
    requires Ok(s)
    ensures Parms(s.p.parm, 1) == [row, col] || (Parms(s.p.parm, 1) == [row] && col == 1) ==>
              && Dispatch(s, 0x48) == Dispatch(s, 0x66) == Taken(s.(c := Dispatch(s, 0x48).s.c))
              && Dispatch(s, 0x48).s.c
                 == Cursor((if col == 0 then 1 else if col > s.size.cols then s.size.cols else col) - 1,
                           (if row == 0 then 1 else if row > s.size.rows then s.size.rows else row) - 1, false)
    ensures |Parms(s.p.parm, 1)| > 2 ==> Dispatch(s, 0x48) == Dispatch(s, 0x66) == Raised(s)
  {
    hide Split, Strip, BuffersOk;
    SplitCounts(Strip(s.p.parm), 0);
    SplitCounts(Strip(s.p.parm), 1);
  }

  /** From the bytes: ESC [ row ; col H. */
  lemma CursorAddress(t: Terminal, row: nat, col: nat)
    requires Ok(t.core) && t.core.p.mode == Text
    ensures var u := Bytes(t, [0x1B, 0x5B] + Joined([row, col]) + [0x48]);
      && u.Done? && u.t.pending == t.pending
      && u.t.core == t.core.(c := u.t.core.c, p := u.t.core.p) && u.t.core.p.mode == Text
      && u.t.core.c == Cursor((if col == 0 then 1 else if col > t.core.size.cols then t.core.size.cols else col) - 1,
                              (if row == 0 then 1 else if row > t.core.size.rows then t.core.size.rows else row) - 1, false)
  {
    hide Bytes, Dispatch, Joined, Parms, BuffersOk;
    JoinedInner([row, col]);
    ParmsRead([row, col], 1);
    SequenceRuns(t, Joined([row, col]), 0x48);
    Addressed(t.core.(p := Parser(Text, Joined([row, col]), [], t.core.p.osc)), row, col);
  }

  lemma {:induction false} DecimalInner(n: nat, k: nat)
    requires k < |Decimal(n)|
    ensures Inner(Decimal(n)[k])
  {
    if n >= 10 && k < |Decimal(n)| - 1 { DecimalInner(n / 10, k); }
  }

  lemma {:induction false} JoinedInner(ns: seq<nat>)
    requires ns != []
    ensures forall k :: 0 <= k < |Joined(ns)| ==> Inner(Joined(ns)[k])
  {
    forall k | 0 <= k < |Decimal(ns[0])| ensures Inner(Decimal(ns[0])[k]) { DecimalInner(ns[0], k); }
    if |ns| > 1 { JoinedInner(ns[1..]); }
  }

  /** A, B, C, D: up and down inside the region, right and left inside the line, by so many. */
  lemma Moves(s: Core)
    requires Ok(s)
    ensures var c, n := s.c, Times(s);
      && Dispatch(s, 0x41) == Taken(s.(c := Cursor(c.x, if c.y - n < s.r.top then s.r.top else c.y - n, false)))
      && Dispatch(s, 0x42) == Taken(s.(c := Cursor(c.x, if c.y + n > s.r.bot then s.r.bot else c.y + n, false)))
      && Dispatch(s, 0x43) == Taken(s.(c := Cursor(if c.x + n >= s.size.cols then s.size.cols - 1 else c.x + n, c.y, false)))
      && Dispatch(s, 0x44) == Taken(s.(c := Cursor(if c.x < n then 0 else c.x - n, c.y, false)))
  {
    hide Parms, BuffersOk;
  }

  /** E and F: to the start of a line further down or up inside the region. */
  lemma MovesLines(s: Core)
    requires Ok(s)
    ensures var c, n := s.c, Times(s);
      && Dispatch(s, 0x45) == Taken(s.(c := Cursor(0, if c.y + n > s.r.bot then s.r.bot else c.y + n, c.wrap)))
      && Dispatch(s, 0x46) == Taken(s.(c := Cursor(0, if c.y - n < s.r.top then s.r.top else c.y - n, c.wrap)))
  {
    hide Parms, BuffersOk;
  }

  /** G, ` and d: to a column, to a row, counted from 1. */
  lemma MovesTo(s: Core)
    requires Ok(s)
    ensures var c, n := s.c, Times(s);
      && Dispatch(s, 0x47) == Dispatch(s, 0x60)
         == Taken(s.(c := Cursor((if n > s.size.cols then s.size.cols else n) - 1, c.y, false)))
      && Dispatch(s, 0x64) == Taken(s.(c := Cursor(c.x, (if n > s.size.rows then s.size.rows else n) - 1, false)))
  {
    hide Parms, BuffersOk;
  }

  /** K: from the cursor on, up to and with the cursor, or the whole line. */
  lemma ErasesLine(s: Core, x: nat, y: nat)
    requires Ok(s) && x < s.size.cols && y < s.size.rows
    ensures Dispatch(s, 0x4B).Taken?
    ensures var t := Dispatch(s, 0x4B).s;
      var gone := y == s.c.y && (First(s) == 0 ==> x >= s.c.x) && (First(s) == 1 ==> x <= s.c.x);
      && t.b.grid[y][x] == (if gone then 0x20 else s.b.grid[y][x])
      && t == s.(b := s.b.(grid := t.b.grid), c := Cursor(s.c.x, s.c.y, false))
  {
    hide Parms;
    LineErased(s, First(s), x, y);
  }

  lemma LineErased(s: Core, mode: nat, x: nat, y: nat)
    requires Ok(s) && x < s.size.cols && y < s.size.rows
    ensures var t := EraseLine(s, mode);
      var gone := y == s.c.y && (mode == 0 ==> x >= s.c.x) && (mode == 1 ==> x <= s.c.x);
      && t.b.grid[y][x] == (if gone then 0x20 else s.b.grid[y][x])
      && t == s.(b := s.b.(grid := t.b.grid), c := Cursor(s.c.x, s.c.y, false))
  {
  }

  /** J 0 and 1: from the cursor to the end of the screen, or from its start up to and with the cursor. */
  lemma ErasesPart(s: Core, x: nat, y: nat)
    requires Ok(s) && First(s) < 2 && x < s.size.cols && y < s.size.rows
    ensures Dispatch(s, 0x4A).Taken?
    ensures var t := Dispatch(s, 0x4A).s;
      var gone := if First(s) == 0 then y > s.c.y || (y == s.c.y && x >= s.c.x)
                  else y < s.c.y || (y == s.c.y && x <= s.c.x);
      && t.b.grid[y][x] == (if gone then 0x20 else s.b.grid[y][x])
      && t == s.(b := s.b.(grid := t.b.grid), c := Cursor(s.c.x, s.c.y, false))
  {
    hide Parms, EraseLine;
    LineErased(s, First(s), x, y);
    RowsCleared(EraseLine(s, First(s)).b.grid, s.size, s.c.y + 1, s.size.rows, y);
    RowsCleared(EraseLine(s, First(s)).b.grid, s.size, 0, s.c.y, y);
  }

  lemma RowsCleared(g: Grid, size: Size, lo: nat, hi: nat, y: nat)
    requires GridOk(g, size) && y < size.rows
    ensures ClearRows(g, size, lo, hi)[y] == if lo <= y < hi then BlankRow(size.cols) else g[y]
  {
    assert ClearRows(g, size, lo, hi)[y] == RowAfterClear(g, size, lo, hi, y);
  }

  /** J 2 and above: the whole screen. What had text on it goes to the scrollback on the primary screen. */
  lemma ErasesAll(s: Core, x: nat, y: nat)
    requires Ok(s) && First(s) >= 2 && x < s.size.cols && y < s.size.rows
    ensures Dispatch(s, 0x4A).Taken?
    ensures var t := Dispatch(s, 0x4A).s;
      && t.b.grid[y][x] == 0x20 && t.b.alt == s.b.alt
      && t == s.(b := t.b, c := Cursor(s.c.x, s.c.y, false))
      && (s.b.alt.Some? ==> t.b.back == s.b.back && t.b.out == s.b.out)
      && (s.b.alt.None? ==>
            var all := Preserve(s.b.back, s.b.grid);
            t.b.back == (if |all| > s.size.limit then all[|all| - s.size.limit..] else all)
            && t.b.out == s.b.out + (|all| - |s.b.back|))
  {
    hide Parms, Preserve, ClearRows;
    RowsCleared(s.b.grid, s.size, 0, s.size.rows, y);
  }

  /** X: so many cells from the cursor on. */
  lemma ErasesCells(s: Core, x: nat, y: nat)
    requires Ok(s) && x < s.size.cols && y < s.size.rows
    ensures Dispatch(s, 0x58).Taken?
    ensures var t := Dispatch(s, 0x58).s;
      && t.b.grid[y][x] == (if y == s.c.y && s.c.x <= x < s.c.x + Times(s) then 0x20 else s.b.grid[y][x])
      && t == s.(b := s.b.(grid := t.b.grid))
  {
    hide Parms;
  }

  /** @: so many blanks at the cursor, the rest of the line moving right. P: so many cells taken out there,
      the rest moving left. */
  lemma ShiftsCells(s: Core, x: nat, y: nat)
    requires Ok(s) && x < s.size.cols && y < s.size.rows
    ensures Dispatch(s, 0x40).Taken? && Dispatch(s, 0x50).Taken?
    ensures var i, n, row := Dispatch(s, 0x40).s, Times(s), s.b.grid[y];
      && i.b.grid[y][x] == (if y != s.c.y || x < s.c.x then row[x] else if x < s.c.x + n then 0x20 else row[x - n])
      && i == s.(b := s.b.(grid := i.b.grid))
    ensures var d, n, row := Dispatch(s, 0x50).s, Times(s), s.b.grid[y];
      && d.b.grid[y][x] == (if y != s.c.y || x < s.c.x then row[x] else if x + n < s.size.cols then row[x + n] else 0x20)
      && d == s.(b := s.b.(grid := d.b.grid))
  {
    hide Parms, InsertCells, DeleteCells;
    var k := Min(Times(s), s.size.cols - s.c.x);
    InsertCellsMeaning(s.b.grid[s.c.y], s.c.x, k, x);
    DeleteCellsMeaning(s.b.grid[s.c.y], s.c.x, k, x);
  }

  /** Moving the row at `from` to `to` again and again: the rows between shift by so many, and as many blank
      ones come in. */
  lemma {:induction false} RowsMoved(g: Grid, size: Size, from: nat, to: nat, n: nat, y: nat)
    requires GridOk(g, size) && from < size.rows && to < size.rows && y < size.rows
    ensures from <= to ==>
              MoveRows(g, size, from, to, n)[y] ==
                if y < from || y > to then g[y] else if y + n <= to then g[y + n] else BlankRow(size.cols)
    ensures to <= from ==>
              MoveRows(g, size, from, to, n)[y] ==
                if y < to || y > from then g[y] else if y >= to + n then g[y - n] else BlankRow(size.cols)
    decreases n
  {
    hide MoveRow, BlankRow;
    if n > 0 {
      var h := MoveRows(g, size, from, to, n - 1);
      MoveRowMeaning(h, size, from, to, y);
      RowsMoved(g, size, from, to, n - 1, y);
      if from <= y < to { RowsMoved(g, size, from, to, n - 1, y + 1); }
      if to < y <= from { RowsMoved(g, size, from, to, n - 1, y - 1); }
    }
  }

  /** L and M: so many blank lines at the cursor, or so many lines taken out there, inside the region; and
      to the first column. Outside the region nothing happens. */
  lemma ShiftsLines(s: Core, y: nat)
    requires Ok(s) && y < s.size.rows
    ensures Dispatch(s, 0x4C).Taken? && Dispatch(s, 0x4D).Taken?
    ensures !(s.r.top <= s.c.y <= s.r.bot) ==> Dispatch(s, 0x4C) == Dispatch(s, 0x4D) == Taken(s)
    ensures s.r.top <= s.c.y <= s.r.bot ==>
      var i, d, n, g := Dispatch(s, 0x4C).s, Dispatch(s, 0x4D).s, Times(s), s.b.grid;
      && i.b.grid[y] == (if y < s.c.y || y > s.r.bot then g[y] else if y >= s.c.y + n then g[y - n]
                         else BlankRow(s.size.cols))
      && d.b.grid[y] == (if y < s.c.y || y > s.r.bot then g[y] else if y + n <= s.r.bot then g[y + n]
                         else BlankRow(s.size.cols))
      && i == s.(b := s.b.(grid := i.b.grid), c := Cursor(0, s.c.y, s.c.wrap))
      && d == s.(b := s.b.(grid := d.b.grid), c := Cursor(0, s.c.y, s.c.wrap))
  {
    hide Parms, MoveRows, BlankRow;
    var k := Min(Times(s), s.r.bot - s.c.y + 1);
    if s.r.top <= s.c.y <= s.r.bot {
      RowsMoved(s.b.grid, s.size, s.r.bot, s.c.y, k, y);
      RowsMoved(s.b.grid, s.size, s.c.y, s.r.bot, k, y);
    }
  }

  /** S and T: the region scrolls up or down so many lines. */
  lemma Scrolls(s: Core, y: nat)
    requires Ok(s) && y < s.size.rows
    ensures Dispatch(s, 0x53) == Taken(s.(b := Dispatch(s, 0x53).s.b))
    ensures Dispatch(s, 0x54) == Taken(s.(b := s.b.(grid := Dispatch(s, 0x54).s.b.grid)))
    ensures var u, d, n, g, r := Dispatch(s, 0x53).s, Dispatch(s, 0x54).s, Times(s), s.b.grid, s.r;
      && u.b == ScrollUp(s.b, s.size, r, n) && u.b.alt == s.b.alt
      && u.b.grid[y] == (if y < r.top || y > r.bot then g[y] else if y + n <= r.bot then g[y + n] else BlankRow(s.size.cols))
      && d.b.grid[y] == (if y < r.top || y > r.bot then g[y] else if y >= r.top + n then g[y - n] else BlankRow(s.size.cols))
  {
    hide Parms, MoveRows, BlankRow, ScrollUp;
    RowsMoved(s.b.grid, s.size, s.r.top, s.r.bot, Times(s), y);
    RowsMoved(s.b.grid, s.size, s.r.bot, s.r.top, Times(s), y);
    ScrollUpGrid(s.b, s.size, s.r, Times(s));
  }

  lemma {:induction false} ScrollUpGrid(b: Buffers, size: Size, r: Region, n: nat)
    requires BuffersOk(b, size) && r.top <= r.bot < size.rows
    ensures ScrollUp(b, size, r, n).grid == MoveRows(b.grid, size, r.top, r.bot, n)
    ensures ScrollUp(b, size, r, n).alt == b.alt
  {
    hide MoveRow, RowText;
    if n > 0 { ScrollUpGrid(b, size, r, n - 1); }
  }

  /** b: the last character again, so many times and at most a screenful. */
  lemma Repeats(s: Core)
    requires Ok(s)
    ensures Dispatch(s, 0x62) == Taken(if s.last.None? then s
                                      else PutMany(s, s.last.value, if Times(s) < s.size.cols * s.size.rows then Times(s)
                                                                    else s.size.cols * s.size.rows))
  {
    hide Parms, PutMany, BuffersOk;
  }

  /** r: the scrolling region, counted from 1, the whole screen by default; the cursor goes to its start. One
      that has less than two lines or leaves the screen is ignored; a third parameter raises. */
  lemma SetsRegion(s: Core, top: nat, bot: nat)
    requires Ok(s)
    ensures Parms(s.p.parm, 0) == [top, bot] || (Parms(s.p.parm, 0) == [top] && bot == 0) ==>
      var lo, hi := if top == 0 then 1 else top, if bot == 0 then s.size.rows else bot;
      Dispatch(s, 0x72) == Taken(if lo < hi <= s.size.rows
                                 then s.(r := Region(lo - 1, hi - 1), c := Cursor(0, lo - 1, s.c.wrap)) else s)
    ensures |Parms(s.p.parm, 0)| > 2 ==> Dispatch(s, 0x72) == Raised(s)
  {
    hide Parms, BuffersOk;
  }

  /** s and u: save and restore. Any other last byte, among those not named here, does nothing. */
  lemma OtherSequences(s: Core, final: Byte)
    requires Ok(s)
    ensures Dispatch(s, 0x73) == Taken(SaveCursor(s)) && Dispatch(s, 0x75) == Taken(RestoreCursor(s))
    ensures (final < 0x40 || 0x4E <= final < 0x50 || 0x51 <= final < 0x53 || 0x55 <= final < 0x58 || 0x59 <= final < 0x60
             || final == 0x49 || final == 0x61 || final == 0x63 || final == 0x65 || final == 0x67
             || 0x69 <= final < 0x6C || 0x6D <= final < 0x72 || final == 0x74 || final > 0x75) ==>
              Dispatch(s, final) == Taken(s)
  {
    hide Parms, BuffersOk, RestoreCursor;
  }

  // ---- modes -----------------------------------------------------------------------------------------------

  /** h and l without a question mark: 4 is insert mode. */
  lemma AnsiModes(s: Core)
    requires Ok(s) && (s.p.parm == [] || s.p.parm[0] != 0x3F)
    ensures var ps := Parms(s.p.parm, 0);
      && Dispatch(s, 0x68) == Taken(if 4 in ps then s.(m := s.m.(insert := true)) else s)
      && Dispatch(s, 0x6C) == Taken(if 4 in ps then s.(m := s.m.(insert := false)) else s)
  {
    hide Parms, BuffersOk;
  }

  /** With it, one after another: 7 is autowrap, 1047 and 1049 the alternate screen, 1048 the saved cursor. */
  lemma PrivateModes(s: Core)
    requires Ok(s) && s.p.parm != [] && s.p.parm[0] == 0x3F
    ensures var ps := Parms(s.p.parm, 0);
      Dispatch(s, 0x68) == Taken(SetModes(s, ps, true)) && Dispatch(s, 0x6C) == Taken(SetModes(s, ps, false))
  {
    hide Parms, BuffersOk, SetModes;
  }

  lemma ModesInTurn(s: Core, m: nat, rest: seq<nat>, on: bool)
    requires Ok(s)
    ensures SetModes(s, [], on) == s
    ensures Ok(AltScreen(s, on)) && Ok(SaveCursor(s)) && Ok(RestoreCursor(s)) && Ok(s.(m := s.m.(autowrap := on)))
    ensures
      var t := if m == 7 then s.(m := s.m.(autowrap := on))
               else if m == 1047 || m == 1049 then AltScreen(s, on)
               else if m == 1048 && on then SaveCursor(s)
               else if m == 1048 then RestoreCursor(s)
               else s;
      SetModes(s, [m] + rest, on) == SetModes(t, rest, on)
  {
    hide AltScreen, RestoreCursor, BuffersOk;
    assert ([m] + rest)[0] == m && ([m] + rest)[1..] == rest;
  }

  // ---- UTF-8 -----------------------------------------------------------------------------------------------

  /** The characters there are: surrogates are none. */
  predicate Scalar(cp: nat) {
    cp < 0xD800 || 0xE000 <= cp < 0x11_0000
  }

  /** UTF-8, as RFC 3629 defines it. */
  function Utf8(cp: nat): (bs: seq<Byte>)
    requires Scalar(cp)
    ensures bs != []
  {
    if cp < 0x80 then [cp]
    else if cp < 0x800 then [0xC0 + cp / 64, 0x80 + cp % 64]
    else if cp < 0x1_0000 then [0xE0 + cp / 4096, 0x80 + cp / 64 % 64, 0x80 + cp % 64]
    else [0xF0 + cp / 262144, 0x80 + cp / 4096 % 64, 0x80 + cp / 64 % 64, 0x80 + cp % 64]
  }

  /** Every character is decoded from its bytes, ... */
  lemma DecodesUtf8(cp: nat)
    requires Scalar(cp)
    ensures Decode(Utf8(cp)) == Some(cp)
  {
    hide Decode, Utf8, Scalar;
    if cp < 0x80 { Decodes1(cp); } else if cp < 0x800 { Decodes2(cp); }
    else if cp < 0x1_0000 { Decodes3(cp); } else { Decodes4(cp); }
  }

  lemma Decodes1(cp: nat)
    requires cp < 0x80
    ensures Scalar(cp) && Decode(Utf8(cp)) == Some(cp)
  {
  }

  lemma Decodes2(cp: nat)
    requires 0x80 <= cp < 0x800
    ensures Scalar(cp) && Decode(Utf8(cp)) == Some(cp)
  {
    hide Six;
    Digits64(cp);
    LeadOf(cp / 64, 32, 0xC0);
    ContinuationOf(cp % 64);
  }

  lemma Decodes3(cp: nat)
    requires 0x800 <= cp < 0x1_0000 && Scalar(cp)
    ensures Decode(Utf8(cp)) == Some(cp)
  {
    hide Six;
    Digits64(cp);
    LeadOf(cp / 4096, 16, 0xE0);
    ContinuationOf(cp / 64 % 64);
    ContinuationOf(cp % 64);
  }

  lemma Decodes4(cp: nat)
    requires 0x1_0000 <= cp && Scalar(cp)
    ensures Decode(Utf8(cp)) == Some(cp)
  {
    hide Six;
    Digits64(cp);
    LeadOf(cp / 262144, 8, 0xF0);
    ContinuationOf(cp / 4096 % 64);
    ContinuationOf(cp / 64 % 64);
    ContinuationOf(cp % 64);
  }

  lemma Digits64(cp: nat)
    ensures cp == cp / 64 * 64 + cp % 64
    ensures cp == cp / 4096 * 4096 + cp / 64 % 64 * 64 + cp % 64
    ensures cp == cp / 262144 * 262144 + cp / 4096 % 64 * 4096 + cp / 64 % 64 * 64 + cp % 64
  {
    var a, b, c := cp / 64, cp / 4096, cp / 262144;
    assert b == a / 64 && c == b / 64;
    assert cp == 64 * a + cp % 64 && a == 64 * b + a % 64 && b == 64 * c + b % 64;
  }

  lemma LeadOf(q: nat, m: nat, lead: nat)
    requires q < m && (m == 32 || m == 16 || m == 8) && (m == 32 ==> lead == 0xC0) && (m == 16 ==> lead == 0xE0)
    requires m == 8 ==> lead == 0xF0
    ensures (lead + q) % m == q
  {
  }

  lemma ContinuationOf(q: nat)
    requires q < 64
    ensures Six(0x80 + q) == q && IsContinuation(0x80 + q)
  {
  }

  /** ... and nothing else is decoded. */
  lemma DecodedIsUtf8(p: seq<Byte>)
    requires Decode(p).Some?
    ensures Scalar(Decode(p).value) && Utf8(Decode(p).value) == p
  {
    hide Utf8;
    if |p| == 1 { Encoded1(p); } else if |p| == 2 { Encoded2(p); } else if |p| == 3 { Encoded3(p); } else { Encoded4(p); }
  }

  lemma Encoded1(p: seq<Byte>)
    requires |p| == 1 && Decode(p).Some?
    ensures Scalar(Decode(p).value) && Utf8(Decode(p).value) == p
  {
  }

  lemma Encoded2(p: seq<Byte>)
    requires |p| == 2 && Decode(p).Some?
    ensures Scalar(Decode(p).value) && Utf8(Decode(p).value) == p
  {
    hide Six;
    var a, b := p[0] - 0xC0, p[1] - 0x80;
    LeadOf(a, 32, 0xC0);
    ContinuationOf(b);
    TwoBack(a, b, Decode(p).value);
  }

  lemma Encoded3(p: seq<Byte>)
    requires |p| == 3 && Decode(p).Some?
    ensures Scalar(Decode(p).value) && Utf8(Decode(p).value) == p
  {
    hide Six;
    var a, b, c := p[0] - 0xE0, p[1] - 0x80, p[2] - 0x80;
    LeadOf(a, 16, 0xE0);
    ContinuationOf(b);
    ContinuationOf(c);
    ThreeBack(a, b, c, Decode(p).value);
  }

  lemma Encoded4(p: seq<Byte>)
    requires |p| == 4 && Decode(p).Some?
    ensures Scalar(Decode(p).value) && Utf8(Decode(p).value) == p
  {
    hide Six;
    var a, b, c, d := p[0] - 0xF0, p[1] - 0x80, p[2] - 0x80, p[3] - 0x80;
    LeadOf(a, 8, 0xF0);
    ContinuationOf(b);
    ContinuationOf(c);
    ContinuationOf(d);
    FourBack(a, b, c, d, Decode(p).value);
  }

  lemma TwoBack(a: nat, b: nat, cp: nat)
    requires b < 64 && cp == a * 64 + b
    ensures cp / 64 == a && cp % 64 == b
  {
  }

  lemma ThreeBack(a: nat, b: nat, c: nat, cp: nat)
    requires b < 64 && c < 64 && cp == a * 4096 + b * 64 + c
    ensures cp / 4096 == a && cp / 64 % 64 == b && cp % 64 == c
  {
    TwoBack(a * 64 + b, c, cp);
    TwoBack(a, b, a * 64 + b);
    assert cp / 4096 == cp / 64 / 64;
  }

  lemma FourBack(a: nat, b: nat, c: nat, d: nat, cp: nat)
    requires b < 64 && c < 64 && d < 64 && cp == a * 262144 + b * 4096 + c * 64 + d
    ensures cp / 262144 == a && cp / 4096 % 64 == b && cp / 64 % 64 == c && cp % 64 == d
  {
    TwoBack(a * 4096 + b * 64 + c, d, cp);
    ThreeBack(a, b, c, a * 4096 + b * 64 + c);
    assert cp / 262144 == cp / 64 / 4096 && cp / 4096 == cp / 64 / 64;
  }

  /** What feed holds back is the beginning of a character, as it should be. */
  lemma BeginningsArePartial(cp: nat, k: nat)
    requires Scalar(cp) && 0 < k < |Utf8(cp)|
    ensures Partial(Utf8(cp)[..k])
  {
  }

  /** A byte beyond ASCII in the ground state is kept until the bytes so far are a character, which is put on
      the screen; four that are none are replaced by one U+FFFD. */
  lemma HighByte(t: Terminal, b: Byte)
    requires Ok(t.core) && t.core.p.mode == Text && b >= 0x80
    ensures var p := t.pending + [b];
      && (forall cp: nat :: Scalar(cp) && Utf8(cp) == p ==> OneByte(t, b) == Done(Terminal(Put(t.core, cp), [])))
      && ((forall cp: nat :: Scalar(cp) ==> Utf8(cp) != p) ==>
            OneByte(t, b) == Done(if |p| >= 4 then Terminal(Put(t.core, 0xFFFD), []) else Terminal(t.core, p)))
  {
    hide Put, Ok, Decode, Utf8;
    var p := t.pending + [b];
    if Decode(p).Some? { DecodedIsUtf8(p); }
    forall cp: nat | Scalar(cp) && Utf8(cp) == p ensures Decode(p) == Some(cp) { DecodesUtf8(cp); }
  }
}
