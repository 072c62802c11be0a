/** How the terminal takes bytes in (tools/hypvt.py): UTF-8 decoded across reads of the serial port. */
module Feeding {
  import opened Screen

  // ---- UTF-8 -----------------------------------------------------------------------------------------

  predicate IsContinuation(b: Byte) {
    0x80 <= b < 0xC0
  }

  /** How many bytes the character that starts with `b` has. */
  function Need(b: Byte): nat {
    if b < 0xE0 then 2 else if b < 0xF0 then 3 else 4
  }

  /** The second byte of a well-formed character: neither overlong, nor a surrogate, nor past U+10FFFF. */
  predicate SecondFits(lead: Byte, b: Byte) {
    if lead == 0xE0 then 0xA0 <= b < 0xC0
    else if lead == 0xED then 0x80 <= b < 0xA0
    else if lead == 0xF0 then 0x90 <= b < 0xC0
    else if lead == 0xF4 then 0x80 <= b < 0x90
    else IsContinuation(b)
  }

  function Six(b: Byte): nat {
    b % 64
  }

  /** bytes.decode("utf-8") of one character, None when it fails. */
  function Decode(p: seq<Byte>): Option<Char> {
    if |p| == 1 && p[0] < 0x80 then Some(p[0])
    else if |p| == 2 && 0xC2 <= p[0] < 0xE0 && SecondFits(p[0], p[1]) then Some(p[0] % 32 * 64 + Six(p[1]))
    else if |p| == 3 && 0xE0 <= p[0] < 0xF0 && SecondFits(p[0], p[1]) && IsContinuation(p[2]) then
      Some(p[0] % 16 * 4096 + Six(p[1]) * 64 + Six(p[2]))
    else if |p| == 4 && 0xF0 <= p[0] < 0xF5 && SecondFits(p[0], p[1]) && IsContinuation(p[2]) && IsContinuation(p[3])
    then Some(p[0] % 8 * 262144 + Six(p[1]) * 4096 + Six(p[2]) * 64 + Six(p[3]))
    else None
  }

  /** The first bytes of a character, not all of them. */
  predicate Partial(p: seq<Byte>) {
    p != [] && p[0] >= 0xC0 && |p| < Need(p[0]) && forall k :: 1 <= k < |p| ==> IsContinuation(p[k])
  }

  // ---- the screen with its undecoded bytes -----------------------------------------------------------

  datatype Terminal = Terminal(core: Core, pending: seq<Byte>)

  const REPLACEMENT: Char := 0xFFFD

  /** A byte of a character in the ground state. */
  function DecodeByte(t: Terminal, b: Byte): (u: Terminal)
    requires Ok(t.core)
    ensures Ok(u.core)
  {
    var p := t.pending + [b];
    var ch := Decode(p);
    if ch.Some? then Terminal(Put(t.core, ch.value), [])
    else if |p| >= 4 then Terminal(Put(t.core, REPLACEMENT), [])
    else t.(pending := p)
  }

  /** What a call leads to: it returns, or it raises; either way with what is left of the terminal. */
  datatype Fed = Done(t: Terminal) | Failed(t: Terminal)

  function OneByte(t: Terminal, b: Byte): (u: Fed)
    requires Ok(t.core)
    ensures Ok(u.t.core)
  {
    if t.core.p.mode == Text && b >= 0x80 then Done(DecodeByte(t, b))
    else match ByteStep(t.core, b)
      case Taken(s) => Done(t.(core := s))
      case Raised(s) => Failed(t.(core := s))
  }

  /** One byte after another, until one raises: the rest are lost. */
  function Bytes(t: Terminal, bs: seq<Byte>): (u: Fed)
    requires Ok(t.core)
    ensures Ok(u.t.core)
    decreases |bs|
  {
    if bs == [] then Done(t)
    else match OneByte(t, bs[0])
      case Done(v) => Bytes(v, bs[1..])
      case Failed(v) => Failed(v)
  }

  /** How many bytes at the end are held back; the search looks back at most three. */
  function Held(d: seq<Byte>, back: nat): (k: nat)
    requires 1 <= back
    ensures k <= |d|
    decreases 4 - back
  {
    if back >= 4 || back > |d| then 0
    else
      var b := d[|d| - back];
      if b < 0x80 then 0
      else if b >= 0xC0 then (if back < Need(b) then back else 0)
      else Held(d, back + 1)
  }

  /** Exactly when the last `k` bytes are held back: a lead byte with nothing but continuation bytes behind
      it, fewer than it asks for. */
  lemma HeldExactly(d: seq<Byte>, k: nat)
    requires 1 <= k <= |d|
    ensures Held(d, 1) == k <==>
              && d[|d| - k] >= 0xC0
              && (forall j :: |d| - k < j < |d| ==> 0x80 <= d[j] < 0xC0)
              && (k == 1 || (k == 2 && d[|d| - k] >= 0xE0) || (k == 3 && d[|d| - k] >= 0xF0))
  {
    if |d| >= 2 && 0x80 <= d[|d| - 1] < 0xC0 {
      assert Held(d, 1) == Held(d, 2);
      if |d| >= 3 && 0x80 <= d[|d| - 2] < 0xC0 {
        assert Held(d, 2) == Held(d, 3);
      }
    }
  }

  /** feed */
  function Feed(t: Terminal, chunk: seq<Byte>): (u: Fed)
    requires Ok(t.core)
    ensures Ok(u.t.core)
  {
    if chunk == [] then Done(t)
    else
      var d := t.pending + chunk;
      var cut := |d| - Held(d, 1);
      Bytes(Terminal(t.core, d[cut..]), d[..cut])
  }

  /** One call after another. The first that raises ends them, as nothing above catches it. */
  function FeedAll(t: Terminal, chunks: seq<seq<Byte>>): (u: Fed)
    requires Ok(t.core)
    ensures Ok(u.t.core)
    decreases |chunks|
  {
    if chunks == [] then Done(t)
    else match Feed(t, chunks[0])
      case Done(v) => FeedAll(v, chunks[1..])
      case Failed(v) => Failed(v)
  }

  // ---- streams of characters -------------------------------------------------------------------------

  datatype Item = Ascii(b: Byte) | Wide(bs: seq<Byte>)

  predicate WellFormed(i: Item) {
    match i
    case Ascii(b) => b < 0x80
    case Wide(bs) => |bs| >= 2 && Decode(bs).Some?
  }

  function Encoded(i: Item): seq<Byte> {
    match i
    case Ascii(b) => [b]
    case Wide(bs) => bs
  }

  function Stream(items: seq<Item>): seq<Byte>
    decreases |items|
  {
    if items == [] then [] else Encoded(items[0]) + Stream(items[1..])
  }

  predicate AllWellFormed(items: seq<Item>) {
    forall k :: 0 <= k < |items| ==> WellFormed(items[k])
  }

  predicate AllAscii(items: seq<Item>) {
    forall k :: 0 <= k < |items| ==> items[k].Ascii?
  }

  // The parser alone: it decides which bytes are in the ground state, whatever is on the screen.

  function ParserStep(p: Parser, b: Byte): Parser {
    match p.mode
    case Text => if b == ESC then p.(mode := Esc, parm := [], inter := []) else p
    case Esc =>
      if b == 0x5B then p.(mode := Csi, parm := [], inter := [])
      else if b == 0x5D then p.(mode := Osc, osc := [])
      else if 0x28 <= b <= 0x2B then p.(mode := Charset)
      else if b == 0x23 then p.(mode := Hash)
      else p.(mode := Text)
    case Csi =>
      if 0x30 <= b <= 0x3F then p.(parm := p.parm + [b])
      else if 0x20 <= b <= 0x2F then p.(inter := p.inter + [b])
      else p.(mode := Text)
    case Osc =>
      if b == 0x07 || (b == 0x5C && p.osc != [] && p.osc[|p.osc| - 1] == ESC) || |p.osc| + 1 > 512
      then p.(mode := Text, osc := []) else p.(osc := p.osc + [b])
    case Charset => p.(mode := Text)
    case Hash => p.(mode := Text)
  }

  /** Every character beyond ASCII arrives in the ground state. */
  predicate Ground(p: Parser, items: seq<Item>)
    decreases |items|
  {
    items != [] ==>
      match items[0]
      case Ascii(b) => Ground(ParserStep(p, b), items[1..])
      case Wide(_) => p.mode == Text && Ground(p, items[1..])
  }

  /** No byte of the stream ends a sequence that raises. */
  predicate Quiet(p: Parser, items: seq<Item>)
    decreases |items|
  {
    items != [] ==>
      match items[0]
      case Ascii(b) => !Raises(p, b) && Quiet(ParserStep(p, b), items[1..])
      case Wide(_) => Quiet(p, items[1..])
  }

  /** What the stream means: 7-bit bytes one by one, and each character beyond them once. */
  function Meaning(s: Core, items: seq<Item>): (t: Core)
    requires Ok(s) && AllWellFormed(items) && Ground(s.p, items)
    ensures Ok(t)
    decreases |items|
  {
    if items == [] then s
    else match items[0]
      case Ascii(b) =>
        ByteStepParser(s, b);
        Meaning(ByteStep(s, b).s, items[1..])
      case Wide(bs) =>
        PutParser(s, Decode(bs).value);
        Meaning(Put(s, Decode(bs).value), items[1..])
  }

  // ---- what a byte does to the parser ----------------------------------------------------------------

  lemma NewlineParser(s: Core)
    requires Ok(s)
    ensures Newline(s).p == s.p
  {
    hide GridOk, BuffersOk;
  }

  lemma PutParser(s: Core, ch: Char)
    requires Ok(s)
    ensures Put(s, ch).p == s.p
  {
    hide Newline, GridOk;
    NewlineParser(s.(c := s.c.(x := 0)));
  }

  lemma {:induction false} PutManyParser(s: Core, ch: Char, n: nat)
    requires Ok(s)
    ensures PutMany(s, ch, n).p == s.p
  {
    hide Put, Ok;
    if n > 0 {
      PutManyParser(s, ch, n - 1);
      PutParser(PutMany(s, ch, n - 1), ch);
    }
  }

  lemma AltScreenParser(s: Core, on: bool)
    requires Ok(s)
    ensures AltScreen(s, on).p == s.p
  {
    hide GridOk, BlankGrid;
  }

  lemma {:induction false} SetModesParser(s: Core, ps: seq<nat>, on: bool)
    requires Ok(s)
    ensures SetModes(s, ps, on).p == s.p
    decreases |ps|
  {
    hide GridOk, AltScreen, BuffersOk;
    if ps != [] {
      AltScreenParser(s, on);
      var m := ps[0];
      var t := if m == 7 then s.(m := s.m.(autowrap := on))
               else if m == 1047 || m == 1049 then AltScreen(s, on)
               else if m == 1048 then (if on then SaveCursor(s) else RestoreCursor(s))
               else s;
      SetModesParser(t, ps[1..], on);
    }
  }

  lemma EraseParser(s: Core, mode: nat)
    requires Ok(s)
    ensures EraseDisplay(s, mode).p == s.p && EraseLine(s, mode).p == s.p
  {
    hide GridOk, ClearRows, ClearCells, PreserveAll, SetRow;
  }

  lemma PerformParser(s: Core, final: Byte)
    requires Ok(s)
    ensures Perform(s, final).p == s.p
  {
    hide GridOk, BuffersOk, Placed, EraseDisplay, EraseLine, SetModes, PutMany, Parms, Nth, SetRow;
    hide InsertCells, DeleteCells, ClearCells, MoveRows, ScrollUp, ScrollDown, Clamp, SetAnsiModes;
    var ps := Parms(s.p.parm, 0);
    EraseParser(s, ps[0]);
    SetModesParser(s, ps, true);
    SetModesParser(s, ps, false);
    if s.last.Some? {
      var n := if ps[0] == 0 then 1 else ps[0];
      PutManyParser(s, s.last.value, Min(n, s.size.cols * s.size.rows));
    }
  }

  lemma TextByteParser(s: Core, b: Byte)
    requires Ok(s) && b < 0x80 && s.p.mode == Text
    ensures TextByte(s, b).p == ParserStep(s.p, b)
  {
    hide GridOk, BuffersOk, Placed, Newline, Put, Graphic, Tab;
    NewlineParser(s);
    PutParser(s, if s.m.graphics || s.m.shifted then Graphic(b) else b);
    TabParser(s);
  }

  lemma TabParser(s: Core)
    requires Ok(s)
    ensures Tab(s).p == s.p
  {
  }

  lemma EscByteParser(s: Core, b: Byte)
    requires Ok(s) && s.p.mode == Esc
    ensures EscByte(s, b).p == ParserStep(s.p, b)
  {
    hide GridOk, BuffersOk, Newline, ScrollDown, BlankGrid;
    var u := Enter(s, Text);
    NewlineParser(u);
    NewlineParser(u.(c := u.c.(x := 0)));
  }

  lemma ByteStepParser(s: Core, b: Byte)
    requires Ok(s) && (s.p.mode == Text ==> b < 0x80)
    ensures ByteStep(s, b).s.p == ParserStep(s.p, b)
  {
    hide TextByte, EscByte, Perform, BuffersOk, Parms;
    match s.p.mode
    case Text => TextByteParser(s, b);
    case Esc => EscByteParser(s, b);
    case Csi => PerformParser(Enter(s, Text), b);
    case _ =>
  }

  // ---- holding back --------------------------------------------------------------------------------

  lemma WideShape(bs: seq<Byte>)
    requires |bs| >= 2 && Decode(bs).Some?
    ensures bs[0] >= 0xC2 && |bs| == Need(bs[0]) <= 4
    ensures forall k :: 1 <= k < |bs| ==> IsContinuation(bs[k])
  {
  }

  lemma PartialShape(p: seq<Byte>)
    requires Partial(p)
    ensures |p| <= 3 && Decode(p).None?
  {
  }

  /** Read back from the end, what is held is the partial character the data ends in. */
  lemma HeldPartial(d: seq<Byte>, tail: seq<Byte>, back: nat)
    requires Partial(tail) && |tail| <= |d| && tail <= d[|d| - |tail|..] && 1 <= back <= |tail|
    ensures Held(d, back) == |tail|
    decreases |tail| - back
  {
    PartialShape(tail);
    assert forall k :: 0 <= k < |tail| ==> d[|d| - |tail| + k] == tail[k];
    assert d[|d| - back] == tail[|tail| - back];
    if back < |tail| { HeldPartial(d, tail, back + 1); }
  }

  lemma HeldNothing(d: seq<Byte>, bs: seq<Byte>, back: nat)
    requires |bs| >= 2 && Decode(bs).Some? && |bs| <= |d| && bs == d[|d| - |bs|..] && 1 <= back <= |bs|
    ensures Held(d, back) == 0
    decreases |bs| - back
  {
    WideShape(bs);
    assert d[|d| - back] == bs[|bs| - back];
    if back < |bs| { HeldNothing(d, bs, back + 1); }
  }

  lemma {:induction false} LastItem(items: seq<Item>)
    requires items != [] && AllWellFormed(items)
    ensures var s, e := Stream(items), Encoded(items[|items| - 1]); |e| <= |s| && s[|s| - |e|..] == e
    decreases |items|
  {
    if |items| > 1 {
      LastItem(items[1..]);
      var e, r := Encoded(items[|items| - 1]), Stream(items[1..]);
      assert (Encoded(items[0]) + r)[|Encoded(items[0])| + (|r| - |e|)..] == r[|r| - |e|..];
    } else {
      assert Stream(items[1..]) == [];
    }
  }

  /** Exactly the partial character at the end of the data is held back. */
  lemma HeldIsTail(items: seq<Item>, tail: seq<Byte>)
    requires AllWellFormed(items) && (tail == [] || Partial(tail)) && Stream(items) + tail != []
    ensures Held(Stream(items) + tail, 1) == |tail|
  {
    hide Decode;
    var d := Stream(items) + tail;
    if tail != [] {
      HeldPartial(d, tail, 1);
    } else {
      assert d == Stream(items);
      LastItem(items);
      match items[|items| - 1]
      case Ascii(b) => assert d[|d| - 1] == b;
      case Wide(bs) => HeldNothing(d, bs, 1);
    }
  }

  // ---- running through a stream --------------------------------------------------------------------

  lemma {:induction false} BytesAppend(t: Terminal, a: seq<Byte>, b: seq<Byte>)
    requires Ok(t.core)
    ensures Bytes(t, a + b) == match Bytes(t, a) { case Done(u) => Bytes(u, b) case Failed(u) => Failed(u) }
    decreases |a|
  {
    hide OneByte, Ok;
    if a == [] {
      assert a + b == b;
    } else {
      OneByteOk(t, a[0]);
      assert (a + b)[1..] == a[1..] + b;
      if OneByte(t, a[0]).Done? { BytesAppend(OneByte(t, a[0]).t, a[1..], b); }
    }
  }

  lemma OneByteOk(t: Terminal, b: Byte)
    requires Ok(t.core)
    ensures Ok(OneByte(t, b).t.core)
  {
  }

  /** No proper beginning of a character decodes. */
  lemma PrefixUndecoded(bs: seq<Byte>, k: nat)
    requires |bs| >= 2 && Decode(bs).Some? && 0 < k < |bs|
    ensures Decode(bs[..k]).None? && k < 4 && Partial(bs[..k])
  {
    WideShape(bs);
  }

  /** A character put together byte by byte, from a clean start. */
  lemma {:induction false} Accumulate(s: Core, bs: seq<Byte>, k: nat)
    requires Ok(s) && |bs| >= 2 && Decode(bs).Some? && k < |bs| && s.p.mode == Text
    ensures Bytes(Terminal(s, bs[..k]), bs[k..]) == Done(Terminal(Put(s, Decode(bs).value), []))
    decreases |bs| - k
  {
    hide Decode, Put, Ok, Partial;
    WideHigh(bs, k);
    var t, u := Terminal(s, bs[..k]), bs[k..];
    assert bs[..k] + [bs[k]] == bs[..k + 1] && u[1..] == bs[k + 1..] && u[0] == bs[k];
    if k + 1 == |bs| {
      assert bs[..k + 1] == bs;
    } else {
      PrefixUndecoded(bs, k + 1);
      Accumulate(s, bs, k + 1);
    }
  }

  lemma WideHigh(bs: seq<Byte>, k: nat)
    requires |bs| >= 2 && Decode(bs).Some? && k < |bs|
    ensures bs[k] >= 0x80
  {
    WideShape(bs);
  }

  /** A 7-bit byte that does not raise. */
  lemma QuietByte(t: Terminal, b: Byte)
    requires Ok(t.core) && b < 0x80
    ensures OneByte(t, b).t == t.(core := ByteStep(t.core, b).s)
    ensures OneByte(t, b).Failed? <==> Raises(t.core.p, b)
  {
    hide ByteStep, Raises;
    ByteRaises(t.core, b);
  }

  /** From a clean start, a stream in the ground state that does not raise is decoded as it was meant. */
  lemma {:induction false} CleanRun(s: Core, items: seq<Item>)
    requires Ok(s) && AllWellFormed(items) && Ground(s.p, items) && Quiet(s.p, items)
    ensures Bytes(Terminal(s, []), Stream(items)) == Done(Terminal(Meaning(s, items), []))
    decreases |items|
  {
    hide Decode, Put, ByteStep, Placed, BuffersOk, ParserStep, Raises, OneByte;
    if items != [] {
      BytesAppend(Terminal(s, []), Encoded(items[0]), Stream(items[1..]));
      match items[0]
      case Ascii(b) =>
        ByteStepParser(s, b);
        QuietByte(Terminal(s, []), b);
        SingleByte(Terminal(s, []), b);
        CleanRun(ByteStep(s, b).s, items[1..]);
      case Wide(bs) =>
        PutParser(s, Decode(bs).value);
        assert bs[..0] == [] && bs[0..] == bs;
        Accumulate(s, bs, 0);
        CleanRun(Put(s, Decode(bs).value), items[1..]);
    }
  }

  lemma SingleByte(t: Terminal, b: Byte)
    requires Ok(t.core)
    ensures Bytes(t, [b]) == OneByte(t, b)
  {
    hide OneByte;
    OneByteOk(t, b);
    assert [b][1..] == [];
  }

  /** 7-bit bytes never touch the undecoded ones. */
  lemma {:induction false} AsciiRun(t: Terminal, items: seq<Item>)
    requires Ok(t.core) && AllWellFormed(items) && AllAscii(items) && Ground(t.core.p, items)
    requires Quiet(t.core.p, items)
    ensures Bytes(t, Stream(items)) == Done(Terminal(Meaning(t.core, items), t.pending))
    decreases |items|
  {
    hide Decode, Put, ByteStep, Placed, BuffersOk, ParserStep, Raises, OneByte;
    if items != [] {
      var b := items[0].b;
      ByteStepParser(t.core, b);
      QuietByte(t, b);
      BytesAppend(t, [b], Stream(items[1..]));
      SingleByte(t, b);
      AsciiRun(t.(core := ByteStep(t.core, b).s), items[1..]);
    }
  }

  // ---- what a held-back beginning does to the characters before it ---------------------------------

  predicate AllContinuation(p: seq<Byte>) {
    forall k :: 0 <= k < |p| ==> IsContinuation(p[k])
  }

  lemma DecodeByteParser(t: Terminal, b: Byte)
    requires Ok(t.core)
    ensures DecodeByte(t, b).core.p == t.core.p
  {
    hide Put, Decode, Ok;
    var ch := Decode(t.pending + [b]);
    if ch.Some? { PutParser(t.core, ch.value); } else { PutParser(t.core, REPLACEMENT); }
  }

  /** While a character `bs` goes by with `q` already pending, what is pending is all of both so far, or
      nothing but continuation bytes. */
  ghost predicate Mixed(t: Terminal, q: seq<Byte>, bs: seq<Byte>, k: nat)
    requires k <= |bs|
  {
    && |t.pending| <= 3
    && ((t.pending == q + bs[..k] && (k == |bs| ==> Decode(t.pending).None?))
        || (k >= 1 && AllContinuation(t.pending)))
  }

  lemma MixedStep(t: Terminal, q: seq<Byte>, bs: seq<Byte>, k: nat)
    requires Ok(t.core) && k < |bs| && Mixed(t, q, bs, k) && |bs| >= 2 && Decode(bs).Some?
    ensures Mixed(DecodeByte(t, bs[k]), q, bs, k + 1)
  {
    hide Decode, Put, Ok;
    var p := t.pending + [bs[k]];
    if t.pending == q + bs[..k] {
      assert p == q + bs[..k + 1];
    } else {
      WideShape(bs);
      assert AllContinuation(p);
    }
  }

  lemma MixedEnd(t: Terminal, q: seq<Byte>, bs: seq<Byte>)
    requires Mixed(t, q, bs, |bs|) && |bs| >= 2 && Decode(bs).Some?
    ensures !Partial(t.pending)
  {
    hide Decode;
    WideShape(bs);
    assert bs[..|bs|] == bs;
    if t.pending == q + bs {
      if q == [] { assert t.pending == bs; } else { assert t.pending[|q|] == bs[0]; }
    }
  }

  lemma {:induction false} Junk(t: Terminal, q: seq<Byte>, bs: seq<Byte>, k: nat)
    requires Ok(t.core) && t.core.p.mode == Text && k <= |bs| && |bs| >= 2 && Decode(bs).Some? && Mixed(t, q, bs, k)
    ensures var u := Bytes(t, bs[k..]);
      u.Done? && !Partial(u.t.pending) && |u.t.pending| <= 3 && u.t.core.p == t.core.p
    decreases |bs| - k
  {
    hide Decode, Put, Ok, Partial, DecodeByte;
    if k == |bs| {
      MixedEnd(t, q, bs);
    } else {
      WideHigh(bs, k);
      var rest := bs[k..];
      assert rest[0] == bs[k] && rest[1..] == bs[k + 1..];
      MixedStep(t, q, bs, k);
      DecodeByteParser(t, bs[k]);
      Junk(DecodeByte(t, bs[k]), q, bs, k + 1);
    }
  }

  /** After a complete character, what is pending is never the beginning of one that was held back. */
  lemma {:induction false} NothingHeld(t: Terminal, items: seq<Item>)
    requires Ok(t.core) && AllWellFormed(items) && Ground(t.core.p, items) && |t.pending| <= 3
    requires Quiet(t.core.p, items)
    requires !Partial(t.pending) || !AllAscii(items)
    ensures Bytes(t, Stream(items)).Done? && !Partial(Bytes(t, Stream(items)).t.pending)
    decreases |items|
  {
    hide Decode, Put, ByteStep, Placed, BuffersOk, ParserStep, Partial, DecodeByte, Raises, OneByte;
    if items != [] {
      BytesAppend(t, Encoded(items[0]), Stream(items[1..]));
      match items[0]
      case Ascii(b) =>
        ByteStepParser(t.core, b);
        QuietByte(t, b);
        SingleByte(t, b);
        assert AllAscii(items[1..]) ==> AllAscii(items);
        NothingHeld(t.(core := ByteStep(t.core, b).s), items[1..]);
      case Wide(bs) =>
        assert bs[..0] == [] && bs[0..] == bs && t.pending == t.pending + bs[..0];
        Junk(t, t.pending, bs, 0);
        NothingHeld(Bytes(t, bs).t, items[1..]);
    }
  }

  /** Whatever is pending, a stream with a byte that raises does raise. */
  lemma {:induction false} LoudRun(t: Terminal, items: seq<Item>)
    requires Ok(t.core) && AllWellFormed(items) && Ground(t.core.p, items) && |t.pending| <= 3
    requires !Quiet(t.core.p, items)
    ensures Bytes(t, Stream(items)).Failed?
    decreases |items|
  {
    hide Decode, Put, ByteStep, Placed, BuffersOk, ParserStep, Partial, DecodeByte, Raises, OneByte;
    BytesAppend(t, Encoded(items[0]), Stream(items[1..]));
    match items[0]
    case Ascii(b) =>
      ByteStepParser(t.core, b);
      QuietByte(t, b);
      SingleByte(t, b);
      if !Raises(t.core.p, b) { LoudRun(t.(core := ByteStep(t.core, b).s), items[1..]); }
    case Wide(bs) =>
      assert bs[..0] == [] && bs[0..] == bs && t.pending == t.pending + bs[..0];
      Junk(t, t.pending, bs, 0);
      LoudRun(Bytes(t, bs).t, items[1..]);
  }

  /** When one call of feed does what the bytes mean: exactly when the data does not end inside a character
      or holds no complete character beyond ASCII, and no byte of it ends a sequence that raises. */
  lemma FeedExact(t: Terminal, chunk: seq<Byte>, items: seq<Item>, tail: seq<Byte>)
    requires Ok(t.core) && chunk != [] && t.pending + chunk == Stream(items) + tail
    requires AllWellFormed(items) && Ground(t.core.p, items) && (tail == [] || Partial(tail))
    ensures Feed(t, chunk) == Done(Terminal(Meaning(t.core, items), tail)) <==>
              (tail == [] || AllAscii(items)) && Quiet(t.core.p, items)
    ensures Feed(t, chunk).Failed? <==> !Quiet(t.core.p, items)
  {
    hide Decode, Partial, Held, Ground, Meaning, Bytes, Ok, WellFormed, Quiet;
    var d := t.pending + chunk;
    HeldIsTail(items, tail);
    assert d[|d| - |tail|..] == tail && d[..|d| - |tail|] == Stream(items);
    if tail != [] { PartialShape(tail); }
    if !Quiet(t.core.p, items) {
      LoudRun(Terminal(t.core, tail), items);
    } else if AllAscii(items) {
      AsciiRun(Terminal(t.core, tail), items);
    } else if tail == [] {
      CleanRun(t.core, items);
    } else {
      NothingHeld(Terminal(t.core, tail), items);
    }
  }

  /** What comes after the byte that raises is lost, whatever it is. */
  lemma RestIsLost(t: Terminal, before: seq<Byte>, b: Byte, rest: seq<Byte>)
    requires Ok(t.core) && Bytes(t, before).Done? && OneByte(Bytes(t, before).t, b).Failed?
    ensures Bytes(t, before + [b] + rest) == OneByte(Bytes(t, before).t, b)
  {
    hide OneByte, Ok;
    BytesAppend(t, before, [b]);
    SingleByte(Bytes(t, before).t, b);
    BytesAppend(t, before + [b], rest);
  }

  // ---- many calls ------------------------------------------------------------------------------------

  /** One read, with what it completes and the beginning it ends in. */
  datatype Piece = Piece(chunk: seq<Byte>, items: seq<Item>, tail: seq<Byte>)

  /** `carry` and the reads after it make up whole characters read by read, and no read both completes a
      character beyond ASCII and ends inside another. */
  ghost predicate Fits(carry: seq<Byte>, plan: seq<Piece>)
    decreases |plan|
  {
    plan != [] ==>
      var x := plan[0];
      && x.chunk != [] && carry + x.chunk == Stream(x.items) + x.tail && AllWellFormed(x.items)
      && (x.tail == [] || (Partial(x.tail) && AllAscii(x.items)))
      && Fits(x.tail, plan[1..])
  }

  function Chunks(plan: seq<Piece>): seq<seq<Byte>>
    decreases |plan|
  {
    if plan == [] then [] else [plan[0].chunk] + Chunks(plan[1..])
  }

  function Items(plan: seq<Piece>): seq<Item>
    decreases |plan|
  {
    if plan == [] then [] else plan[0].items + Items(plan[1..])
  }

  function Rest(carry: seq<Byte>, plan: seq<Piece>): seq<Byte>
    decreases |plan|
  {
    if plan == [] then carry else Rest(plan[0].tail, plan[1..])
  }

  lemma {:induction false} ItemsWellFormed(carry: seq<Byte>, plan: seq<Piece>)
    requires Fits(carry, plan)
    ensures AllWellFormed(Items(plan))
    decreases |plan|
  {
    hide WellFormed, Partial, Stream;
    if plan != [] { ItemsWellFormed(plan[0].tail, plan[1..]); }
  }

  /** Characters, then more characters. */
  lemma {:induction false} MeaningAppend(s: Core, a: seq<Item>, b: seq<Item>)
    requires Ok(s) && AllWellFormed(a) && AllWellFormed(b) && Ground(s.p, a + b)
    ensures Ground(s.p, a) && AllWellFormed(a + b)
    ensures Ground(Meaning(s, a).p, b) && Meaning(s, a + b) == Meaning(Meaning(s, a), b)
    ensures Quiet(s.p, a + b) <==> Quiet(s.p, a) && Quiet(Meaning(s, a).p, b)
    decreases |a|
  {
    hide WellFormed, Decode, Put, ByteStep, Placed, BuffersOk, ParserStep, Raises;
    if a == [] {
      assert a + b == b;
    } else {
      assert (a + b)[1..] == a[1..] + b && (a + b)[0] == a[0];
      WellFormedHead(a);
      match a[0]
      case Ascii(x) =>
        ByteStepParser(s, x);
        MeaningAppend(ByteStep(s, x).s, a[1..], b);
      case Wide(bs) =>
        PutParser(s, Decode(bs).value);
        MeaningAppend(Put(s, Decode(bs).value), a[1..], b);
    }
  }

  lemma WellFormedHead(a: seq<Item>)
    requires a != [] && AllWellFormed(a)
    ensures WellFormed(a[0]) && (a[0].Ascii? ==> a[0].b < 0x80) && (a[0].Wide? ==> Decode(a[0].bs).Some?)
  {
    hide Decode;
  }

  /** Reads cut anywhere the condition allows give what the characters mean, exactly when nothing raises. */
  lemma {:induction false} PlanMeaning(t: Terminal, plan: seq<Piece>)
    requires Ok(t.core) && Fits(t.pending, plan)
    requires AllWellFormed(Items(plan)) && Ground(t.core.p, Items(plan))
    ensures if Quiet(t.core.p, Items(plan))
            then FeedAll(t, Chunks(plan)) == Done(Terminal(Meaning(t.core, Items(plan)), Rest(t.pending, plan)))
            else FeedAll(t, Chunks(plan)).Failed?
    decreases |plan|
  {
    hide WellFormed, Partial, Stream, Feed, Placed, BuffersOk, Ground, Meaning, AllAscii, Quiet;
    if plan == [] {
      MeaningOfNothing(t.core);
    } else {
      var x := plan[0];
      ItemsWellFormed(x.tail, plan[1..]);
      MeaningAppend(t.core, x.items, Items(plan[1..]));
      FeedExact(t, x.chunk, x.items, x.tail);
      assert Chunks(plan)[1..] == Chunks(plan[1..]);
      if Quiet(t.core.p, x.items) {
        PlanMeaning(Terminal(Meaning(t.core, x.items), x.tail), plan[1..]);
      }
    }
  }

  lemma MeaningOfNothing(s: Core)
    requires Ok(s)
    ensures Ground(s.p, []) && Meaning(s, []) == s && Quiet(s.p, [])
  {
  }

  // ---- one byte at a time --------------------------------------------------------------------------

  function Singles(bs: seq<Byte>): seq<seq<Byte>>
    decreases |bs|
  {
    if bs == [] then [] else [[bs[0]]] + Singles(bs[1..])
  }

  /** The reads of a character byte by byte, `k` bytes of it already in. */
  function WideSingles(bs: seq<Byte>, k: nat): seq<Piece>
    requires k < |bs|
    decreases |bs| - k
  {
    if k + 1 == |bs| then [Piece([bs[k]], [Wide(bs)], [])]
    else [Piece([bs[k]], [], bs[..k + 1])] + WideSingles(bs, k + 1)
  }

  /** ... and of the beginning of one. */
  function TailSingles(tail: seq<Byte>, k: nat): seq<Piece>
    requires k <= |tail|
    decreases |tail| - k
  {
    if k == |tail| then [] else [Piece([tail[k]], [], tail[..k + 1])] + TailSingles(tail, k + 1)
  }

  function SinglesPlan(items: seq<Item>, tail: seq<Byte>): seq<Piece>
    requires AllWellFormed(items)
    decreases |items|
  {
    if items == [] then TailSingles(tail, 0)
    else match items[0]
      case Ascii(b) => [Piece([b], [items[0]], [])] + SinglesPlan(items[1..], tail)
      case Wide(bs) => WideSingles(bs, 0) + SinglesPlan(items[1..], tail)
  }

  /** A plan does what it is meant to: it fits, and cuts `bytes` one by one into `items`, leaving `rest`. */
  ghost predicate Cuts(carry: seq<Byte>, plan: seq<Piece>, bytes: seq<Byte>, items: seq<Item>, rest: seq<Byte>) {
    Fits(carry, plan) && Chunks(plan) == Singles(bytes) && Items(plan) == items && Rest(carry, plan) == rest
  }

  lemma CutsCons(carry: seq<Byte>, x: Piece, plan: seq<Piece>, bytes: seq<Byte>, items: seq<Item>, rest: seq<Byte>)
    requires |x.chunk| == 1 && carry + x.chunk == Stream(x.items) + x.tail && AllWellFormed(x.items)
    requires x.tail == [] || (Partial(x.tail) && AllAscii(x.items))
    requires Cuts(x.tail, plan, bytes, items, rest)
    ensures Cuts(carry, [x] + plan, x.chunk + bytes, x.items + items, rest)
  {
    hide Partial, Stream, AllAscii, WellFormed;
    assert ([x] + plan)[1..] == plan && (x.chunk + bytes)[1..] == bytes && x.chunk == [x.chunk[0]];
  }

  lemma {:induction false} CutsAppend(carry: seq<Byte>, a: seq<Piece>, p: seq<Byte>, i: seq<Item>, mid: seq<Byte>,
                    b: seq<Piece>, q: seq<Byte>, j: seq<Item>, rest: seq<Byte>)
    requires Cuts(carry, a, p, i, mid) && Cuts(mid, b, q, j, rest)
    ensures Cuts(carry, a + b, p + q, i + j, rest)
    decreases |a|
  {
    hide Partial, Stream, AllAscii, WellFormed;
    if a == [] {
      assert a + b == b && p == [] && p + q == q && i + j == j;
    } else {
      var x := a[0];
      assert Singles(p)[0] == x.chunk && Singles(p)[1..] == Chunks(a[1..]);
      assert (a + b) == [x] + (a[1..] + b) && p + q == x.chunk + (p[1..] + q);
      assert i + j == x.items + (Items(a[1..]) + j);
      CutsAppend(x.tail, a[1..], p[1..], Items(a[1..]), mid, b, q, j, rest);
      CutsCons(carry, x, a[1..] + b, p[1..] + q, Items(a[1..]) + j, rest);
    }
  }

  lemma StreamOfNothing()
    ensures Stream([]) == []
  {
  }

  lemma StreamOfOne(i: Item)
    ensures Stream([i]) == Encoded(i)
  {
    assert [i][1..] == [];
  }

  lemma CutsNothing(carry: seq<Byte>)
    ensures Cuts(carry, [], [], [], carry)
  {
  }

  lemma {:induction false} WideCut(bs: seq<Byte>, k: nat)
    requires |bs| >= 2 && Decode(bs).Some? && k < |bs|
    ensures Cuts(bs[..k], WideSingles(bs, k), bs[k..], [Wide(bs)], [])
    decreases |bs| - k
  {
    hide Decode, Partial, Cuts, Stream;
    assert bs[..k] + [bs[k]] == bs[..k + 1];
    StreamOfNothing();
    StreamOfOne(Wide(bs));
    if k + 1 == |bs| {
      CutsNothing([]);
      CutsCons(bs[..k], Piece([bs[k]], [Wide(bs)], []), [], [], [], []);
      assert [Piece([bs[k]], [Wide(bs)], [])] + [] == WideSingles(bs, k) && [bs[k]] + [] == bs[k..];
      assert [Wide(bs)] + [] == [Wide(bs)];
    } else {
      WideCut(bs, k + 1);
      PrefixUndecoded(bs, k + 1);
      CutsCons(bs[..k], Piece([bs[k]], [], bs[..k + 1]), WideSingles(bs, k + 1), bs[k + 1..], [Wide(bs)], []);
      assert [bs[k]] + bs[k + 1..] == bs[k..] && [] + [Wide(bs)] == [Wide(bs)];
    }
  }

  lemma {:induction false} TailCut(tail: seq<Byte>, k: nat)
    requires Partial(tail) && k <= |tail|
    ensures Cuts(tail[..k], TailSingles(tail, k), tail[k..], [], tail)
    decreases |tail| - k
  {
    hide Cuts, Stream;
    StreamOfNothing();
    if k == |tail| {
      assert tail[..k] == tail && tail[k..] == [];
      CutsNothing(tail);
    } else {
      TailCut(tail, k + 1);
      assert tail[..k] + [tail[k]] == tail[..k + 1] && [tail[k]] + tail[k + 1..] == tail[k..];
      assert Partial(tail[..k + 1]);
      CutsCons(tail[..k], Piece([tail[k]], [], tail[..k + 1]), TailSingles(tail, k + 1), tail[k + 1..], [], tail);
      var none: seq<Item> := [];
      assert none + none == none;
    }
  }

  lemma {:induction false} SinglesCut(items: seq<Item>, tail: seq<Byte>)
    requires AllWellFormed(items) && (tail == [] || Partial(tail))
    ensures Cuts([], SinglesPlan(items, tail), Stream(items) + tail, items, tail)
    decreases |items|
  {
    hide Decode, Partial, Cuts;
    if items == [] {
      assert Stream(items) + tail == tail && tail[..0] == [] && tail[0..] == tail;
      if tail == [] { CutsNothing([]); } else { TailCut(tail, 0); }
    } else {
      var rest := items[1..];
      SinglesCut(rest, tail);
      WellFormedHead(items);
      assert [items[0]] + rest == items;
      assert Stream(items) + tail == Encoded(items[0]) + (Stream(rest) + tail);
      match items[0]
      case Ascii(b) =>
        StreamOfOne(items[0]);
        CutsCons([], Piece([b], [items[0]], []), SinglesPlan(rest, tail), Stream(rest) + tail, rest, tail);
      case Wide(bs) =>
        assert bs[..0] == [] && bs[0..] == bs;
        WideCut(bs, 0);
        CutsAppend([], WideSingles(bs, 0), bs, [items[0]], [], SinglesPlan(rest, tail), Stream(rest) + tail, rest, tail);
    }
  }

  /** Fed one byte at a time, a stream gives what it means exactly when nothing raises. */
  lemma ByteAtATime(s: Core, items: seq<Item>, tail: seq<Byte>)
    requires Ok(s) && AllWellFormed(items) && Ground(s.p, items) && (tail == [] || Partial(tail))
    ensures var u := FeedAll(Terminal(s, []), Singles(Stream(items) + tail));
      if Quiet(s.p, items) then u == Done(Terminal(Meaning(s, items), tail)) else u.Failed?
  {
    hide Ground, Meaning, Partial, FeedAll, WellFormed, SinglesPlan, Placed, BuffersOk, Fits, Stream, Quiet;
    SinglesCut(items, tail);
    PlanMeaning(Terminal(s, []), SinglesPlan(items, tail));
  }

  /** Chunk independence: every way of cutting the stream in which no read both completes a character
      beyond ASCII and ends inside another gives the screen that byte by byte gives, unless a byte raises;
      then both ways do. */
  lemma ChunksMatch(s: Core, plan: seq<Piece>)
    requires Ok(s) && Fits([], plan) && AllWellFormed(Items(plan)) && Ground(s.p, Items(plan))
    ensures
      var u, v := FeedAll(Terminal(s, []), Chunks(plan)), FeedAll(Terminal(s, []), Singles(Joined(Chunks(plan))));
      if Quiet(s.p, Items(plan)) then u == v == Done(Terminal(Meaning(s, Items(plan)), Rest([], plan)))
      else u.Failed? && v.Failed?
  {
    hide Ground, Meaning, Partial, FeedAll, WellFormed, Placed, BuffersOk, Stream, Quiet;
    PlanMeaning(Terminal(s, []), plan);
    RestPartial([], plan);
    PlanBytes([], plan);
    assert [] + Joined(Chunks(plan)) == Joined(Chunks(plan));
    ByteAtATime(s, Items(plan), Rest([], plan));
  }

  lemma {:induction false} RestPartial(carry: seq<Byte>, plan: seq<Piece>)
    requires Fits(carry, plan) && (carry == [] || Partial(carry))
    ensures Rest(carry, plan) == [] || Partial(Rest(carry, plan))
    decreases |plan|
  {
    hide Partial, Stream, WellFormed, AllAscii;
    if plan != [] { RestPartial(plan[0].tail, plan[1..]); }
  }

  /** The reads of a plan put end to end are the stream. */
  lemma {:induction false} PlanBytes(carry: seq<Byte>, plan: seq<Piece>)
    requires Fits(carry, plan)
    ensures carry + Joined(Chunks(plan)) == Stream(Items(plan)) + Rest(carry, plan)
    decreases |plan|
  {
    hide Partial, WellFormed, AllAscii, Stream;
    if plan == [] {
      StreamOfNothing();
    } else {
      var x := plan[0];
      PlanBytes(x.tail, plan[1..]);
      assert Chunks(plan)[1..] == Chunks(plan[1..]);
      StreamAppend(x.items, Items(plan[1..]));
      Regroup(carry, x.chunk, Stream(x.items), x.tail, Joined(Chunks(plan[1..])),
              Stream(Items(plan[1..])), Rest(x.tail, plan[1..]));
    }
  }

  lemma Regroup(a: seq<Byte>, b: seq<Byte>, c: seq<Byte>, d: seq<Byte>, e: seq<Byte>, f: seq<Byte>, g: seq<Byte>)
    requires a + b == c + d && d + e == f + g
    ensures a + (b + e) == (c + f) + g
  {
    assert a + (b + e) == (a + b) + e == (c + d) + e == c + (d + e) == c + (f + g) == (c + f) + g;
  }

  function Joined(chunks: seq<seq<Byte>>): seq<Byte>
    decreases |chunks|
  {
    if chunks == [] then [] else chunks[0] + Joined(chunks[1..])
  }

  lemma {:induction false} StreamAppend(a: seq<Item>, b: seq<Item>)
    ensures Stream(a + b) == Stream(a) + Stream(b)
    decreases |a|
  {
    if a == [] {
      assert a + b == b;
    } else {
      assert (a + b)[1..] == a[1..] + b;
      StreamAppend(a[1..], b);
    }
  }

  // ---- reads on which the condition fails ----------------------------------------------------------

  /** An e-acute and the first byte of a euro sign in one read: nothing is drawn, where byte by byte the
      e-acute is. */
  lemma SplitAfterCharacter(s: Core)
    requires Ok(s) && s.p.mode == Text
    ensures Feed(Terminal(s, []), [0xC3, 0xA9, 0xE2]) == Done(Terminal(s, [0xE2, 0xC3, 0xA9]))
    ensures FeedAll(Terminal(s, []), Singles([0xC3, 0xA9, 0xE2])) == Done(Terminal(Put(s, 0xE9), [0xE2]))
  {
    hide Put, Ok, ByteStep, FeedAll, Feed, Singles;
    JunkExample(s);
    EachByteExample(s);
  }

  lemma JunkExample(s: Core)
    requires Ok(s) && s.p.mode == Text
    ensures Feed(Terminal(s, []), [0xC3, 0xA9, 0xE2]) == Done(Terminal(s, [0xE2, 0xC3, 0xA9]))
  {
    hide Put, Ok, ByteStep;
    var d: seq<Byte> := [0xC3, 0xA9, 0xE2];
    assert [] + d == d && d[2..] == [0xE2] && d[..2] == [0xC3, 0xA9];
    assert Held(d, 1) == 1;
    var t := Terminal(s, [0xE2]);
    var u := OneByte(t, 0xC3).t;
    assert OneByte(t, 0xC3) == Done(u) && u == Terminal(s, [0xE2, 0xC3]);
    assert OneByte(u, 0xA9) == Done(Terminal(s, [0xE2, 0xC3, 0xA9]));
    assert d[..2][1..] == [0xA9] && [0xA9 as Byte][1..] == [];
    assert Bytes(t, d[..2]) == Bytes(u, [0xA9]);
    SingleByte(u, 0xA9);
  }

  lemma EachByteExample(s: Core)
    requires Ok(s) && s.p.mode == Text
    ensures FeedAll(Terminal(s, []), Singles([0xC3, 0xA9, 0xE2])) == Done(Terminal(Put(s, 0xE9), [0xE2]))
  {
    hide Put, ByteStep, FeedAll, Feed, Singles, BuffersOk, Placed;
    var e: seq<Byte> := [0xC3, 0xA9];
    var items := [Wide(e)];
    assert Decode(e) == Some(0xE9);
    assert items[1..] == [];
    PutParser(s, 0xE9);
    MeaningOfNothing(s);
    MeaningOfNothing(Put(s, 0xE9));
    assert Quiet(s.p, items) && Meaning(s, items) == Put(s, 0xE9);
    ByteAtATime(s, items, [0xE2]);
    assert Stream(items) + [0xE2] == [0xC3, 0xA9, 0xE2];
  }

  /** Parameter bytes are collected. */
  lemma {:induction false} ParameterBytes(t: Terminal, bs: seq<Byte>)
    requires Ok(t.core) && t.core.p.mode == Csi && forall k :: 0 <= k < |bs| ==> 0x30 <= bs[k] <= 0x3F
    ensures Bytes(t, bs) == Done(t.(core := t.core.(p := t.core.p.(parm := t.core.p.parm + bs))))
    decreases |bs|
  {
    if bs == [] {
      assert t.core.p.parm + bs == t.core.p.parm;
    } else {
      var u := t.(core := t.core.(p := t.core.p.(parm := t.core.p.parm + [bs[0]])));
      assert OneByte(t, bs[0]) == Done(u);
      ParameterBytes(u, bs[1..]);
      assert (t.core.p.parm + [bs[0]]) + bs[1..] == t.core.p.parm + bs;
    }
  }

  lemma Introducer(t: Terminal)
    requires Ok(t.core) && t.core.p.mode == Text
    ensures Bytes(t, [ESC, 0x5B]) == Done(t.(core := t.core.(p := t.core.p.(mode := Csi, parm := [], inter := []))))
  {
    var bs: seq<Byte> := [ESC, 0x5B];
    var u := t.(core := t.core.(p := t.core.p.(mode := Esc, parm := [], inter := [])));
    assert OneByte(t, bs[0]) == Done(u);
    assert bs[1..] == [0x5B];
    SingleByte(u, 0x5B);
  }

  /** ESC [ 1 ; 2 ; 3 H, then anything: the call raises at the H, and what follows in the same read never
      reaches the screen. */
  lemma ThirdParameter(t: Terminal, rest: seq<Byte>)
    requires Ok(t.core) && t.core.p.mode == Text
    ensures var u := Bytes(t, [ESC, 0x5B] + [0x31, 0x3B, 0x32, 0x3B, 0x33] + [0x48] + rest);
      u.Failed? && u.t.core == t.core.(p := u.t.core.p) && u.t.core.p.mode == Text && u.t.pending == t.pending
  {
    hide ByteStep, Raises, OneByte, Bytes, BuffersOk;
    var parm: seq<Byte> := [0x31, 0x3B, 0x32, 0x3B, 0x33];
    Introducer(t);
    var v := t.(core := t.core.(p := t.core.p.(mode := Csi, parm := [], inter := [])));
    ParameterBytes(v, parm);
    assert [] + parm == parm;
    BytesAppend(t, [ESC, 0x5B], parm);
    var w := v.(core := v.core.(p := v.core.p.(parm := parm)));
    FiveParameterBytes(w.core.p);
    QuietByte(w, 0x48);
    ByteRaises(w.core, 0x48);
    RestIsLost(t, [ESC, 0x5B] + parm, 0x48, rest);
  }

  lemma FiveParameterBytes(p: Parser)
    requires p.mode == Csi && p.parm == [0x31, 0x3B, 0x32, 0x3B, 0x33]
    ensures Raises(p, 0x48)
  {
    var ps := p.parm;
    assert ps[1..] == [0x3B, 0x32, 0x3B, 0x33] && ps[1..][1..] == [0x32, 0x3B, 0x33];
    assert Separators(ps[1..][1..]) == Separators([0x3B, 0x33 as Byte]) by { assert ps[1..][1..][1..] == [0x3B, 0x33]; }
    assert Separators([0x3B, 0x33 as Byte]) >= 1;
  }
}
