/** The guest's console (main/hyp_uart.c): a 16550 with a receive ring of 512 bytes. */
module Uart {
  const RING: nat := 512

  /** The receive ring. */
  datatype Fifo = Fifo(ring: seq<bv8>, head: nat, tail: nat)

  datatype Control = Control(ier: bv8, lcr: bv8, mcr: bv8, scr: bv8, fcr: bv8, dll: bv8, dlm: bv8)

  datatype Regs = Regs(c: Control, rx: Fifo)

  predicate Good(f: Fifo) {
    |f.ring| == RING && f.head < RING && f.tail < RING
  }

  predicate Ok(u: Regs) {
    Good(u.rx)
  }

  /** Some bit of `mask` is set. */
  predicate Any(w: bv8, mask: bv8) {
    w & mask != 0
  }

  const ERBFI: bv8 := 0x01
  const ETBEI: bv8 := 0x02
  const DLAB: bv8 := 0x80
  const LOOPBACK: bv8 := 0x10

  // ---- the receive ring ----------------------------------------------------------------------------

  predicate Empty(f: Fifo) {
    f.head == f.tail
  }

  /** The bytes waiting, oldest first. */
  function Waiting(f: Fifo): seq<bv8>
    requires Good(f)
  {
    if f.tail <= f.head then f.ring[f.tail..f.head] else f.ring[f.tail..] + f.ring[..f.head]
  }

  function Push(f: Fifo, c: bv8): (t: Fifo)
    requires Good(f)
    ensures Good(t)
  {
    var next := (f.head + 1) % RING;
    if next == f.tail then f else Fifo(f.ring[f.head := c], next, f.tail)
  }

  function Pop(f: Fifo): (r: (Fifo, bv8))
    requires Good(f)
    ensures Good(r.0)
  {
    if Empty(f) then (f, 0) else (f.(tail := (f.tail + 1) % RING), f.ring[f.tail])
  }

  lemma NextIndex(i: nat)
    requires i < RING
    ensures (i + 1) % RING == if i + 1 == RING then 0 else i + 1
  {
  }

  lemma PushUnwrapped(f: Fifo, c: bv8)
    requires Good(f) && f.tail <= f.head && Push(f, c) != f
    ensures Waiting(Push(f, c)) == Waiting(f) + [c]
  {
    NextIndex(f.head);
    var ring := f.ring[f.head := c];
    assert ring[f.tail..f.head + 1] == f.ring[f.tail..f.head] + [c];
    if f.head + 1 == RING { assert ring[f.tail..] + ring[..0] == ring[f.tail..f.head + 1]; }
  }

  lemma PushWrapped(f: Fifo, c: bv8)
    requires Good(f) && f.head < f.tail && Push(f, c) != f
    ensures Waiting(Push(f, c)) == Waiting(f) + [c]
  {
    NextIndex(f.head);
    var ring := f.ring[f.head := c];
    assert ring[f.tail..] == f.ring[f.tail..];
    assert ring[..f.head + 1] == f.ring[..f.head] + [c];
    assert (f.ring[f.tail..] + f.ring[..f.head]) + [c] == f.ring[f.tail..] + (f.ring[..f.head] + [c]);
  }

  lemma FullWhen(f: Fifo)
    requires Good(f)
    ensures |Waiting(f)| == RING - 1 <==> (f.head + 1) % RING == f.tail
  {
    NextIndex(f.head);
  }

  /** The ring is a queue of at most 511 bytes: a byte that does not fit is dropped, nothing else is lost
      or reordered. */
  lemma PushAppends(f: Fifo, c: bv8)
    requires Good(f)
    ensures Waiting(Push(f, c)) == if |Waiting(f)| == RING - 1 then Waiting(f) else Waiting(f) + [c]
  {
    hide Waiting;
    FullWhen(f);
    if |Waiting(f)| != RING - 1 {
      if f.tail <= f.head { PushUnwrapped(f, c); } else { PushWrapped(f, c); }
    }
  }

  lemma PopTakesFirst(f: Fifo)
    requires Good(f)
    ensures if Waiting(f) == [] then Pop(f) == (f, 0)
            else Pop(f).1 == Waiting(f)[0] && Waiting(Pop(f).0) == Waiting(f)[1..]
    ensures Empty(f) <==> Waiting(f) == []
  {
    NextIndex(f.tail);
    if f.head < f.tail {
      assert (f.ring[f.tail..] + f.ring[..f.head])[1..] == f.ring[f.tail + 1..] + f.ring[..f.head];
    }
  }

  /** What the interrupt line has to be. */
  predicate Level(u: Regs) {
    (Any(u.c.ier, ERBFI) && !Empty(u.rx)) || Any(u.c.ier, ETBEI)
  }

  // ---- registers -----------------------------------------------------------------------------------

  /** One register read; true when the line has to be computed again. */
  function RegRead(u: Regs, offset: nat): (r: (Regs, bv8, bool))
    requires Ok(u)
    ensures Ok(r.0) && (!r.2 ==> r.0 == u)
  {
    if Any(u.c.lcr, DLAB) && offset == 0 then (u, u.c.dll, false)
    else if Any(u.c.lcr, DLAB) && offset == 1 then (u, u.c.dlm, false)
    else if offset == 0 then
      var (t, x) := Pop(u.rx);
      (u.(rx := t), x, true)
    else if offset == 1 then (u, u.c.ier, false)
    else if offset == 2 then
      var iir: bv8 := if Any(u.c.ier, ERBFI) && !Empty(u.rx) then 0x04 else if Any(u.c.ier, ETBEI) then 0x02 else 0x01;
      (u, if Any(u.c.fcr, 0x01) then iir | 0xC0 else iir, false)
    else if offset == 3 then (u, u.c.lcr, false)
    else if offset == 4 then (u, u.c.mcr, false)
    else if offset == 5 then (u, if Empty(u.rx) then 0x60 else 0x61, false)
    else if offset == 6 then
      (u, if Any(u.c.mcr, LOOPBACK)
          then ((u.c.mcr & 0x0C) << 4) | ((u.c.mcr & 0x02) << 3) | ((u.c.mcr & 0x01) << 5) else 0xB0, false)
    else if offset == 7 then (u, u.c.scr, false)
    else (u, 0, false)
  }

  /** One register write; true when the line has to be computed again. */
  function RegWrite(u: Regs, offset: nat, value: bv8): (r: (Regs, bool))
    requires Ok(u)
    ensures Ok(r.0)
  {
    if Any(u.c.lcr, DLAB) && offset == 0 then (u.(c := u.c.(dll := value)), false)
    else if Any(u.c.lcr, DLAB) && offset == 1 then (u.(c := u.c.(dlm := value)), false)
    else if offset == 0 then (if Any(u.c.mcr, LOOPBACK) then u.(rx := Push(u.rx, value)) else u, true)
    else if offset == 1 then (u.(c := u.c.(ier := value)), true)
    else if offset == 2 then (u.(c := u.c.(fcr := value)), false)
    else if offset == 3 then (u.(c := u.c.(lcr := value)), false)
    else if offset == 4 then (u.(c := u.c.(mcr := value)), false)
    else if offset == 7 then (u.(c := u.c.(scr := value)), false)
    else (u, false)
  }

  /** The identification register tells the guest why the line is up, and says so exactly when it is. */
  lemma IdentifiesLevel(u: Regs)
    requires Ok(u)
    ensures Any(RegRead(u, 2).1, 0x01) <==> !Level(u)
  {
    hide Empty;
    IirBits(0x04);
    IirBits(0x02);
    IirBits(0x01);
  }

  lemma IirBits(iir: bv8)
    ensures Any(iir | 0xC0, 0x01) <==> Any(iir, 0x01)
  {
  }

  /** What the identification register says: received data comes first, then the empty transmitter; the top
      two bits are set when the FIFOs are enabled. */
  lemma IdentifiesCause(u: Regs)
    requires Ok(u)
    ensures var iir := RegRead(u, 2).1;
      && (Any(u.c.ier, 0x01) && Waiting(u.rx) != [] ==> iir & 0x0F == 0x04)
      && (!(Any(u.c.ier, 0x01) && Waiting(u.rx) != []) && Any(u.c.ier, 0x02) ==> iir & 0x0F == 0x02)
      && (!(Any(u.c.ier, 0x01) && Waiting(u.rx) != []) && !Any(u.c.ier, 0x02) ==> iir & 0x0F == 0x01)
      && iir & 0xC0 == (if Any(u.c.fcr, 0x01) then 0xC0 else 0)
  {
    hide Waiting, Pop;
    PopTakesFirst(u.rx);
  }

  /** In loopback the modem's inputs follow the outputs: RTS to CTS, DTR to DSR, OUT1 to RI, OUT2 to DCD.
      Otherwise the line is up. */
  lemma ModemStatus(u: Regs)
    requires Ok(u)
    ensures var msr, mcr := RegRead(u, 6).1, u.c.mcr;
      if Any(mcr, 0x10) then
        && (Any(msr, 0x10) <==> Any(mcr, 0x02)) && (Any(msr, 0x20) <==> Any(mcr, 0x01))
        && (Any(msr, 0x40) <==> Any(mcr, 0x04)) && (Any(msr, 0x80) <==> Any(mcr, 0x08)) && !Any(msr, 0x0F)
      else msr == 0xB0
  {
  }

  /** Reading the data register takes the oldest byte waiting, or gives 0. */
  lemma ReadsByte(u: Regs)
    requires Ok(u) && !Any(u.c.lcr, 0x80)
    ensures var (t, x, again) := RegRead(u, 0);
      && again && t.c == u.c
      && (if Waiting(u.rx) == [] then x == 0 && Waiting(t.rx) == []
          else x == Waiting(u.rx)[0] && Waiting(t.rx) == Waiting(u.rx)[1..])
  {
    hide Any, Waiting, Pop;
    PopTakesFirst(u.rx);
  }

  /** The registers that hold what was written, and the divisor latches behind the first two. */
  predicate Holds(u: Regs, offset: nat) {
    offset == 1 || offset == 3 || offset == 4 || offset == 7 || (offset == 0 && Any(u.c.lcr, 0x80))
  }

  /** They read back, one write changes no other of them, and no write but of the interrupt enable and the
      data register asks for the line. */
  lemma ReadsBack(u: Regs, offset: nat, value: bv8, other: nat)
    requires Ok(u) && Holds(u, offset) && Holds(u, other) && offset != 3 && other != offset
    ensures var (t, again) := RegWrite(u, offset, value);
      && RegRead(t, offset).1 == value && RegRead(t, other).1 == RegRead(u, other).1
      && t.rx == u.rx && (again <==> offset == 1 && !Any(u.c.lcr, 0x80))
  {
    hide Any, RegRead, RegWrite, Changed, Value;
    var latch := Any(u.c.lcr, 0x80);
    WriteChanges(u, offset, value);
    ChangedValue(u.c, latch, offset, value, other);
    var t := RegWrite(u, offset, value).0;
    ReadHolds(t, offset);
    ReadHolds(t, other);
    ReadHolds(u, other);
  }

  /** The value behind such an offset, with the latches in front or not. */
  function Value(c: Control, latch: bool, offset: nat): bv8 {
    if latch && offset == 0 then c.dll else if latch && offset == 1 then c.dlm
    else if offset == 1 then c.ier else if offset == 3 then c.lcr else if offset == 4 then c.mcr else c.scr
  }

  lemma ReadHolds(u: Regs, offset: nat)
    requires Ok(u) && Holds(u, offset)
    ensures RegRead(u, offset).1 == Value(u.c, Any(u.c.lcr, 0x80), offset)
  {
    hide Any, Pop;
  }

  /** The registers after such a write. */
  function Changed(c: Control, latch: bool, offset: nat, value: bv8): Control {
    if latch && offset == 0 then c.(dll := value) else if latch && offset == 1 then c.(dlm := value)
    else if offset == 1 then c.(ier := value) else if offset == 4 then c.(mcr := value) else c.(scr := value)
  }

  lemma WriteChanges(u: Regs, offset: nat, value: bv8)
    requires Ok(u) && Holds(u, offset) && offset != 3
    ensures var latch := Any(u.c.lcr, 0x80);
      RegWrite(u, offset, value) == (u.(c := Changed(u.c, latch, offset, value)), offset == 1 && !latch)
  {
    hide Any, Push;
  }

  lemma ChangedValue(c: Control, latch: bool, offset: nat, value: bv8, other: nat)
    requires offset == 1 || offset == 4 || offset == 7 || (offset == 0 && latch)
    requires other == 1 || other == 3 || other == 4 || other == 7 || (other == 0 && latch)
    requires other != offset
    ensures var d := Changed(c, latch, offset, value);
      Value(d, latch, offset) == value && Value(d, latch, other) == Value(c, latch, other) && d.lcr == c.lcr
  {
  }

  /** The line is asked for again when a byte has been taken or may have come back, or the enable bits have
      changed, and at no other access. The line status, the modem status and whatever lies past the eight
      registers take no write; past them 0 is read. */
  lemma AsksAgain(u: Regs, offset: nat, value: bv8)
    requires Ok(u)
    ensures RegRead(u, offset).2 <==> offset == 0 && !Any(u.c.lcr, 0x80)
    ensures RegWrite(u, offset, value).1 <==> (offset == 0 || offset == 1) && !Any(u.c.lcr, 0x80)
    ensures offset == 5 || offset == 6 || offset > 7 ==> RegWrite(u, offset, value).0 == u
    ensures offset > 7 ==> RegRead(u, offset) == (u, 0, false)
    ensures RegWrite(u, 2, value).0 == u.(c := u.c.(fcr := value))
  {
    hide Any, Pop, Push;
  }

  /** The line control register reads back too; its top bit is what turns to the divisor latches. */
  lemma LineControl(u: Regs, value: bv8)
    requires Ok(u)
    ensures var (t, again) := RegWrite(u, 3, value);
      && RegRead(t, 3).1 == value && !again && t == u.(c := u.c.(lcr := value))
      && (Any(value, 0x80) ==> RegRead(t, 0).1 == u.c.dll && RegRead(t, 1).1 == u.c.dlm)
      && (!Any(value, 0x80) ==> RegRead(t, 1).1 == u.c.ier)
  {
    hide Any, Pop;
  }

  /** The line status says that a byte waits exactly when one does, and always that there is room to send. */
  lemma LineStatusMeans(u: Regs)
    requires Ok(u)
    ensures Any(RegRead(u, 5).1, 0x01) <==> Waiting(u.rx) != []
    ensures RegRead(u, 5).1 & 0x60 == 0x60
  {
    PopTakesFirst(u.rx);
  }

  /** In loopback a byte written comes back, after the ones already waiting. */
  lemma LoopbackEchoes(u: Regs, x: bv8)
    requires Ok(u) && Any(u.c.mcr, LOOPBACK) && !Any(u.c.lcr, DLAB) && |Waiting(u.rx)| < RING - 1
    ensures Waiting(RegWrite(u, 0, x).0.rx) == Waiting(u.rx) + [x]
    ensures Waiting(u.rx) == [] ==> RegRead(RegWrite(u, 0, x).0, 0).1 == x
  {
    hide Any, Waiting, Push, Pop;
    PushAppends(u.rx, x);
    PopTakesFirst(Push(u.rx, x));
  }

  lemma QuietKeeps(u: Regs, offset: nat, value: bv8)
    requires Ok(u) && !RegWrite(u, offset, value).1
    ensures RegWrite(u, offset, value).0.c.ier == u.c.ier
    ensures RegWrite(u, offset, value).0.rx == u.rx
  {
    hide Any, Push, Level, Good;
  }

  /** A write that does not ask for the line to be computed again does not move it. */
  lemma QuietWrite(u: Regs, offset: nat, value: bv8)
    requires Ok(u) && !RegWrite(u, offset, value).1
    ensures Level(RegWrite(u, offset, value).0) == Level(u)
  {
    hide Any, RegWrite, Empty;
    QuietKeeps(u, offset, value);
  }

  // ---- the device ----------------------------------------------------------------------------------

  class Device {
    var c: Control
    const ring: array<bv8>
    var head: nat
    var tail: nat

    ghost predicate Valid()
      reads this
    {
      ring.Length == RING && head < RING && tail < RING
    }

    ghost function View(): (u: Regs)
      requires Valid()
      reads this, ring
      ensures Ok(u)
    {
      Regs(c, Fifo(ring[..], head, tail))
    }

    constructor ()
      ensures Valid() && fresh(ring) && c == Control(0, 0, 0, 0, 0, 0, 0) && head == tail == 0
    {
      c, head, tail := Control(0, 0, 0, 0, 0, 0, 0), 0, 0;
      ring := new bv8[RING](_ => 0);
    }

    method RxPush(x: bv8)
      requires Valid()
      modifies `head, ring
      ensures Valid() && View() == old(View()).(rx := Push(old(View()).rx, x))
    {
      var next := (head + 1) % RING;
      if next == tail { return; }
      ring[head] := x;
      head := next;
    }

    method RxPop() returns (x: bv8)
      requires Valid()
      modifies `tail
      ensures Valid() && View() == old(View()).(rx := Pop(old(View()).rx).0) && x == Pop(old(View()).rx).1
    {
      if head == tail { return 0; }
      x := ring[tail];
      tail := (tail + 1) % RING;
    }

    method ReadReg(offset: nat) returns (x: bv8, again: bool)
      requires Valid()
      modifies `tail
      ensures Valid() && (View(), x, again) == RegRead(old(View()), offset)
    {
      hide Any, Pop;
      again := false;
      if Any(c.lcr, DLAB) {
        if offset == 0 { return c.dll, false; }
        if offset == 1 { return c.dlm, false; }
      }
      match offset
      case 0 =>
        x := RxPop();
        again := true;
      case 1 => x := c.ier;
      case 2 =>
        if Any(c.ier, ERBFI) && head != tail { x := 0x04; }
        else if Any(c.ier, ETBEI) { x := 0x02; }
        else { x := 0x01; }
        if Any(c.fcr, 0x01) { x := x | 0xC0; }
      case 3 => x := c.lcr;
      case 4 => x := c.mcr;
      case 5 => x := if head == tail then 0x60 else 0x61;
      case 6 =>
        x := if Any(c.mcr, LOOPBACK)
             then ((c.mcr & 0x0C) << 4) | ((c.mcr & 0x02) << 3) | ((c.mcr & 0x01) << 5) else 0xB0;
      case 7 => x := c.scr;
      case _ => x := 0;
    }

    method WriteReg(offset: nat, value: bv8) returns (again: bool)
      requires Valid()
      modifies `c, `head, ring
      ensures Valid() && (View(), again) == RegWrite(old(View()), offset, value)
    {
      hide Any, Push;
      again := false;
      if Any(c.lcr, DLAB) {
        if offset == 0 { c := c.(dll := value); return; }
        if offset == 1 { c := c.(dlm := value); return; }
      }
      match offset
      case 0 =>
        if Any(c.mcr, LOOPBACK) { RxPush(value); }
        again := true;
      case 1 =>
        c := c.(ier := value);
        again := true;
      case 2 => c := c.(fcr := value);
      case 3 => c := c.(lcr := value);
      case 4 => c := c.(mcr := value);
      case 7 => c := c.(scr := value);
      case _ =>
    }
  }
}
