/** The emulated devices together: the device windows (main/hyp_mmio.c), the accesses that reach across
    devices, and the poll that brings host events in (main/hyp_intr.c). */
module Board {
  import opened Bits
  import Plic
  import Uart
  import Clint
  import BlkRegs

  datatype State = State(plic: Plic.Regs, uart: Uart.Regs, clint: Clint.Regs, blk: BlkRegs.Regs)

  predicate Ok(b: State) {
    Plic.Ok(b.plic) && Uart.Ok(b.uart)
  }

  // ---- the device windows --------------------------------------------------------------------------

  datatype Device = ClintDev | UartDev | PlicDev | BlkDev

  datatype Window = Window(base: nat, size: nat, device: Device)

  /** The table, in its order. */
  function Windows(): seq<Window> {
    [Window(0x02000000, 0x00010000, ClintDev), Window(0x10000000, 0x00000100, UartDev),
     Window(0x0C000000, 0x00400000, PlicDev), Window(0x10001000, 0x00001000, BlkDev)]
  }

  predicate Inside(w: Window, address: nat) {
    w.base <= address < w.base + w.size
  }

  datatype Option<T> = None | Some(value: T)

  /** The window an address lies in; at most one does, so the order of the table does not matter. */
  method MmioFind(address: nat) returns (found: Option<Window>)
    ensures found.Some? ==> found.value in Windows() && Inside(found.value, address)
    ensures forall w :: w in Windows() && Inside(w, address) ==> found == Some(w)
    ensures found == Find(address)
  {
    var table := Windows();
    for i := 0 to |table|
      invariant forall k :: 0 <= k < i ==> !Inside(table[k], address)
    {
      if table[i].base <= address && address < table[i].base + table[i].size {
        return Some(table[i]);
      }
    }
    return None;
  }

  function Find(address: nat): Option<Window> {
    if 0x02000000 <= address < 0x02010000 then Some(Window(0x02000000, 0x00010000, ClintDev))
    else if 0x0C000000 <= address < 0x0C400000 then Some(Window(0x0C000000, 0x00400000, PlicDev))
    else if 0x10000000 <= address < 0x10000100 then Some(Window(0x10000000, 0x00000100, UartDev))
    else if 0x10001000 <= address < 0x10002000 then Some(Window(0x10001000, 0x00001000, BlkDev))
    else None
  }

  // ---- accesses ------------------------------------------------------------------------------------

  /** v16550_reeval: the console's line, as it is now. */
  function Reeval(b: State): State {
    b.(plic := Plic.SetPending(b.plic, Plic.UART_SOURCE, Uart.Level(b.uart)))
  }

  function UartByteRead(b: State, offset: nat): (r: (State, bv8))
    requires Ok(b)
    ensures Ok(r.0)
  {
    var (u, x, again) := Uart.RegRead(b.uart, offset);
    (if again then Reeval(b.(uart := u)) else b, x)
  }

  function UartByteWrite(b: State, offset: nat, x: bv8): (t: State)
    requires Ok(b)
    ensures Ok(t)
  {
    var (u, again) := Uart.RegWrite(b.uart, offset, x);
    if again then Reeval(b.(uart := u)) else b.(uart := u)
  }

  /** One byte register after another, each in its lane. */
  function UartRead(b: State, offset: nat, width: nat): (r: (State, bv32))
    requires Ok(b) && width <= 4
    ensures Ok(r.0)
  {
    if width == 0 then (b, 0)
    else
      var (t, value) := UartRead(b, offset, width - 1);
      var (u, x) := UartByteRead(t, offset + (width - 1));
      (u, BlkRegs.Lane(value, width - 1, x))
  }

  function ByteOf(value: bv32, i: nat): bv8
    requires i < 4
  {
    ((if i == 0 then value else if i == 1 then value >> 8 else if i == 2 then value >> 16 else value >> 24) & 0xFF) as bv8
  }

  function UartWrite(b: State, offset: nat, value: bv32, width: nat): (t: State)
    requires Ok(b) && width <= 4
    ensures Ok(t)
  {
    if width == 0 then b
    else UartByteWrite(UartWrite(b, offset, value, width - 1), offset + (width - 1), ByteOf(value, width - 1))
  }

  /** A 32-bit number as a register. */
  function Word(n: nat): bv32
    requires n < 0x1_0000_0000
  {
    n as bv32
  }

  /** What the devices see of the outside world during one trap. */
  datatype World = World(now: nat, card: BlkRegs.Card)

  function Read(b: State, w: World, d: Device, offset: nat, width: nat): (r: (State, bv32))
    requires Ok(b) && BlkRegs.Sized(w.card) && width <= 4
    ensures Ok(r.0)
  {
    match d
    case ClintDev => (b, Word(Clint.Read(b.clint, w.now, offset)))
    case UartDev => UartRead(b, offset, width)
    case PlicDev =>
      var (p, value) := Plic.Read(b.plic, offset);
      (b.(plic := p), value)
    case BlkDev => (b, BlkRegs.Read(b.blk, w.card, offset, width))
  }

  function PlicWrite(b: State, offset: nat, value: bv32): (t: State)
    requires Ok(b)
    ensures Ok(t)
  {
    var (p, again) := Plic.Write(b.plic, offset, value);
    if again == Plic.UART_SOURCE then Reeval(b.(plic := p)) else b.(plic := p)
  }

  function BlkLine(b: State, on: bool): State {
    b.(plic := Plic.SetPending(b.plic, Plic.VIRTIO_BLK_SOURCE, on))
  }

  function BlkWrite(b: State, w: World, offset: nat, value: bv32): (t: State)
    requires Ok(b)
    ensures Ok(t)
  {
    var (r, dropped) := BlkRegs.Write(b.blk, w.card, offset, value);
    if dropped then BlkLine(b.(blk := r), false) else b.(blk := r)
  }

  function Write(b: State, w: World, d: Device, offset: nat, value: bv32, width: nat): (t: State)
    requires Ok(b) && width <= 4
    ensures Ok(t)
  {
    match d
    case ClintDev => b.(clint := Clint.Write(b.clint, offset, Num(value)))
    case UartDev => UartWrite(b, offset, value, width)
    case PlicDev => PlicWrite(b, offset, value)
    case BlkDev => BlkWrite(b, w, offset, value)
  }

  // ---- the poll ------------------------------------------------------------------------------------

  const STATS_KEY: bv8 := 0x1E

  function PushAll(f: Uart.Fifo, input: seq<bv8>): (t: Uart.Fifo)
    requires Uart.Good(f)
    ensures Uart.Good(t)
    decreases |input|
  {
    if input == [] then f
    else PushAll(if input[0] == STATS_KEY then f else Uart.Push(f, input[0]), input[1..])
  }

  function BlkPoll(b: State): (t: State)
    requires Ok(b)
    ensures Ok(t)
  {
    var (r, raised) := BlkRegs.Poll(b.blk);
    if raised then BlkLine(b.(blk := r), true) else b
  }

  /** hyp_poll_host_devices: the alarm, the bytes in the host's receive FIFO, the block device's flag. */
  function Poll(b: State, input: seq<bv8>): (t: State)
    requires Ok(b)
    ensures Ok(t)
  {
    var a := b.(clint := Clint.Service(b.clint));
    var c := a.(uart := a.uart.(rx := PushAll(a.uart.rx, input)));
    Reeval(BlkPoll(c))
  }

  /** The bytes a poll takes in for the guest. */
  function Kept(input: seq<bv8>): seq<bv8> {
    if input == [] then [] else (if input[0] == 0x1E then [] else [input[0]]) + Kept(input[1..])
  }

  function FirstBytes(x: seq<bv8>, n: nat): seq<bv8> {
    if |x| <= n then x else x[..n]
  }

  /** Polled bytes wait behind those already there, as long as there is room; Ctrl-^ is the monitor's. */
  lemma {:induction false} PushAllAppends(f: Uart.Fifo, input: seq<bv8>)
    requires Uart.Good(f)
    ensures Uart.Waiting(PushAll(f, input)) == FirstBytes(Uart.Waiting(f) + Kept(input), 511)
    decreases |input|
  {
    hide Uart.Waiting, Uart.Push;
    RoomFor(f);
    if input == [] {
      assert Uart.Waiting(f) + [] == Uart.Waiting(f);
    } else {
      var t := if input[0] == 0x1E then f else Uart.Push(f, input[0]);
      Uart.PushAppends(f, input[0]);
      PushAllAppends(t, input[1..]);
      Behind(Uart.Waiting(f), [input[0]], Kept(input[1..]));
      assert [] + Kept(input[1..]) == Kept(input[1..]);
    }
  }

  lemma RoomFor(f: Uart.Fifo)
    requires Uart.Good(f)
    ensures |Uart.Waiting(f)| <= 511
  {
  }

  lemma Behind(w: seq<bv8>, x: seq<bv8>, k: seq<bv8>)
    requires |w| <= 511 && |x| == 1
    ensures |w| < 511 ==> FirstBytes(w + x + k, 511) == FirstBytes(w + (x + k), 511)
    ensures |w| == 511 ==> FirstBytes(w + k, 511) == FirstBytes(w + (x + k), 511)
  {
    assert w + x + k == w + (x + k);
  }

  /** What a poll does: the bytes reach the console's queue, a completion of core 0 is signalled once, the
      alarm is turned off if it has gone off, and the console's line is computed last. */
  lemma PollMeans(b: State, input: seq<bv8>)
    requires Ok(b)
    ensures var t := Poll(b, input);
      && Uart.Waiting(t.uart.rx) == FirstBytes(Uart.Waiting(b.uart.rx) + Kept(input), 511) && t.uart.c == b.uart.c
      && t.blk == BlkRegs.Poll(b.blk).0 && t.clint == Clint.Service(b.clint)
      && (Has(t.plic.pending, 10) <==> Uart.Level(t.uart))
      && (Has(t.plic.pending, 11) <==> b.blk.irq || Has(b.plic.pending, 11))
      && t.plic == b.plic.(pending := t.plic.pending)
  {
    hide Has, Put, Uart.Level, PushAll, Uart.Waiting, BlkRegs.OrOne, Clint.Service;
    PushAllAppends(b.uart.rx, input);
    var u := b.uart.(rx := PushAll(b.uart.rx, input));
    var p := if b.blk.irq then Put(b.plic.pending, Plic.VIRTIO_BLK_SOURCE, true) else b.plic.pending;
    HasPut(b.plic.pending, Plic.VIRTIO_BLK_SOURCE, true, Plic.VIRTIO_BLK_SOURCE);
    HasPut(p, Plic.UART_SOURCE, Uart.Level(u), Plic.UART_SOURCE);
    HasPut(p, Plic.UART_SOURCE, Uart.Level(u), Plic.VIRTIO_BLK_SOURCE);
  }

  /** A halfword stored at the console with the divisor latches in front: the low byte goes to the first
      register, the high byte to the second. */
  lemma LanesWritten(b: State, value: bv32)
    requires Ok(b) && Uart.Any(b.uart.c.lcr, 0x80)
    ensures var t := UartWrite(b, 0, value, 2);
      t.uart == b.uart.(c := b.uart.c.(dll := ByteOf(value, 0), dlm := ByteOf(value, 1))) && t.plic == b.plic
    ensures ByteOf(value, 0) as bv32 == value & 0xFF && ByteOf(value, 1) as bv32 == (value >> 8) & 0xFF
  {
    hide Uart.Any;
    assert UartWrite(b, 0, value, 0) == b;
    assert UartWrite(b, 0, value, 1) == UartByteWrite(b, 0, ByteOf(value, 0));
  }

  /** Byte `i` of a wide console read is register offset + i, in its place. */
  lemma LanesRead(b: State, offset: nat, width: nat)
    requires Ok(b) && 0 < width <= 4
    ensures var (t, v) := UartRead(b, offset, width - 1);
      var (u, x) := UartByteRead(t, offset + (width - 1));
      UartRead(b, offset, width).0 == u && ByteOf(UartRead(b, offset, width).1, width - 1) == x
  {
    hide UartByteRead, UartRead, ByteOf, BlkRegs.Lane, Above;
    UartReadUnfolds(b, offset, width);
    LaneZero(b, offset, width - 1);
    var (t, v) := UartRead(b, offset, width - 1);
    LaneAt(v, width - 1, UartByteRead(t, offset + (width - 1)).1);
  }

  lemma UartReadUnfolds(b: State, offset: nat, width: nat)
    requires Ok(b) && 0 < width <= 4
    ensures var (t, v) := UartRead(b, offset, width - 1);
      var (u, x) := UartByteRead(t, offset + (width - 1));
      UartRead(b, offset, width) == (u, BlkRegs.Lane(v, width - 1, x))
  {
    hide UartByteRead, BlkRegs.Lane;
  }

  /** The lanes from `k` on are zero. */
  predicate Above(v: bv32, k: nat) {
    (k == 0 ==> v == 0) && (k == 1 ==> v & 0xFFFF_FF00 == 0) && (k == 2 ==> v & 0xFFFF_0000 == 0)
    && (k == 3 ==> v & 0xFF00_0000 == 0)
  }

  lemma {:induction false} LaneZero(b: State, offset: nat, width: nat)
    requires Ok(b) && width <= 3
    ensures Above(UartRead(b, offset, width).1, width)
    decreases width
  {
    hide UartByteRead, UartRead, BlkRegs.Lane, Above;
    if width == 0 {
      NothingRead(b, offset);
    } else {
      UartReadUnfolds(b, offset, width);
      LaneZero(b, offset, width - 1);
      var (t, v) := UartRead(b, offset, width - 1);
      LaneAbove(v, width - 1, UartByteRead(t, offset + (width - 1)).1);
    }
  }

  lemma NothingRead(b: State, offset: nat)
    requires Ok(b)
    ensures Above(UartRead(b, offset, 0).1, 0)
  {
  }

  lemma LaneIs0(v: bv32, x: bv8)
    ensures BlkRegs.Lane(v, 0, x) == v | ((x as bv32) << 0)
  {
  }

  lemma ByteIs0(v: bv32)
    ensures ByteOf(v, 0) == ((v >> 0) & 0xFF) as bv8
  {
  }

  lemma RawLane0(v: bv32, x: bv8)
    requires v == 0
    ensures (((v | ((x as bv32) << 0)) >> 0) & 0xFF) as bv8 == x
  {
  }

  lemma RawAbove0(v: bv32, x: bv8)
    requires v == 0
    ensures (v | ((x as bv32) << 0)) & 0xFFFF_FF00 == 0
  {
  }

  lemma LaneIs1(v: bv32, x: bv8)
    ensures BlkRegs.Lane(v, 1, x) == v | ((x as bv32) << 8)
  {
  }

  lemma ByteIs1(v: bv32)
    ensures ByteOf(v, 1) == ((v >> 8) & 0xFF) as bv8
  {
  }

  lemma RawLane1(v: bv32, x: bv8)
    requires v & 0xFFFF_FF00 == 0
    ensures (((v | ((x as bv32) << 8)) >> 8) & 0xFF) as bv8 == x
  {
  }

  lemma RawAbove1(v: bv32, x: bv8)
    requires v & 0xFFFF_FF00 == 0
    ensures (v | ((x as bv32) << 8)) & 0xFFFF_0000 == 0
  {
  }

  lemma LaneIs2(v: bv32, x: bv8)
    ensures BlkRegs.Lane(v, 2, x) == v | ((x as bv32) << 16)
  {
  }

  lemma ByteIs2(v: bv32)
    ensures ByteOf(v, 2) == ((v >> 16) & 0xFF) as bv8
  {
  }

  lemma RawLane2(v: bv32, x: bv8)
    requires v & 0xFFFF_0000 == 0
    ensures (((v | ((x as bv32) << 16)) >> 16) & 0xFF) as bv8 == x
  {
  }

  lemma RawAbove2(v: bv32, x: bv8)
    requires v & 0xFFFF_0000 == 0
    ensures (v | ((x as bv32) << 16)) & 0xFF00_0000 == 0
  {
  }

  lemma LaneIs3(v: bv32, x: bv8)
    ensures BlkRegs.Lane(v, 3, x) == v | ((x as bv32) << 24)
  {
  }

  lemma ByteIs3(v: bv32)
    ensures ByteOf(v, 3) == ((v >> 24) & 0xFF) as bv8
  {
  }

  lemma RawLane3(v: bv32, x: bv8)
    requires v & 0xFF00_0000 == 0
    ensures (((v | ((x as bv32) << 24)) >> 24) & 0xFF) as bv8 == x
  {
  }

  lemma LaneAt(v: bv32, k: nat, x: bv8)
    requires k < 4 && Above(v, k)
    ensures ByteOf(BlkRegs.Lane(v, k, x), k) == x
  {
    hide BlkRegs.Lane, ByteOf;
    if k == 0 {
      LaneIs0(v, x);
      ByteIs0(BlkRegs.Lane(v, 0, x));
      RawLane0(v, x);
    } else if k == 1 {
      LaneIs1(v, x);
      ByteIs1(BlkRegs.Lane(v, 1, x));
      RawLane1(v, x);
    } else if k == 2 {
      LaneIs2(v, x);
      ByteIs2(BlkRegs.Lane(v, 2, x));
      RawLane2(v, x);
    } else {
      LaneIs3(v, x);
      ByteIs3(BlkRegs.Lane(v, 3, x));
      RawLane3(v, x);
    }
  }

  lemma LaneAbove(v: bv32, k: nat, x: bv8)
    requires k < 3 && Above(v, k)
    ensures Above(BlkRegs.Lane(v, k, x), k + 1)
  {
    hide BlkRegs.Lane;
    if k == 0 {
      LaneIs0(v, x);
      RawAbove0(v, x);
    } else if k == 1 {
      LaneIs1(v, x);
      RawAbove1(v, x);
    } else {
      LaneIs2(v, x);
      RawAbove2(v, x);
    }
  }

  // ---- the interrupt lines ---------------------------------------------------------------------------

  /** Unless it is in service, the console's source is pending exactly when its line is up. */
  ghost predicate UartLine(b: State) {
    !Has(b.plic.claimed, Plic.UART_SOURCE) ==> (Has(b.plic.pending, Plic.UART_SOURCE) <==> Uart.Level(b.uart))
  }

  /** The block device's source is pending only when its status says why. */
  ghost predicate BlkPending(b: State) {
    Has(b.plic.pending, Plic.VIRTIO_BLK_SOURCE) ==> b.blk.interruptStatus != 0
  }

  ghost predicate Lines(b: State) {
    UartLine(b) && BlkPending(b)
  }

  lemma ReevalLines(b: State)
    requires BlkPending(b)
    ensures Lines(Reeval(b))
  {
    hide Has, Put, Uart.Level;
    HasPut(b.plic.pending, Plic.UART_SOURCE, Uart.Level(b.uart), Plic.UART_SOURCE);
    HasPut(b.plic.pending, Plic.UART_SOURCE, Uart.Level(b.uart), Plic.VIRTIO_BLK_SOURCE);
  }

  lemma UartByteReadLines(b: State, offset: nat)
    requires Ok(b) && Lines(b)
    ensures Lines(UartByteRead(b, offset).0)
  {
    hide Has, Uart.Level, Uart.RegRead, Reeval;
    var (u, x, again) := Uart.RegRead(b.uart, offset);
    if again { ReevalLines(b.(uart := u)); }
  }

  lemma UartByteWriteLines(b: State, offset: nat, x: bv8)
    requires Ok(b) && Lines(b)
    ensures Lines(UartByteWrite(b, offset, x))
  {
    hide Has, Uart.Level, Uart.RegWrite, Reeval;
    var (u, again) := Uart.RegWrite(b.uart, offset, x);
    if again { ReevalLines(b.(uart := u)); } else { Uart.QuietWrite(b.uart, offset, x); }
  }

  lemma {:induction false} UartReadLines(b: State, offset: nat, width: nat)
    requires Ok(b) && Lines(b) && width <= 4
    ensures Lines(UartRead(b, offset, width).0)
    decreases width
  {
    hide Lines, UartByteRead, Ok;
    if width > 0 {
      UartReadLines(b, offset, width - 1);
      UartByteReadLines(UartRead(b, offset, width - 1).0, offset + (width - 1));
    }
  }

  lemma {:induction false} UartWriteLines(b: State, offset: nat, value: bv32, width: nat)
    requires Ok(b) && Lines(b) && width <= 4
    ensures Lines(UartWrite(b, offset, value, width))
    decreases width
  {
    hide Lines, UartByteWrite, ByteOf, Ok;
    if width > 0 {
      UartWriteLines(b, offset, value, width - 1);
      UartByteWriteLines(UartWrite(b, offset, value, width - 1), offset + (width - 1), ByteOf(value, width - 1));
    }
  }

  /** A claim leaves every line as the invariant wants it: the claimed source is in service. */
  lemma ClaimLines(b: State)
    requires Ok(b) && Lines(b)
    ensures Lines(b.(plic := Plic.Claim(b.plic).0))
  {
    hide Has, Set, Clear, Uart.Level, Plic.Peek;
    var n := Plic.Peek(b.plic);
    HasClear(b.plic.pending, n, Plic.UART_SOURCE);
    HasClear(b.plic.pending, n, Plic.VIRTIO_BLK_SOURCE);
    HasSet(b.plic.claimed, n, Plic.UART_SOURCE);
  }

  lemma PlicReadLines(b: State, offset: nat)
    requires Ok(b) && Lines(b)
    ensures Lines(b.(plic := Plic.Read(b.plic, offset).0))
  {
    hide Lines, Plic.Claim, Plic.Id, Plic.Ok;
    if offset == Plic.CLAIM { ClaimLines(b); }
  }

  /** A completion of the console's source computes its line again. */
  lemma PlicWriteLines(b: State, offset: nat, value: bv32)
    requires Ok(b) && Lines(b)
    ensures Lines(PlicWrite(b, offset, value))
  {
    hide Has, Plic.Write, Uart.Level, Reeval;
    var (p, again) := Plic.Write(b.plic, offset, value);
    Plic.WriteKeepsOthers(b.plic, offset, value, Plic.UART_SOURCE);
    if again == Plic.UART_SOURCE { ReevalLines(b.(plic := p)); }
  }

  lemma BlkLineLines(b: State, on: bool)
    requires UartLine(b) && (on ==> b.blk.interruptStatus != 0)
    ensures Lines(BlkLine(b, on))
  {
    hide Has, Put, Uart.Level;
    HasPut(b.plic.pending, Plic.VIRTIO_BLK_SOURCE, on, Plic.VIRTIO_BLK_SOURCE);
    HasPut(b.plic.pending, Plic.VIRTIO_BLK_SOURCE, on, Plic.UART_SOURCE);
  }

  lemma BlkWriteLines(b: State, w: World, offset: nat, value: bv32)
    requires Ok(b) && Lines(b)
    ensures Lines(BlkWrite(b, w, offset, value))
  {
    hide Has, Uart.Level, BlkRegs.Write, BlkLine;
    BlkRegs.WriteAndLine(b.blk, w.card, offset, value);
    var (r, dropped) := BlkRegs.Write(b.blk, w.card, offset, value);
    if dropped { BlkLineLines(b.(blk := r), false); }
  }

  lemma ReadLines(b: State, w: World, d: Device, offset: nat, width: nat)
    requires Ok(b) && Lines(b) && BlkRegs.Sized(w.card) && width <= 4
    ensures Lines(Read(b, w, d, offset, width).0)
  {
    hide Lines, UartRead, Plic.Read;
    match d
    case UartDev => UartReadLines(b, offset, width);
    case PlicDev => PlicReadLines(b, offset);
    case _ =>
  }

  lemma WriteLines(b: State, w: World, d: Device, offset: nat, value: bv32, width: nat)
    requires Ok(b) && Lines(b) && width <= 4
    ensures Lines(Write(b, w, d, offset, value, width))
  {
    hide UartWrite, PlicWrite, BlkWrite, Clint.Write, Has, Uart.Level;
    match d
    case UartDev => UartWriteLines(b, offset, value, width);
    case PlicDev => PlicWriteLines(b, offset, value);
    case BlkDev => BlkWriteLines(b, w, offset, value);
    case ClintDev =>
  }

  /** The poll ends by computing the console's line, after every byte it took in. */
  lemma PollLines(b: State, input: seq<bv8>)
    requires Ok(b) && Lines(b)
    ensures Lines(Poll(b, input))
  {
    hide Has, Put, Uart.Level, Reeval, PushAll, Clint.Service, BlkRegs.OrOne;
    var c := b.(clint := Clint.Service(b.clint), uart := b.uart.(rx := PushAll(b.uart.rx, input)));
    BlkRegs.OrOneNonzero(c.blk.interruptStatus);
    HasPut(c.plic.pending, Plic.VIRTIO_BLK_SOURCE, true, Plic.VIRTIO_BLK_SOURCE);
    ReevalLines(BlkPoll(c));
  }

  // ---- whole runs ------------------------------------------------------------------------------------

  /** Anything that happens to the devices: an access of the guest, time passing (the alarm goes off by
      itself), a poll with the bytes it finds, and core 0 at work. */
  datatype Event =
    | ReadEvent(d: Device, offset: nat, width: nat)
    | WriteEvent(d: Device, offset: nat, value: bv32, width: nat)
    | TimeEvent(later: nat)
    | PollEvent(input: seq<bv8>)
    | Core0Event(kick: bool, irq: bool)

  predicate Possible(now: nat, e: Event) {
    match e
    case ReadEvent(_, _, width) => width <= 4
    case WriteEvent(_, _, _, width) => width <= 4
    case TimeEvent(later) => now <= later
    case _ => true
  }

  function After(b: State, w: World, e: Event): (r: (State, World))
    requires Ok(b) && BlkRegs.Sized(w.card) && Possible(w.now, e)
    ensures Ok(r.0) && BlkRegs.Sized(r.1.card)
  {
    match e
    case ReadEvent(d, offset, width) => (Read(b, w, d, offset, width).0, w)
    case WriteEvent(d, offset, value, width) => (Write(b, w, d, offset, value, width), w)
    case TimeEvent(later) => (b.(clint := Clint.Fire(b.clint, later)), w.(now := later))
    case PollEvent(input) => (Poll(b, input), w)
    case Core0Event(kick, irq) => (b.(blk := b.blk.(kick := kick, irq := irq)), w)
  }

  ghost predicate Inv(b: State, now: nat) {
    Ok(b) && Lines(b) && Clint.Covered(b.clint, now)
  }

  lemma ClintOnlyWrites(b: State, w: World, d: Device, offset: nat, value: bv32, width: nat)
    requires Ok(b) && width <= 4
    ensures Write(b, w, d, offset, value, width).clint
            == if d == ClintDev then Clint.Write(b.clint, offset, Num(value)) else b.clint
  {
    hide Clint.Write, BlkRegs.Write, Plic.Write, ByteOf, UartByteWrite, Plic.SetPending, Uart.Level;
    if d == UartDev { UartWriteClint(b, offset, value, width); }
  }

  lemma {:induction false} UartWriteClint(b: State, offset: nat, value: bv32, width: nat)
    requires Ok(b) && width <= 4
    ensures UartWrite(b, offset, value, width).clint == b.clint
    decreases width
  {
    hide Uart.RegWrite, ByteOf, Plic.SetPending, Uart.Level;
    if width > 0 { UartWriteClint(b, offset, value, width - 1); }
  }

  lemma {:induction false} UartReadClint(b: State, offset: nat, width: nat)
    requires Ok(b) && width <= 4
    ensures UartRead(b, offset, width).0.clint == b.clint
    decreases width
  {
    hide Uart.RegRead, Plic.SetPending, Uart.Level;
    if width > 0 { UartReadClint(b, offset, width - 1); }
  }

  lemma ReadClint(b: State, w: World, d: Device, offset: nat, width: nat)
    requires Ok(b) && BlkRegs.Sized(w.card) && width <= 4
    ensures Read(b, w, d, offset, width).0.clint == b.clint
  {
    hide UartRead, Plic.Read, BlkRegs.Read, Clint.Read, Word;
    if d == UartDev { UartReadClint(b, offset, width); }
  }

  lemma PollClint(b: State, input: seq<bv8>)
    requires Ok(b)
    ensures Poll(b, input).clint == Clint.Service(b.clint)
  {
    hide Clint.Service, PushAll, BlkRegs.Poll, Plic.SetPending, Uart.Level;
  }

  lemma InvKept(b: State, w: World, e: Event)
    requires Inv(b, w.now) && BlkRegs.Sized(w.card) && Possible(w.now, e)
    ensures var (t, v) := After(b, w, e); Inv(t, v.now)
  {
    hide Read, Write, Poll, Clint.Covered, Clint.Fire, Clint.Service, Clint.Write, Has, Uart.Level;
    match e
    case ReadEvent(d, offset, width) =>
      ReadLines(b, w, d, offset, width);
      ReadClint(b, w, d, offset, width);
    case WriteEvent(d, offset, value, width) =>
      WriteLines(b, w, d, offset, value, width);
      ClintOnlyWrites(b, w, d, offset, value, width);
      Clint.WriteCovered(b.clint, w.now, offset, Num(value));
    case TimeEvent(later) => Clint.TimeCovered(b.clint, w.now, later);
    case PollEvent(input) =>
      PollLines(b, input);
      PollClint(b, input);
      Clint.ServiceCovered(b.clint, w.now);
    case Core0Event(kick, irq) =>
  }

  predicate PossibleRun(now: nat, es: seq<Event>)
    decreases |es|
  {
    es != [] ==>
      Possible(now, es[0]) && PossibleRun(if es[0].TimeEvent? then es[0].later else now, es[1..])
  }

  function Run(b: State, w: World, es: seq<Event>): (State, World)
    requires Ok(b) && BlkRegs.Sized(w.card) && PossibleRun(w.now, es)
    decreases |es|
  {
    if es == [] then (b, w)
    else
      var (t, v) := After(b, w, es[0]);
      Run(t, v, es[1..])
  }

  ghost predicate PowerOn(b: State) {
    && Ok(b)
    && b.plic.enable == b.plic.pending == b.plic.claimed == b.plic.threshold == 0
    && b.uart.c == Uart.Control(0, 0, 0, 0, 0, 0, 0) && Uart.Empty(b.uart.rx)
    && b.clint.mtimecmp == 0xFFFF_FFFF_FFFF_FFFF && b.clint.alarm == Clint.Alarm(false, b.clint.alarm.target, false)
    && b.blk.interruptStatus == 0
  }

  lemma PowerOnInv(b: State, now: nat)
    requires PowerOn(b)
    ensures Inv(b, now)
  {
    hide Has, Uart.Any;
    HasZero(Plic.UART_SOURCE);
    HasZero(Plic.VIRTIO_BLK_SOURCE);
    NoneOfZero(Uart.ERBFI);
    NoneOfZero(Uart.ETBEI);
  }

  lemma NoneOfZero(mask: bv8)
    ensures !Uart.Any(0, mask)
  {
  }

  lemma {:induction false} RunInv(b: State, w: World, es: seq<Event>)
    requires Inv(b, w.now) && BlkRegs.Sized(w.card) && PossibleRun(w.now, es)
    ensures var (t, v) := Run(b, w, es); Inv(t, v.now)
    decreases |es|
  {
    hide Inv, After, Possible;
    if es != [] {
      InvHasOk(b, w.now);
      AfterTime(b, w, es[0]);
      InvKept(b, w, es[0]);
      var (t, v) := After(b, w, es[0]);
      RunInv(t, v, es[1..]);
    }
  }

  lemma InvHasOk(b: State, now: nat)
    requires Inv(b, now)
    ensures Ok(b)
  {
  }

  lemma AfterTime(b: State, w: World, e: Event)
    requires Ok(b) && BlkRegs.Sized(w.card) && Possible(w.now, e)
    ensures After(b, w, e).1.now == if e.TimeEvent? then e.later else w.now
  {
    hide Read, Write, Poll, Clint.Fire;
  }

  /** Whatever the guest does to the devices and whatever arrives from outside, from power-on: the console's
      interrupt is never lost, the block device's is never spurious, and an armed timer keeps its alarm. */
  lemma LinesOverRuns(b: State, w: World, es: seq<Event>)
    requires PowerOn(b) && BlkRegs.Sized(w.card) && PossibleRun(w.now, es)
    ensures var (t, v) := Run(b, w, es);
      && (!Has(t.plic.claimed, 10) ==>
            (Has(t.plic.pending, 10) <==>
               (Uart.Any(t.uart.c.ier, 0x01) && !Uart.Empty(t.uart.rx)) || Uart.Any(t.uart.c.ier, 0x02)))
      && (Has(t.plic.pending, 11) ==> t.blk.interruptStatus != 0)
      && (t.clint.mtimecmp < 0x10_0000_0000_0000 ==>
            t.clint.mtimecmp <= v.now || (t.clint.alarm.on && t.clint.alarm.target == t.clint.mtimecmp))
  {
    hide Has, Uart.Any, Run, PossibleRun, PowerOn;
    PowerOnInv(b, w.now);
    RunInv(b, w, es);
  }

  // ---- the code ------------------------------------------------------------------------------------

  class Devices {
    const plic: Plic.Device
    const uart: Uart.Device
    var clint: Clint.Regs
    var blk: BlkRegs.Regs

    ghost const Repr: set<object>

    ghost predicate Valid()
      reads this, plic, uart
    {
      Repr == {this, plic, plic.priority, uart, uart.ring} && plic.Valid() && uart.Valid()
    }

    ghost function View(): (b: State)
      requires Valid()
      reads this, plic, plic.priority, uart, uart.ring
      ensures Ok(b)
    {
      State(plic.View(), uart.View(), clint, blk)
    }

    constructor ()
      ensures Valid() && fresh(Repr) && PowerOn(View())
    {
      var p := new Plic.Device();
      var u := new Uart.Device();
      plic, uart := p, u;
      clint := Clint.Regs(0xFFFF_FFFF_FFFF_FFFF, Clint.Alarm(false, 0, false));
      blk := BlkRegs.Regs(BlkRegs.Setup(0, 0, 0, 0, 0, 0), 0, 0, 0, 0, false, false, false);
      Repr := {this, p, p.priority, u, u.ring};
    }

    /** v16550_reeval */
    method V16550Reeval()
      requires Valid()
      modifies plic
      ensures Valid() && View() == Reeval(old(View()))
    {
      hide Has, Set, Clear, Uart.Any;
      var rx := Uart.Any(uart.c.ier, Uart.ERBFI) && uart.head != uart.tail;
      var tx := Uart.Any(uart.c.ier, Uart.ETBEI);
      plic.PlicSetPending(Plic.UART_SOURCE, rx || tx);
    }

    method ReadByte(offset: nat) returns (x: bv8)
      requires Valid()
      modifies plic, uart
      ensures Valid() && (View(), x) == UartByteRead(old(View()), offset)
    {
      hide Uart.RegRead, Reeval;
      var c, again := uart.ReadReg(offset);
      x := c;
      if again { V16550Reeval(); }
    }

    method WriteByte(offset: nat, x: bv8)
      requires Valid()
      modifies plic, uart, uart.ring
      ensures Valid() && View() == UartByteWrite(old(View()), offset, x)
    {
      hide Uart.RegWrite, Reeval;
      var again := uart.WriteReg(offset, x);
      if again { V16550Reeval(); }
    }

    /** uart_read */
    method ReadUart(offset: nat, width: nat) returns (value: bv32)
      requires Valid() && width <= 4
      modifies plic, uart
      ensures Valid() && (View(), value) == UartRead(old(View()), offset, width)
    {
      hide UartByteRead, BlkRegs.Lane, View;
      value := 0;
      for i := 0 to width
        invariant Valid() && (View(), value) == UartRead(old(View()), offset, i)
      {
        var x := ReadByte(offset + i);
        value := BlkRegs.Lane(value, i, x);
      }
    }

    /** uart_write */
    method WriteUart(offset: nat, value: bv32, width: nat)
      requires Valid() && width <= 4
      modifies plic, uart, uart.ring
      ensures Valid() && View() == UartWrite(old(View()), offset, value, width)
    {
      hide UartByteWrite, ByteOf, View;
      for i := 0 to width
        invariant Valid() && View() == UartWrite(old(View()), offset, value, i)
      {
        WriteByte(offset + i, ByteOf(value, i));
      }
    }

    /** One row of the device table: its read function. */
    method ReadDevice(w: World, d: Device, offset: nat, width: nat) returns (value: bv32)
      requires Valid() && BlkRegs.Sized(w.card) && width <= 4
      modifies plic, uart
      ensures Valid() && (View(), value) == Read(old(View()), w, d, offset, width)
    {
      hide UartRead, Plic.Read, BlkRegs.Read, Word, Clint.Read;
      match d
      case ClintDev => value := Word(Clint.Read(clint, w.now, offset));
      case UartDev => value := ReadUart(offset, width);
      case PlicDev => value := plic.PlicRead(offset);
      case BlkDev => value := BlkRegs.Read(blk, w.card, offset, width);
    }

    /** ... and its write function. */
    method WriteDevice(w: World, d: Device, offset: nat, value: bv32, width: nat)
      requires Valid() && width <= 4
      modifies `clint, `blk, plic, plic.priority, uart, uart.ring
      ensures Valid() && View() == Write(old(View()), w, d, offset, value, width)
    {
      hide UartWrite, Plic.Write, BlkRegs.Write, Clint.Write, Num, Reeval, Put;
      match d
      case ClintDev => clint := Clint.Write(clint, offset, Num(value));
      case UartDev => WriteUart(offset, value, width);
      case PlicDev =>
        var again := plic.PlicWrite(offset, value);
        if again == Plic.UART_SOURCE { V16550Reeval(); }
      case BlkDev =>
        var (r, dropped) := BlkRegs.Write(blk, w.card, offset, value);
        blk := r;
        if dropped { plic.PlicSetPending(Plic.VIRTIO_BLK_SOURCE, false); }
    }

    /** hyp_poll_host_devices */
    method PollHostDevices(input: seq<bv8>)
      requires Valid()
      modifies `clint, `blk, plic, uart, uart.ring
      ensures Valid() && View() == Poll(old(View()), input)
    {
      hide Reeval, Put, Uart.Push, BlkRegs.OrOne;
      if clint.alarm.fired { clint := clint.(alarm := clint.alarm.(on := false, fired := false)); }
      ghost var a := View();
      for n := 0 to |input|
        invariant Valid() && View() == a.(uart := a.uart.(rx := View().uart.rx))
        invariant PushAll(a.uart.rx, input) == PushAll(View().uart.rx, input[n..])
      {
        var c := input[n];
        if c != STATS_KEY { uart.RxPush(c); }
        assert input[n..][1..] == input[n + 1..];
      }
      if blk.irq {
        blk := blk.(irq := false, interruptStatus := BlkRegs.OrOne(blk.interruptStatus));
        plic.PlicSetPending(Plic.VIRTIO_BLK_SOURCE, true);
      }
      V16550Reeval();
    }
  }
}
