/** One trap from the guest, as the monitor answers it (main/hyp_core.c, main/hyp_csr.c, main/hyp_mmio.c,
    main/hyp_intr.c): which instruction it was, what it did, and where the guest goes on. */
module Emulator {
  import opened Bits
  import Plic
  import Clint
  import BlkRegs
  import Board
  import Hart
  import Decode

  datatype State = State(h: Hart.State, b: Board.State)

  predicate Ok(s: State) {
    Hart.Ok(s.h) && Board.Ok(s.b)
  }

  /** What the core sees each time it wakes from a wfi: the time, and the bytes in the receive FIFO. */
  datatype Moment = Moment(now: nat, input: seq<bv8>)

  /** The trap, and the outside world while it is being answered. `low` and `high` are the halfwords at
      the guest's pc. */
  datatype Trap = Trap(cause: bv32, tval: bv32, low: bv16, high: bv16,
                       w: Board.World, input: seq<bv8>, moments: seq<Moment>)

  predicate Sized(t: Trap) {
    BlkRegs.Sized(t.w.card)
  }

  datatype Outcome = Advance(length: bv32) | Resume | Unhandled | Asleep

  // ---- registers -----------------------------------------------------------------------------------

  function RegIndex(r: bv5): Index {
    r as int
  }

  /** reg_read: index 0 of the frame is mepc, so x0 is a case of its own. */
  function X(h: Hart.State, r: bv5): bv32
    requires Hart.Ok(h)
  {
    if r == 0 then 0 else h.frame[RegIndex(r)]
  }

  /** reg_write */
  function RegWrite(h: Hart.State, r: bv5, v: bv32): (t: Hart.State)
    requires Hart.Ok(h)
    ensures Hart.Ok(t)
  {
    if r == 0 then h else h.(frame := h.frame[RegIndex(r) := v])
  }

  lemma RegIndexApart(r: bv5, q: bv5)
    requires r != q
    ensures RegIndex(r) != RegIndex(q)
  {
  }

  lemma RegIndexOfZero()
    ensures RegIndex(0) == 0
  {
  }

  /** A register write sets that register, never x0, never the pc behind it. */
  lemma RegWriteMeaning(h: Hart.State, r: bv5, v: bv32, q: bv5)
    requires Hart.Ok(h)
    ensures var t := RegWrite(h, r, v);
      X(t, q) == (if q == r && q != 0 then v else X(h, q)) && Hart.Pc(t) == Hart.Pc(h)
  {
    hide RegIndex;
    RegIndexOfZero();
    if r != 0 { RegIndexApart(r, 0); }
    if r != q { RegIndexApart(r, q); }
  }

  // ---- interrupts ----------------------------------------------------------------------------------

  predicate Mtip(b: Board.State, now: nat) {
    Clint.MtipPending(b.clint, now)
  }

  predicate Meip(b: Board.State)
    requires Board.Ok(b)
  {
    Plic.Peek(b.plic) != 0
  }

  function Deliver(s: State, now: nat): (t: State)
    requires Ok(s)
    ensures Ok(t)
  {
    s.(h := Hart.Deliver(s.h, Mtip(s.b, now), Meip(s.b)))
  }

  /** hyp_wfi_wake: the gate does not matter. */
  predicate WfiWake(s: State, now: nat)
    requires Ok(s)
  {
    Hart.Wanted(s.h.csr, s.h.mip, Mtip(s.b, now), Meip(s.b)).Some?
  }

  /** The wait loop: poll at each wake-up until something is wanted. Asleep when the moments run out. */
  function Wait(s: State, now: nat, moments: seq<Moment>): (r: (State, nat, bool))
    requires Ok(s)
    ensures Ok(r.0)
    decreases |moments|
  {
    if WfiWake(s, now) then (s, now, true)
    else if moments == [] then (s, now, false)
    else
      var m := moments[0];
      Wait(s.(b := Board.Poll(s.b.(clint := Clint.Fire(s.b.clint, m.now)), m.input)), m.now, moments[1..])
  }

  /** A wfi blocks only when the guest has a timer set or external interrupts enabled. */
  predicate Blocks(s: State) {
    (Has(s.h.csr.mie, Hart.MTIP) && s.b.clint.mtimecmp < Clint.NEVER) || Has(s.h.csr.mie, Hart.MEIP)
  }

  function Wfi(s: State, now: nat, moments: seq<Moment>): (r: (State, nat, bool))
    requires Ok(s)
    ensures Ok(r.0)
  {
    if Blocks(s) then Wait(s, now, moments) else (s, now, true)
  }

  // ---- CSR instructions ----------------------------------------------------------------------------

  datatype Op = Swap | SetBits | ClearBits | Neither

  function OpOf(funct3: bv3): Op {
    if funct3 & 3 == 1 then Swap else if funct3 & 3 == 2 then SetBits
    else if funct3 & 3 == 3 then ClearBits else Neither
  }

  predicate Immediate(funct3: bv3) {
    funct3 & 4 != 0
  }

  function Updated(op: Op, old_: bv32, src: bv32): bv32 {
    match op
    case Swap => src
    case SetBits => old_ | src
    case ClearBits => old_ & !src
    case Neither => old_
  }

  function CsrNumber(c: bv12): nat {
    c as nat
  }

  function Immediate5(r: bv5): bv32 {
    r as bv32
  }

  function Source(h: Hart.State, funct3: bv3, rs1: bv5): bv32
    requires Hart.Ok(h)
  {
    if Immediate(funct3) then Immediate5(rs1) else X(h, rs1)
  }

  /** csrrw always writes; csrrs and csrrc do not when the source field is zero. */
  predicate Writes(op: Op, rs1: bv5) {
    op == Swap || rs1 != 0
  }

  function CsrOp(s: State, now: nat, csr: nat, op: Op, src: bv32, rs1: bv5, rd: bv5): (r: Hart.Option<State>)
    requires Ok(s)
    ensures r.Some? ==> Ok(r.value)
  {
    var slot := Hart.ShadowSlot(csr);
    if csr == Hart.CSR_MIP then
      var old_ := Hart.MipRead(s.h.mip, Mtip(s.b, now), Meip(s.b));
      var h := if Writes(op, rs1) then s.h.(mip := Hart.Stored(Updated(op, old_, src))) else s.h;
      Hart.Some(s.(h := RegWrite(h, rd, old_)))
    else if slot.Some? then
      var old_ := Hart.Load(s.h, slot.value);
      var h := if Writes(op, rs1) then Hart.Store(s.h, slot.value, Updated(op, old_, src)) else s.h;
      Hart.Some(s.(h := RegWrite(h, rd, old_)))
    else if Hart.ReadOnlyZero(csr) then Hart.Some(s.(h := RegWrite(s.h, rd, 0)))
    else Hart.None
  }

  function Length(w: bv32): bv32 {
    if Decode.Is32Bit(w) then 4 else 2
  }

  datatype Handled = Handled(s: State, now: nat, outcome: Outcome)

  /** hypervisor_csr: an illegal-instruction trap, whose tval is the instruction. */
  function CsrTrap(s: State, t: Trap): (r: Handled)
    requires Ok(s)
    ensures Ok(r.s)
  {
    var w, now := t.tval, t.w.now;
    var f := Decode.Funct3(w);
    if Decode.Opcode(w) != 0x73 then Handled(s, now, Unhandled)
    else if f == 0 then
      if w == Decode.MRET then
        var (h, ok) := Hart.Mret(s.h);
        Handled(s.(h := h), now, if ok then Resume else Unhandled)
      else if w == Decode.WFI then
        var (u, later, awake) := Wfi(s, now, t.moments);
        Handled(u, later, if awake then Advance(Length(w)) else Asleep)
      else Handled(s, now, Unhandled)
    else if f == 4 then Handled(s, now, Unhandled)
    else
      var rs1 := Decode.Rs1(w);
      var r := CsrOp(s, now, CsrNumber(Decode.CsrField(w)), OpOf(f), Source(s.h, f, rs1), rs1, Decode.Rd(w));
      if r.Some? then Handled(r.value, now, Advance(Length(w))) else Handled(s, now, Unhandled)
  }

  // ---- device accesses -----------------------------------------------------------------------------

  function Low8(v: bv32): bv32 {
    v & 0xFF
  }

  function Low16(v: bv32): bv32 {
    v & 0xFFFF
  }

  function SignExtend8(v: bv32): bv32 {
    if v & 0x80 != 0 then (v & 0xFF) | 0xFFFF_FF00 else v & 0xFF
  }

  function SignExtend16(v: bv32): bv32 {
    if v & 0x8000 != 0 then (v & 0xFFFF) | 0xFFFF_0000 else v & 0xFFFF
  }

  /** How many bytes a load or store moves, 0 for none that exists. */
  function Width(funct3: bv3, store: bool): (n: nat)
    ensures n <= 4
  {
    if funct3 == 0 then 1 else if funct3 == 1 then 2 else if funct3 == 2 then 4
    else if store then 0 else if funct3 == 4 then 1 else if funct3 == 5 then 2 else 0
  }

  /** What a load leaves in its register. */
  function Extended(funct3: bv3, v: bv32): bv32 {
    if funct3 == 0 then SignExtend8(v) else if funct3 == 1 then SignExtend16(v) else v
  }

  function LoadFrom(s: State, w: Board.World, d: Board.Device, offset: nat, funct3: bv3, rd: bv5): (t: State)
    requires Ok(s) && BlkRegs.Sized(w.card)
    ensures Ok(t)
  {
    var (b, v) := Board.Read(s.b, w, d, offset, Width(funct3, false));
    State(RegWrite(s.h, rd, Extended(funct3, v)), b)
  }

  function StoreTo(s: State, w: Board.World, d: Board.Device, offset: nat, funct3: bv3, rs2: bv5): (t: State)
    requires Ok(s)
    ensures Ok(t)
  {
    s.(b := Board.Write(s.b, w, d, offset, X(s.h, rs2), Width(funct3, true)))
  }

  /** hypervisor_mmio, for an address in a window. */
  function MmioTrap(s: State, t: Trap, window: Board.Window): (r: Handled)
    requires Ok(s) && Sized(t) && window.base <= Num(t.tval)
    ensures Ok(r.s)
  {
    var now, f := t.w.now, Decode.Fetch(t.low, t.high);
    if f.Undecodable? || !Decode.IsAccess(f.encoding) then Handled(s, now, Unhandled)
    else
      var w, offset := f.encoding, Num(t.tval) - window.base;
      var store, f3 := Decode.IsStore(w), Decode.Funct3(w);
      if Width(f3, store) == 0 then Handled(s, now, Unhandled)
      else if store then
        Handled(StoreTo(s, t.w, window.device, offset, f3, Decode.Rs2(w)), now, Advance(f.length))
      else
        Handled(LoadFrom(s, t.w, window.device, offset, f3, Decode.Rd(w)), now, Advance(f.length))
  }

  // ---- the trap --------------------------------------------------------------------------------------

  /** An exception the guest handles itself. */
  function Reflect(s: State, t: Trap, cause: bv32, tval: bv32): (r: Handled)
    requires Ok(s)
    ensures Ok(r.s)
  {
    if s.h.csr.mtvec == 0 then Handled(s, t.w.now, Unhandled)
    else Handled(s.(h := Hart.Inject(s.h, cause, tval)), t.w.now, Resume)
  }

  lemma FindHolds(address: nat)
    ensures Board.Find(address).Some? ==> Board.Find(address).value.base <= address
  {
  }

  /** An access fault: a device's window, or a bad access that the guest handles. */
  function AccessTrap(s: State, t: Trap): (r: Handled)
    requires Ok(s) && Sized(t)
    ensures Ok(r.s)
  {
    FindHolds(Num(t.tval));
    var found := Board.Find(Num(t.tval));
    if found.Some? then MmioTrap(s, t, found.value) else Reflect(s, t, t.cause, t.tval)
  }

  /** hypervisor_trap */
  function Handle(s: State, t: Trap): (r: Handled)
    requires Ok(s) && Sized(t)
    ensures Ok(r.s)
  {
    if t.cause == 2 then CsrTrap(s, t)
    else if t.cause == 3 then Reflect(s, t, 3, Hart.Pc(s.h))
    else if t.cause == 5 || t.cause == 7 then AccessTrap(s, t)
    else if t.cause == 8 then Reflect(s, t, 8, 0)
    else Handled(s, t.w.now, Unhandled)
  }

  predicate IsInterrupt(cause: bv32) {
    cause & 0x8000_0000 != 0
  }

  function Plus(pc: bv32, n: bv32): bv32 {
    pc + n
  }

  datatype Answer = Returned(ok: bool) | Sleeping

  /** hypervisor, once the guest is running: true when the guest can go on. */
  function Answered(s: State, t: Trap): (r: (State, Answer))
    requires Ok(s) && Sized(t)
    ensures Ok(r.0)
  {
    if IsInterrupt(t.cause) then (Deliver(s.(b := Board.Poll(s.b, t.input)), t.w.now), Returned(true))
    else
      var r := Handle(s, t);
      match r.outcome
      case Advance(length) =>
        (Deliver(r.s.(h := Hart.Jump(r.s.h, Plus(Hart.Pc(r.s.h), length))), r.now), Returned(true))
      case Resume => (Deliver(r.s, r.now), Returned(true))
      case Unhandled => (r.s, Returned(false))
      case Asleep => (r.s, Sleeping)
  }
}
