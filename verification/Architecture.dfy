/** What the guest sees, in the numbers of the RISC-V privileged architecture and of the machine's memory
    map: which CSR is which, what each instruction does to its registers, what a wfi waits for, and where
    the devices are. */
module Architecture {
  import opened Bits
  import opened Emulator
  import opened EmulatorProofs
  import Plic
  import Uart
  import Clint
  import Board
  import BlkRegs
  import Hart
  import Decode

  // ---- CSRs by number --------------------------------------------------------------------------------

  /** The CSRs that always read as zero. */
  predicate ZeroCsr(n: nat) {
    n in {0x001, 0x002, 0x003, 0x301, 0xF11, 0xF12, 0xF13, 0xF14}
  }

  predicate StoredCsr(n: nat) {
    n in {0x300, 0x304, 0x305, 0x340, 0x341, 0x342, 0x343} || 0x3A0 <= n <= 0x3A3 || 0x3B0 <= n <= 0x3BF
  }

  /** What a CSR holds. */
  function Csr(h: Hart.State, n: nat): bv32
    requires Hart.Ok(h)
  {
    match n
    case 0x300 => h.csr.mstatus
    case 0x304 => h.csr.mie
    case 0x305 => h.csr.mtvec
    case 0x340 => h.csr.mscratch
    case 0x341 => h.csr.mepc
    case 0x342 => h.csr.mcause
    case 0x343 => h.csr.mtval
    case _ =>
      if 0x3A0 <= n <= 0x3A3 then h.pmpcfg[n - 0x3A0] else if 0x3B0 <= n <= 0x3BF then h.pmpaddr[n - 0x3B0] else 0
  }

  lemma SlotOfCsr(h: Hart.State, n: nat)
    requires Hart.Ok(h)
    ensures Hart.ShadowSlot(n).Some? <==> StoredCsr(n)
    ensures StoredCsr(n) ==> Hart.Load(h, Hart.ShadowSlot(n).value) == Csr(h, n)
    ensures Hart.ReadOnlyZero(n) <==> ZeroCsr(n)
    ensures StoredCsr(n) ==> n != Hart.CSR_MIP && !ZeroCsr(n)
    ensures !StoredCsr(n) ==> Csr(h, n) == 0
  {
  }

  /** The CSR instruction that is named, on the CSR that is named. */
  lemma Decoded(s: State, t: Trap, csr: bv12, op: Op, imm: bool, rs1: bv5, rd: bv5)
    requires Ok(s) && Sized(t) && op != Neither
    requires t.cause == 2 && t.tval == Decode.EncodeCsr(csr, rs1, Funct3Of(op, imm), rd)
    requires StoredCsr(CsrNumber(csr))
    ensures
      var r, n := Handle(s, t), CsrNumber(csr);
      var src := if imm then Immediate5(rs1) else X(s.h, rs1);
      && r.outcome == Advance(4) && r.now == t.w.now && r.s.b == s.b
      && Csr(r.s.h, n) == (if op == Swap || rs1 != 0 then Updated(op, Csr(s.h, n), src) else Csr(s.h, n))
  {
    hide Decode.EncodeCsr, Funct3Of, CsrOp, X, CsrNumber, Hart.ShadowSlot, Csr, StoredCsr, Immediate5, Updated, Handle;
    var n := CsrNumber(csr);
    CsrDecoded(s, t, csr, op, imm, rs1, rd);
    var src := if imm then Immediate5(rs1) else X(s.h, rs1);
    SlotOfCsr(s.h, n);
    CsrMeaning(s, t.w.now, n, op, src, rs1, rd, 0, Hart.ShadowSlot(n).value);
    SlotOfCsr(CsrOp(s, t.w.now, n, op, src, rs1, rd).value.h, n);
  }

  /** ... which leaves every other one alone, gives rd what the CSR held, and touches no other register. */
  lemma OthersKept(s: State, t: Trap, csr: bv12, op: Op, imm: bool, rs1: bv5, rd: bv5, m: nat, q: bv5)
    requires Ok(s) && Sized(t) && op != Neither
    requires t.cause == 2 && t.tval == Decode.EncodeCsr(csr, rs1, Funct3Of(op, imm), rd)
    requires StoredCsr(CsrNumber(csr)) && m != CsrNumber(csr)
    ensures
      var r := Handle(s, t);
      && Csr(r.s.h, m) == Csr(s.h, m) && r.s.h.mip == s.h.mip && r.s.h.priv == s.h.priv && Hart.Pc(r.s.h) == Hart.Pc(s.h)
      && X(r.s.h, q) == (if q == rd && q != 0 then Csr(s.h, CsrNumber(csr)) else X(s.h, q))
  {
    hide Decode.EncodeCsr, Funct3Of, CsrOp, X, CsrNumber, Hart.ShadowSlot, Csr, StoredCsr, Immediate5, Updated, Handle;
    hide Writes;
    var n := CsrNumber(csr);
    CsrDecoded(s, t, csr, op, imm, rs1, rd);
    var src := if imm then Immediate5(rs1) else X(s.h, rs1);
    SlotOfCsr(s.h, n);
    SlotOfCsr(s.h, m);
    var u := CsrOp(s, t.w.now, n, op, src, rs1, rd);
    var other := if Hart.ShadowSlot(m).Some? then Hart.ShadowSlot(m).value else Hart.ShadowSlot(n).value;
    CsrMeaning(s, t.w.now, n, op, src, rs1, rd, q, other);
    SlotOfCsr(u.value.h, m);
    if Hart.ShadowSlot(m).Some? { Hart.SlotsDistinct(n, m); }
  }

  /** The zero CSRs read as zero and take no writes; any other number is refused with nothing changed. */
  lemma OtherCsrs(s: State, t: Trap, csr: bv12, op: Op, imm: bool, rs1: bv5, rd: bv5, q: bv5)
    requires Ok(s) && Sized(t) && op != Neither
    requires t.cause == 2 && t.tval == Decode.EncodeCsr(csr, rs1, Funct3Of(op, imm), rd)
    requires !StoredCsr(CsrNumber(csr)) && CsrNumber(csr) != 0x344
    ensures
      var r := Handle(s, t);
      if ZeroCsr(CsrNumber(csr)) then
        && r.outcome == Advance(4) && r.s.b == s.b && r.s.h.csr == s.h.csr && r.s.h.mip == s.h.mip
        && X(r.s.h, q) == (if q == rd then 0 else X(s.h, q))
      else r.outcome == Unhandled && r.s == s
  {
    hide Decode.EncodeCsr, Funct3Of, X, CsrNumber, Hart.ShadowSlot, StoredCsr, Immediate5, Updated, Handle, RegWrite;
    hide ZeroCsr, Hart.ReadOnlyZero, Mtip, Meip;
    CsrDecoded(s, t, csr, op, imm, rs1, rd);
    SlotOfCsr(s.h, CsrNumber(csr));
    RegWriteMeaning(s.h, rd, 0, q);
    RegWriteKeepsCsrs(s.h, rd, 0, Hart.Mstatus);
    X0(s.h);
  }

  lemma X0(h: Hart.State)
    requires Hart.Ok(h)
    ensures X(h, 0) == 0
  {
  }

  /** csrrw puts the source in; csrrs sets the bits that are set in the source, csrrc clears them. */
  lemma UpdatedBits(was: bv32, src: bv32, n: Index)
    ensures Updated(Swap, was, src) == src
    ensures Has(Updated(SetBits, was, src), n) <==> Has(was, n) || Has(src, n)
    ensures Has(Updated(ClearBits, was, src), n) <==> Has(was, n) && !Has(src, n)
  {
    hide At, Test;
    TestBoth(was, src, At(n));
  }

  lemma TestBoth(w: bv32, v: bv32, k: bv5)
    ensures Test(w | v, k) <==> Test(w, k) || Test(v, k)
    ensures Test(w & !v, k) <==> Test(w, k) && !Test(v, k)
  {
  }

  /** The immediate forms take the five bits as an unsigned number. */
  lemma ImmediateIs(r: bv5)
    ensures Num(Immediate5(r)) == r as nat
  {
  }

  /** What a handler reads: why it was entered, and where it was. */
  lemma HandlerReads(s: State, u: State, pc: bv32, why: Reason, t: Trap, rd: bv5)
    requires Ok(s) && Ok(u) && Interrupted(s, u, pc, why) && Sized(t) && t.cause == 2 && rd != 0
    ensures t.tval == Decode.EncodeCsr(0x342, 0, 2, rd) ==> X(Handle(u, t).s.h, rd) == why.cause
    ensures t.tval == Decode.EncodeCsr(0x343, 0, 2, rd) ==> X(Handle(u, t).s.h, rd) == why.tval
    ensures t.tval == Decode.EncodeCsr(0x341, 0, 2, rd) ==> X(Handle(u, t).s.h, rd) == pc
  {
    hide Decode.EncodeCsr, CsrNumber, X, Handle, StoredCsr, Hart.Gate;
    Numbers();
    if t.tval == Decode.EncodeCsr(0x342, 0, 2, rd) { OthersKept(u, t, 0x342, SetBits, false, 0, rd, 0x300, rd); }
    if t.tval == Decode.EncodeCsr(0x343, 0, 2, rd) { OthersKept(u, t, 0x343, SetBits, false, 0, rd, 0x300, rd); }
    if t.tval == Decode.EncodeCsr(0x341, 0, 2, rd) { OthersKept(u, t, 0x341, SetBits, false, 0, rd, 0x300, rd); }
  }

  lemma Numbers()
    ensures CsrNumber(0x341) == 0x341 && CsrNumber(0x342) == 0x342 && CsrNumber(0x343) == 0x343
    ensures StoredCsr(0x341) && StoredCsr(0x342) && StoredCsr(0x343)
  {
  }

  // ---- instructions ------------------------------------------------------------------------------------

  /** mret and wfi are SYSTEM instructions with funct12 0x302 and 0x105. */
  lemma SystemEncodings()
    ensures Decode.MRET == Decode.EncodeCsr(0x302, 0, 0, 0) && Decode.WFI == Decode.EncodeCsr(0x105, 0, 0, 0)
  {
  }

  /** lb, lh, lw, lbu, lhu and sb, sh, sw, and no other. */
  lemma AccessKinds(v: bv32, f: bv3)
    ensures Width(0, false) == 1 && Extended(0, v) == SignExtend8(v)
    ensures Width(1, false) == 2 && Extended(1, v) == SignExtend16(v)
    ensures Width(2, false) == 4 && Extended(2, v) == v
    ensures Width(4, false) == 1 && Width(5, false) == 2
    ensures f == 3 || f == 6 || f == 7 ==> Width(f, false) == 0
    ensures Width(0, true) == 1 && Width(1, true) == 2 && Width(2, true) == 4 && (f > 2 ==> Width(f, true) == 0)
  {
  }

  /** mret: to mepc, at the level in MPP; refused exactly when mepc is 0. */
  lemma MretAnswered(s: State, t: Trap)
    requires Ok(s) && Sized(t) && t.cause == 2 && t.tval == Decode.MRET
    ensures var r := Handle(s, t);
      && (r.outcome == if s.h.csr.mepc == 0 then Unhandled else Resume)
      && r.s.b == s.b && r.s.h.csr == s.h.csr.(mstatus := Hart.Popped(s.h.csr.mstatus))
      && r.s.h.priv as bv32 == (s.h.csr.mstatus >> 11) & 0x3
      && Hart.Pc(r.s.h) == (if s.h.csr.mepc == 0 then Hart.Pc(s.h) else s.h.csr.mepc)
  {
    hide Decode.Opcode, Decode.Funct3, Hart.Mret, Hart.Popped;
    MretEncoding();
    Hart.MretMeans(s.h);
  }

  lemma MretEncoding()
    ensures Decode.Opcode(Decode.MRET) == 0x73 && Decode.Funct3(Decode.MRET) == 0
  {
  }

  /** A trap with a cause the monitor does not know is refused, with nothing changed. */
  lemma UnknownCause(s: State, t: Trap)
    requires Ok(s) && Sized(t) && !IsInterrupt(t.cause)
    requires t.cause != 2 && t.cause != 3 && t.cause != 5 && t.cause != 7 && t.cause != 8
    ensures Answered(s, t) == (s, Returned(false))
  {
    hide CsrTrap, AccessTrap, Reflect;
  }

  /** A host interrupt is a poll of the devices, and then the tail. */
  lemma HostInterrupt(s: State, t: Trap)
    requires Ok(s) && Sized(t) && t.cause & 0x8000_0000 != 0
    ensures Settled(s, t) == (s.(b := Board.Poll(s.b, t.input)), t.w.now)
    ensures Answered(s, t).1 == Returned(true)
  {
    hide Board.Poll, Deliver, Handle;
  }

  // ---- interrupts ----------------------------------------------------------------------------------------

  /** What is pending and enabled: an external interrupt while some source can be claimed, the software
      interrupt while its bit is set, the timer's from its deadline on; in that order. */
  lemma ChosenMeans(s: State, now: nat)
    requires Ok(s)
    ensures
      var mie := s.h.csr.mie;
      Chosen(s, now) ==
        if Has(mie, 11) && (exists n: Index :: Plic.Claimable(s.b.plic, n)) then Hart.Some(11)
        else if Has(mie, 3) && Has(s.h.mip, 3) then Hart.Some(3)
        else if Has(mie, 7) && now >= s.b.clint.mtimecmp then Hart.Some(7)
        else Hart.None
  {
    hide Has, Hart.MipRead, Plic.Peek, Plic.Claimable;
    var mtip, meip := Mtip(s.b, now), Meip(s.b);
    Hart.MipBits(s.h.mip, mtip, meip, 11);
    Hart.MipBits(s.h.mip, mtip, meip, 3);
    Hart.MipBits(s.h.mip, mtip, meip, 7);
    SomethingToClaim(s.b.plic);
  }

  lemma SomethingToClaim(r: Plic.Regs)
    requires Plic.Ok(r)
    ensures Plic.Peek(r) != 0 <==> exists n: Index :: Plic.Claimable(r, n)
  {
    hide Plic.Claimable, Plic.Before, Plic.Peek;
    Plic.PeekIsBest(r);
    assert Plic.Best(r, 32, Plic.Peek(r));
  }

  // ---- wfi ---------------------------------------------------------------------------------------------

  /** A wfi waits when the timer interrupt is enabled and set, or external interrupts are enabled. It then
      ends at the first moment at which one is chosen, now included, whatever the gate; otherwise it is
      done at once. */
  lemma WfiMeans(s: State, t: Trap)
    requires Ok(s) && Sized(t) && t.cause == 2 && t.tval == Decode.WFI
    ensures
      var r := Handle(s, t);
      var waits := (Has(s.h.csr.mie, 7) && s.b.clint.mtimecmp < 0x10_0000_0000_0000) || Has(s.h.csr.mie, 11);
      && r.s.h == s.h
      && (r.outcome.Advance? || r.outcome == Asleep) && (r.outcome.Advance? ==> r.outcome == Advance(4))
      && (!waits || Chosen(s, t.w.now).Some? ==> r == Handled(s, t.w.now, Advance(4)))
      && (waits && Chosen(s, t.w.now).None? && t.moments == [] ==> r == Handled(s, t.w.now, Asleep))
      && (waits && Chosen(s, t.w.now).None? && t.moments != [] ==>
            r == Handle(Woken(s, t.moments[0]), Later(t)))
      && (waits && r.outcome.Advance? ==> Chosen(r.s, r.now).Some?)
  {
    hide Has, Chosen, WfiWake, Board.Poll, Clint.Fire, Handle;
    WfiIs(s, t);
    WaitKeepsHart(s, t.w.now, t.moments);
    WakeIsChosen(s, t.w.now);
    if t.moments != [] {
      WfiIs(Woken(s, t.moments[0]), Later(t));
      WokenKeepsDeadline(s, t.moments[0]);
    }
    if Wait(s, t.w.now, t.moments).2 {
      WaitIsAwake(s, t.w.now, t.moments);
      WakeIsChosen(Wait(s, t.w.now, t.moments).0, Wait(s, t.w.now, t.moments).1);
    }
  }

  lemma WfiIs(s: State, t: Trap)
    requires Ok(s) && Sized(t) && t.cause == 2 && t.tval == Decode.WFI
    ensures var (u, later, awake) := Wfi(s, t.w.now, t.moments);
      Handle(s, t) == Handled(u, later, if awake then Advance(4) else Asleep)
  {
    hide Wfi, Hart.Mret;
    WfiFields();
  }

  lemma WakeIsChosen(s: State, now: nat)
    requires Ok(s)
    ensures WfiWake(s, now) <==> Chosen(s, now).Some?
  {
    hide Hart.Wanted, Hart.First, Hart.MipRead, Mtip, Meip;
    Hart.DeliverAgrees(s.h.csr, s.h.mip, Mtip(s.b, now), Meip(s.b));
  }

  /** The same wfi, from its first wake-up on. */
  function Later(t: Trap): Trap
    requires t.moments != []
  {
    t.(w := t.w.(now := t.moments[0].now), moments := t.moments[1..])
  }

  // ---- the memory map --------------------------------------------------------------------------------------

  /** The timer at 0x02000000, the interrupt controller at 0x0C000000, the console at 0x10000000 and the
      block device at 0x10001000, each with its size. */
  lemma MemoryMap(address: nat)
    ensures
      Board.Find(address) ==
        if 0x0200_0000 <= address < 0x0201_0000 then Board.Some(Board.Window(0x0200_0000, 0x1_0000, Board.ClintDev))
        else if 0x0C00_0000 <= address < 0x0C40_0000 then Board.Some(Board.Window(0x0C00_0000, 0x40_0000, Board.PlicDev))
        else if 0x1000_0000 <= address < 0x1000_0100 then Board.Some(Board.Window(0x1000_0000, 0x100, Board.UartDev))
        else if 0x1000_1000 <= address < 0x1000_2000 then Board.Some(Board.Window(0x1000_1000, 0x1000, Board.BlkDev))
        else Board.None
  {
  }

  // ---- what an access reaches --------------------------------------------------------------------------------

  /** A byte access of the console is an access of the register at that offset, and leaves the other devices
      alone but for its line. */
  lemma ConsoleAccess(b: Board.State, w: Board.World, offset: nat, value: bv32)
    requires Board.Ok(b) && BlkRegs.Sized(w.card)
    ensures var (t, v) := Board.Read(b, w, Board.UartDev, offset, 1);
      && v == Uart.RegRead(b.uart, offset).1 as bv32 && t.uart == Uart.RegRead(b.uart, offset).0
      && t.clint == b.clint && t.blk == b.blk && t.plic == b.plic.(pending := t.plic.pending)
    ensures var t := Board.Write(b, w, Board.UartDev, offset, value, 1);
      && t.uart == Uart.RegWrite(b.uart, offset, (value & 0xFF) as bv8).0
      && t.clint == b.clint && t.blk == b.blk && t.plic == b.plic.(pending := t.plic.pending)
  {
    hide Uart.RegRead, Uart.RegWrite, Uart.Level, Set, Clear, BlkRegs.Lane;
    assert Board.UartRead(b, offset, 0) == (b, 0);
    assert Board.UartWrite(b, offset, value, 0) == b;
    BlkRegs.LowestLane(Uart.RegRead(b.uart, offset).1);
    LowByte(value);
    SameAfterRead(b.uart, offset);
  }

  lemma LowByte(value: bv32)
    ensures Board.ByteOf(value, 0) == (value & 0xFF) as bv8
  {
  }

  lemma SameAfterRead(u: Uart.Regs, offset: nat)
    requires Uart.Ok(u)
    ensures var (t, x, again) := Uart.RegRead(u, offset); !again ==> t == u
  {
  }

  /** The timer's registers are numbers below 2^32. */
  lemma TimerAccess(b: Board.State, w: Board.World, offset: nat, value: bv32, width: nat)
    requires Board.Ok(b) && BlkRegs.Sized(w.card) && width <= 4
    ensures var (t, v) := Board.Read(b, w, Board.ClintDev, offset, width);
      t == b && v == Board.Word(Clint.Read(b.clint, w.now, offset))
    ensures Board.Write(b, w, Board.ClintDev, offset, value, width) == b.(clint := Clint.Write(b.clint, offset, Num(value)))
  {
    hide Clint.Read, Clint.Write, Num, Board.Word;
  }

  /** The word of a number is the word that has it as its value. */
  lemma WordOf(v: bv32)
    ensures Num(v) < 0x1_0000_0000 && Board.Word(Num(v)) == v
  {
  }

  /** A write to the interrupt controller is one of its register; a completion of source 10 has the console
      asked for its line again. */
  lemma ControllerWrite(b: Board.State, w: Board.World, offset: nat, value: bv32, width: nat)
    requires Board.Ok(b) && width <= 4
    ensures var (p, again) := Plic.Write(b.plic, offset, value);
      var t := Board.Write(b, w, Board.PlicDev, offset, value, width);
      && t.clint == b.clint && t.uart == b.uart && t.blk == b.blk
      && (again != 10 ==> t.plic == p)
      && (again == 10 ==> t.plic == p.(pending := t.plic.pending) && (Has(t.plic.pending, 10) <==> Uart.Level(b.uart)))
  {
    hide Plic.Write, Has, Put, Uart.Level;
    var p := Plic.Write(b.plic, offset, value).0;
    HasPut(p.pending, 10, Uart.Level(b.uart), 10);
  }

  /** A write to the block device is one of its register; when it leaves nothing signalled, source 11 is no
      longer pending. */
  lemma BlockWrite(b: Board.State, w: Board.World, offset: nat, value: bv32, width: nat)
    requires Board.Ok(b) && width <= 4
    ensures var (r, dropped) := BlkRegs.Write(b.blk, w.card, offset, value);
      var t := Board.Write(b, w, Board.BlkDev, offset, value, width);
      && t.blk == r && t.clint == b.clint && t.uart == b.uart
      && (!dropped ==> t.plic == b.plic)
      && (dropped ==> t.plic == b.plic.(pending := t.plic.pending) && !Has(t.plic.pending, 11))
  {
    hide BlkRegs.Write, Has, Put;
    HasPut(b.plic.pending, 11, false, 11);
  }

  /** An emulated instruction is two or four bytes long, ... */
  lemma AdvanceLength(s: State, t: Trap)
    requires Ok(s) && Sized(t) && Handle(s, t).outcome.Advance?
    ensures var l := Handle(s, t).outcome.length; l == 2 || l == 4
  {
    hide CsrTrap, MmioTrap, Board.Find, Num, Hart.Inject;
    if t.cause == 2 {
      CsrLength(s, t);
    } else {
      FindHolds(Num(t.tval));
      MmioLength(s, t, Board.Find(Num(t.tval)).value);
    }
  }

  /** ... and the guest goes on that much further. */
  lemma NextInstruction(s: State, t: Trap, l: bv32)
    requires Ok(s) && Sized(t) && !IsInterrupt(t.cause) && Handle(s, t).outcome == Advance(l)
    ensures GoesOn(s, t) == Further(Hart.Pc(s.h), l)
  {
    hide Handle, Hart.Pc, Plus, Further, IsInterrupt;
    PlusIs(Hart.Pc(s.h), l);
  }

  function Further(pc: bv32, n: bv32): bv32 {
    n + pc
  }

  lemma PlusIs(pc: bv32, n: bv32)
    ensures Plus(pc, n) == Further(pc, n)
  {
  }

  lemma CsrLength(s: State, t: Trap)
    requires Ok(s) && CsrTrap(s, t).outcome.Advance?
    ensures var l := CsrTrap(s, t).outcome.length; l == 2 || l == 4
  {
    hide Decode.Opcode, Decode.Funct3, Decode.Rs1, Decode.Rd, Decode.CsrField, Decode.Is32Bit;
    hide OpOf, Immediate, Immediate5, CsrNumber, CsrOp, Wfi, X, Hart.Mret;
  }

  lemma MmioLength(s: State, t: Trap, window: Board.Window)
    requires Ok(s) && Sized(t) && window.base <= Num(t.tval) && MmioTrap(s, t, window).outcome.Advance?
    ensures var l := MmioTrap(s, t, window).outcome.length; l == 2 || l == 4
  {
    hide Decode.RvcExpand, Decode.IsAccess, Decode.IsStore, Decode.Funct3, Decode.Rd, Decode.Rs2;
    hide LoadFrom, StoreTo, Width, Num;
  }
}
