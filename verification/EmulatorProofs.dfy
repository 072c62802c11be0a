/** What the monitor's answers mean for the guest. */
module EmulatorProofs {
  import opened Bits
  import opened Emulator
  import Plic
  import Clint
  import BlkRegs
  import Board
  import Hart
  import Decode
  import Uart

  // ---- CSR instructions do what the instruction says -----------------------------------------------

  function Funct3Of(op: Op, imm: bool): bv3 {
    match op
    case Swap => if imm then 5 else 1
    case SetBits => if imm then 6 else 2
    case ClearBits => if imm then 7 else 3
    case Neither => if imm then 4 else 0
  }

  lemma Funct3Back(op: Op, imm: bool)
    ensures OpOf(Funct3Of(op, imm)) == op && (Immediate(Funct3Of(op, imm)) <==> imm)
    ensures op != Neither ==> Funct3Of(op, imm) != 0 && Funct3Of(op, imm) != 4
  {
  }

  /** The word is taken apart into the instruction it encodes. */
  lemma CsrDecoded(s: State, t: Trap, csr: bv12, op: Op, imm: bool, rs1: bv5, rd: bv5)
    requires Ok(s) && Sized(t) && op != Neither
    requires t.cause == 2 && t.tval == Decode.EncodeCsr(csr, rs1, Funct3Of(op, imm), rd)
    ensures
      var src := if imm then Immediate5(rs1) else X(s.h, rs1);
      var r := CsrOp(s, t.w.now, CsrNumber(csr), op, src, rs1, rd);
      Handle(s, t) == if r.Some? then Handled(r.value, t.w.now, Advance(4)) else Handled(s, t.w.now, Unhandled)
  {
    hide Decode.EncodeCsr, Decode.Opcode, Decode.Funct3, Decode.Rs1, Decode.Rd, Decode.CsrField, Decode.Is32Bit;
    hide OpOf, Immediate, Immediate5, Funct3Of, CsrOp, X, CsrNumber, Wfi, Hart.Mret;
    Decode.CsrFields(csr, rs1, Funct3Of(op, imm), rd);
    Funct3Back(op, imm);
  }

  /** A stored CSR: rd gets the old value, the CSR the new one when the instruction writes; no other
      register or CSR changes, x0 and the pc included. */
  lemma CsrMeaning(s: State, now: nat, csr: nat, op: Op, src: bv32, rs1: bv5, rd: bv5, q: bv5, other: Hart.Slot)
    requires Ok(s) && csr != Hart.CSR_MIP && Hart.ShadowSlot(csr).Some? && Hart.SlotOk(other)
    ensures
      var slot, r := Hart.ShadowSlot(csr).value, CsrOp(s, now, csr, op, src, rs1, rd);
      var was := Hart.Load(s.h, slot);
      && r.Some?
      && X(r.value.h, q) == (if q == rd && q != 0 then was else X(s.h, q))
      && Hart.Load(r.value.h, other) == (if other == slot && Writes(op, rs1) then Updated(op, was, src)
                                         else Hart.Load(s.h, other))
      && Hart.Pc(r.value.h) == Hart.Pc(s.h) && r.value.h.mip == s.h.mip && r.value.h.priv == s.h.priv
      && r.value.b == s.b
  {
    hide RegIndex, Updated, Writes, Hart.ShadowSlot, Hart.Store, Hart.Load, RegWrite, X;
    var slot := Hart.ShadowSlot(csr).value;
    var was := Hart.Load(s.h, slot);
    var h := if Writes(op, rs1) then Hart.Store(s.h, slot, Updated(op, was, src)) else s.h;
    Hart.LoadStore(s.h, slot, Updated(op, was, src), other);
    StoreKeepsFrame(s.h, slot, Updated(op, was, src), q);
    RegWriteMeaning(h, rd, was, q);
    RegWriteKeepsCsrs(h, rd, was, other);
  }

  lemma StoreKeepsFrame(h: Hart.State, s: Hart.Slot, v: bv32, q: bv5)
    requires Hart.Ok(h) && Hart.SlotOk(s)
    ensures var t := Hart.Store(h, s, v);
      t.frame == h.frame && t.mip == h.mip && t.priv == h.priv && X(t, q) == X(h, q)
  {
    hide RegIndex;
  }

  lemma RegWriteKeepsCsrs(h: Hart.State, r: bv5, v: bv32, s: Hart.Slot)
    requires Hart.Ok(h) && Hart.SlotOk(s)
    ensures var t := RegWrite(h, r, v);
      t.csr == h.csr && t.mip == h.mip && t.priv == h.priv && t.injections == h.injections
      && Hart.Load(t, s) == Hart.Load(h, s)
  {
    hide RegIndex;
  }

  /** mip: rd gets the wires as they are; only the other bits can be written. */
  lemma MipMeaning(s: State, now: nat, op: Op, src: bv32, rs1: bv5, rd: bv5, q: bv5, n: Index)
    requires Ok(s)
    ensures
      var r := CsrOp(s, now, Hart.CSR_MIP, op, src, rs1, rd);
      var was := Hart.MipRead(s.h.mip, Mtip(s.b, now), Meip(s.b));
      && r.Some?
      && X(r.value.h, q) == (if q == rd && q != 0 then was else X(s.h, q))
      && (Has(r.value.h.mip, n) <==>
            if Writes(op, rs1) then Has(Updated(op, was, src), n) && n != Hart.MTIP && n != Hart.MEIP
            else Has(s.h.mip, n))
      && Hart.Pc(r.value.h) == Hart.Pc(s.h) && r.value.h.csr == s.h.csr && r.value.h.priv == s.h.priv
      && r.value.b == s.b
  {
    hide RegIndex, Updated, Writes, RegWrite, Has, Hart.Stored, Hart.MipRead, Mtip, Meip;
    var was := Hart.MipRead(s.h.mip, Mtip(s.b, now), Meip(s.b));
    var h := if Writes(op, rs1) then s.h.(mip := Hart.Stored(Updated(op, was, src))) else s.h;
    RegWriteMeaning(h, rd, was, q);
    RegWriteKeepsCsrs(h, rd, was, Hart.Mstatus);
    Hart.StoredIsClear(Updated(op, was, src), n);
  }

  // ---- device loads and stores do what the instruction says ----------------------------------------

  /** The halfwords at the pc hold this load, in either size. */
  ghost predicate HoldsLoad(t: Trap, imm: bv12, rs1: bv5, funct3: bv3, rd: bv5, length: bv32) {
    || (length == 4 && t.low == Decode.Low(Decode.EncodeLoad(imm, rs1, funct3, rd))
        && t.high == Decode.High(Decode.EncodeLoad(imm, rs1, funct3, rd)))
    || (length == 2 && funct3 == 2 && exists u, a, r :: IsCLw(t.low, imm, rs1, rd, u, a, r))
  }

  ghost predicate IsCLw(low: bv16, imm: bv12, rs1: bv5, rd: bv5, u: bv5, a: bv3, r: bv3) {
    low == Decode.EncodeCLw(u, a, r) && imm == Decode.Offset(u) && rs1 == Decode.Wide(a) && rd == Decode.Wide(r)
  }

  ghost predicate HoldsStore(t: Trap, imm: bv12, rs2: bv5, rs1: bv5, funct3: bv3, length: bv32) {
    || (length == 4 && t.low == Decode.Low(Decode.EncodeStore(imm, rs2, rs1, funct3))
        && t.high == Decode.High(Decode.EncodeStore(imm, rs2, rs1, funct3)))
    || (length == 2 && funct3 == 2 && exists u, a, r :: IsCSw(t.low, imm, rs2, rs1, u, a, r))
  }

  ghost predicate IsCSw(low: bv16, imm: bv12, rs2: bv5, rs1: bv5, u: bv5, a: bv3, r: bv3) {
    low == Decode.EncodeCSw(u, a, r) && imm == Decode.Offset(u) && rs1 == Decode.Wide(a) && rs2 == Decode.Wide(r)
  }

  lemma LoadFetched(t: Trap, imm: bv12, rs1: bv5, funct3: bv3, rd: bv5, length: bv32)
    requires HoldsLoad(t, imm, rs1, funct3, rd, length)
    ensures Decode.Fetch(t.low, t.high) == Decode.Fetched(Decode.EncodeLoad(imm, rs1, funct3, rd), length)
  {
    hide Decode.Fetch, Decode.EncodeLoad, Decode.EncodeCLw, Decode.Offset, Decode.Wide, Decode.Low, Decode.High;
    if length == 4 {
      Decode.FetchLoad(imm, rs1, funct3, rd);
    } else {
      var u, a, r :| IsCLw(t.low, imm, rs1, rd, u, a, r);
      Decode.FetchCLw(u, a, r, t.high);
    }
  }

  lemma StoreFetched(t: Trap, imm: bv12, rs2: bv5, rs1: bv5, funct3: bv3, length: bv32)
    requires HoldsStore(t, imm, rs2, rs1, funct3, length)
    ensures Decode.Fetch(t.low, t.high) == Decode.Fetched(Decode.EncodeStore(imm, rs2, rs1, funct3), length)
  {
    hide Decode.Fetch, Decode.EncodeStore, Decode.EncodeCSw, Decode.Offset, Decode.Wide, Decode.Low, Decode.High;
    if length == 4 {
      Decode.FetchStore(imm, rs2, rs1, funct3);
    } else {
      var u, a, r :| IsCSw(t.low, imm, rs2, rs1, u, a, r);
      Decode.FetchCSw(u, a, r, t.high);
    }
  }

  /** A load from a device window: the register gets what the device answers, extended as the instruction
      says; no other register changes, x0 and the pc included, and the pc moves by the instruction's own
      length. */
  lemma LoadEmulated(s: State, t: Trap, w: Board.Window, imm: bv12, rs1: bv5, funct3: bv3, rd: bv5, length: bv32, q: bv5)
    requires Ok(s) && Sized(t) && (t.cause == 5 || t.cause == 7) && Board.Find(Num(t.tval)) == Board.Some(w)
    requires HoldsLoad(t, imm, rs1, funct3, rd, length) && Width(funct3, false) != 0
    ensures w.base <= Num(t.tval)
    ensures
      var r := Handle(s, t);
      var (b, v) := Board.Read(s.b, t.w, w.device, Num(t.tval) - w.base, Width(funct3, false));
      && r.outcome == Advance(length) && r.now == t.w.now && r.s.b == b
      && X(r.s.h, q) == (if q == rd && q != 0 then Extended(funct3, v) else X(s.h, q))
      && Hart.Pc(r.s.h) == Hart.Pc(s.h) && r.s.h.csr == s.h.csr && r.s.h.mip == s.h.mip && r.s.h.priv == s.h.priv
  {
    hide Decode.EncodeLoad, Decode.Fetch, Decode.IsAccess, Decode.IsStore, Decode.Funct3, Decode.Rd, HoldsLoad;
    hide Num, Width, Extended, X, RegWrite, Board.Find, Board.Read, CsrTrap;
    FindHolds(Num(t.tval));
    LoadFetched(t, imm, rs1, funct3, rd, length);
    Decode.LoadFields(imm, rs1, funct3, rd);
    var (b, v) := Board.Read(s.b, t.w, w.device, Num(t.tval) - w.base, Width(funct3, false));
    RegWriteMeaning(s.h, rd, Extended(funct3, v), q);
    RegWriteKeepsCsrs(s.h, rd, Extended(funct3, v), Hart.Mstatus);
  }

  /** A store to a device window: one write of the register's value, and no register changes. */
  lemma StoreEmulated(s: State, t: Trap, w: Board.Window, imm: bv12, rs2: bv5, rs1: bv5, funct3: bv3, length: bv32)
    requires Ok(s) && Sized(t) && (t.cause == 5 || t.cause == 7) && Board.Find(Num(t.tval)) == Board.Some(w)
    requires HoldsStore(t, imm, rs2, rs1, funct3, length) && Width(funct3, true) != 0
    ensures w.base <= Num(t.tval)
    ensures
      var r, n := Handle(s, t), Width(funct3, true);
      && r.outcome == Advance(length) && r.now == t.w.now && r.s.h == s.h
      && r.s.b == Board.Write(s.b, t.w, w.device, Num(t.tval) - w.base, X(s.h, rs2), n)
  {
    hide Decode.EncodeStore, Decode.Fetch, Decode.IsAccess, Decode.IsStore, Decode.Funct3, Decode.Rs2, HoldsStore;
    hide Num, Width, X, Board.Find, Board.Write, CsrTrap;
    FindHolds(Num(t.tval));
    StoreFetched(t, imm, rs2, rs1, funct3, length);
    Decode.StoreFields(imm, rs2, rs1, funct3);
  }

  /** The signed loads: the low part is kept and its top bit fills the rest. */
  lemma SignExtendMeaning(v: bv32)
    ensures Low8(SignExtend8(v)) == Low8(v) && Low16(SignExtend16(v)) == Low16(v)
    ensures SignExtend8(v) >> 8 == if v & 0x80 != 0 then 0xFF_FFFF else 0
    ensures SignExtend16(v) >> 16 == if v & 0x8000 != 0 then 0xFFFF else 0
  {
  }

  // ---- the unsigned narrow loads ---------------------------------------------------------------------

  /** The 32-bit register behind an offset of a device that answers a whole word at any width. */
  function Register(b: Board.State, w: Board.World, d: Board.Device, offset: nat): bv32
    requires Board.Ok(b) && BlkRegs.Sized(w.card)
  {
    match d
    case UartDev => 0
    case ClintDev => Board.Word(Clint.Read(b.clint, w.now, offset))
    case PlicDev =>
      if Plic.Stored(offset) then Plic.Value(b.plic, offset)
      else if offset == 0x1000 then b.plic.pending
      else if offset == Plic.CLAIM then Plic.Id(Plic.Peek(b.plic))
      else 0
    case BlkDev =>
      match offset
      case 0x000 => 0x74726976
      case 0x004 => 1
      case 0x008 => 2
      case 0x00c => 0x50345052
      case 0x034 => 128
      case 0x040 => b.blk.queuePfn
      case 0x060 => b.blk.interruptStatus
      case 0x070 => b.blk.status
      case _ => 0
  }

  /** Whether the device answers by the byte: the console does, and the block device's config space. */
  predicate ByBytes(d: Board.Device, offset: nat) {
    d == Board.UartDev || (d == Board.BlkDev && offset >= 0x100)
  }

  /** The value has no bits above its first `n` bytes. */
  predicate Below(v: bv32, n: nat) {
    if n == 1 then v < 0x100 else v < 0x1_0000
  }

  predicate Narrow(b: Board.State, w: Board.World, d: Board.Device, offset: nat, n: nat)
    requires Board.Ok(b) && BlkRegs.Sized(w.card)
  {
    ByBytes(d, offset) || Below(Register(b, w, d, offset), n)
  }

  lemma LaneOne(x: bv8)
    ensures BlkRegs.Lane(0, 0, x) < 0x100 && BlkRegs.Lane(0, 0, x) < 0x1_0000
  {
  }

  lemma LaneTwo(x: bv8, v: bv32)
    requires v < 0x100
    ensures BlkRegs.Lane(v, 1, x) < 0x1_0000
  {
  }

  lemma ConsoleFits(b: Board.State, offset: nat, n: nat)
    requires Board.Ok(b) && 1 <= n <= 2
    ensures Below(Board.UartRead(b, offset, n).1, n)
  {
    hide Board.UartByteRead, BlkRegs.Lane;
    var (t, x) := Board.UartByteRead(b, offset);
    assert Board.UartRead(b, offset, 0) == (b, 0);
    assert Board.UartRead(b, offset, 1) == (t, BlkRegs.Lane(0, 0, x));
    LaneOne(x);
    LaneTwo(Board.UartByteRead(t, offset + 1).1, BlkRegs.Lane(0, 0, x));
  }

  lemma ConfigFits(c: BlkRegs.Card, o: nat, n: nat)
    requires BlkRegs.Sized(c) && 1 <= n <= 2
    ensures Below(BlkRegs.Config(c, o, n), n)
  {
    hide BlkRegs.Lane;
    assert BlkRegs.Config(c, o, 0) == 0;
    var x := if o < 8 then c.capacity[o] else 0;
    var y := if o + 1 < 8 then c.capacity[o + 1] else 0;
    var v := if o < 16 then BlkRegs.Lane(0, 0, x) else 0;
    assert BlkRegs.Config(c, o, 1) == v;
    LaneOne(x);
    LaneTwo(y, v);
  }

  /** A word device's answer is its register, whatever the width. */
  lemma AnswersRegister(b: Board.State, w: Board.World, d: Board.Device, offset: nat, n: nat)
    requires Board.Ok(b) && BlkRegs.Sized(w.card) && n <= 4 && !ByBytes(d, offset)
    ensures Board.Read(b, w, d, offset, n).1 == Register(b, w, d, offset)
  {
    hide Plic.Peek, Plic.Id, Plic.Value, Board.Word, Clint.Read, Board.UartRead, BlkRegs.Config, Set, Clear;
    if d == Board.PlicDev && Plic.Stored(offset) { Plic.ReadStored(b.plic, offset); }
  }

  /** A one-byte or two-byte read of a device window answers in that many bytes exactly when the window is
      one that answers by the byte, or the register there is small enough. */
  lemma AnswerFits(b: Board.State, w: Board.World, d: Board.Device, offset: nat, n: nat)
    requires Board.Ok(b) && BlkRegs.Sized(w.card) && 1 <= n <= 2
    ensures Below(Board.Read(b, w, d, offset, n).1, n) <==> Narrow(b, w, d, offset, n)
  {
    hide Register, Below, Board.UartRead, BlkRegs.Config, Plic.Read, Clint.Read, Board.Word;
    if d == Board.UartDev {
      ConsoleFits(b, offset, n);
    } else if d == Board.BlkDev && offset >= 0x100 {
      ConfigFits(w.card, offset - 0x100, n);
    } else {
      AnswersRegister(b, w, d, offset, n);
    }
  }

  lemma BelowMeans(v: bv32)
    ensures Low8(v) == v <==> Below(v, 1)
    ensures Low16(v) == v <==> Below(v, 2)
  {
  }

  lemma Unextended(v: bv32)
    ensures Extended(4, v) == v && Extended(5, v) == v && Width(4, false) == 1 && Width(5, false) == 2
  {
  }

  /** Where in its window the access goes. */
  function Offset(t: Trap, w: Board.Window): nat {
    if w.base <= Num(t.tval) then Num(t.tval) - w.base else 0
  }

  /** lbu and lhu do not cut the device's answer down to a byte or a halfword. They leave the register as
      the instruction should, its upper bits clear, exactly when the device answers by the byte or its
      register at that offset is small enough. */
  lemma NarrowLoadExact(s: State, t: Trap, w: Board.Window, imm: bv12, rs1: bv5, n: nat, rd: bv5, length: bv32)
    requires Ok(s) && Sized(t) && (t.cause == 5 || t.cause == 7) && Board.Find(Num(t.tval)) == Board.Some(w)
    requires (n == 1 || n == 2) && HoldsLoad(t, imm, rs1, if n == 1 then 4 else 5, rd, length) && rd != 0
    ensures
      var v, x := Board.Read(s.b, t.w, w.device, Offset(t, w), n).1, X(Handle(s, t).s.h, rd);
      && (x == (if n == 1 then Low8(v) else Low16(v)) <==> Narrow(s.b, t.w, w.device, Offset(t, w), n))
      && (Below(x, n) <==> Narrow(s.b, t.w, w.device, Offset(t, w), n))
  {
    hide HoldsLoad, Board.Find, Board.Read, Handle, X, Num, Narrow, Below, Low8, Low16, Extended, Width;
    var v := Board.Read(s.b, t.w, w.device, Offset(t, w), n).1;
    Unextended(v);
    LoadEmulated(s, t, w, imm, rs1, if n == 1 then 4 else 5, rd, length, rd);
    AnswerFits(s.b, t.w, w.device, Offset(t, w), n);
    BelowMeans(v);
  }

  /** A claim always fits: there are 31 sources. */
  lemma ClaimFits(b: Board.State, w: Board.World, n: nat)
    requires Board.Ok(b) && BlkRegs.Sized(w.card) && 1 <= n <= 2
    ensures Narrow(b, w, Board.PlicDev, Plic.CLAIM, n)
  {
    hide Plic.Peek;
    SmallId((Plic.Peek(b.plic)) as bv5);
  }

  lemma SmallId(x: bv5)
    ensures x as bv32 < 0x100 && x as bv32 < 0x1_0000
  {
  }

  /** lbu x10, 0(x11) on the interrupt controller's enable register, with source 10 enabled: the register
      gets 0x400, where the byte there is 0. */
  lemma EnableByteIsWord(s: State, t: Trap)
    requires Ok(s) && Sized(t) && t.cause == 5 && Num(t.tval) == 0x0C002000 && s.b.plic.enable == 0x400
    requires t.low == Decode.Low(Decode.EncodeLoad(0, 11, 4, 10)) && t.high == Decode.High(Decode.EncodeLoad(0, 11, 4, 10))
    ensures X(Handle(s, t).s.h, 10) == 0x400 && Low8(0x400) == 0
  {
    hide Decode.EncodeLoad, Decode.Low, Decode.High, Handle, X, Num, Extended, Width;
    Unextended(0x400);
    LoadEmulated(s, t, Board.Window(0x0C000000, 0x00400000, Board.PlicDev), 0, 11, 4, 10, 4, 10);
  }

  // ---- the guest goes on exactly once ----------------------------------------------------------------

  /** Where the guest has to go on, before any interrupt: past the instruction that was emulated, at the
      return address of an mret, and otherwise where it was. */
  function GoesOn(s: State, t: Trap): bv32
    requires Ok(s) && Sized(t)
  {
    if IsInterrupt(t.cause) then Hart.Pc(s.h)
    else match Handle(s, t).outcome
      case Advance(length) => Plus(Hart.Pc(s.h), length)
      case Resume => if t.cause == 2 then s.h.csr.mepc else Hart.Pc(s.h)
      case _ => Hart.Pc(s.h)
  }

  /** The guest runs on at `pc`, and nothing was injected. */
  ghost predicate RunsOn(before: State, after: State, pc: bv32)
    requires Ok(before) && Ok(after)
  {
    Hart.Pc(after.h) == pc && after.h.injections == before.h.injections
  }

  /** What a handler finds in mcause and mtval. */
  datatype Reason = Reason(cause: bv32, tval: bv32)

  /** The guest is at its vector in machine mode with the gate shut; its handler finds `pc` in mepc, where it
      will return, and why it was entered in mcause and mtval. */
  ghost predicate Interrupted(before: State, after: State, pc: bv32, why: Reason)
    requires Ok(before) && Ok(after)
  {
    && after.h.csr.mepc == pc && after.h.csr.mcause == why.cause && after.h.csr.mtval == why.tval
    && Hart.Pc(after.h) == after.h.csr.mtvec & 0xFFFF_FFFC && after.h.priv == 3
    && !Hart.Gate(after.h.csr.mstatus) && after.h.injections == before.h.injections + 1
  }

  /** Only what a trap writes changes. */
  lemma InjectMeans(h: Hart.State, cause: bv32, tval: bv32)
    requires Hart.Ok(h)
    ensures var t := Hart.Inject(h, cause, tval);
      && t.csr == h.csr.(mstatus := t.csr.mstatus, mepc := Hart.Pc(h), mcause := cause, mtval := tval)
      && t.csr.mstatus == Hart.Pushed(h.csr.mstatus, h.priv)
      && t == h.(csr := t.csr, priv := 3, frame := h.frame[0 := h.csr.mtvec & 0xFFFF_FFFC], injections := h.injections + 1)
      && !Hart.Gate(t.csr.mstatus)
  {
    hide Hart.Pushed, Hart.Gate, Hart.Vector;
    Hart.PushedGate(h.csr.mstatus, h.priv);
    VectorIs(h.csr.mtvec);
  }

  lemma InjectInterrupts(before: State, s: State, cause: bv32, tval: bv32)
    requires Ok(before) && Ok(s) && s.h.injections == before.h.injections
    ensures Interrupted(before, s.(h := Hart.Inject(s.h, cause, tval)), Hart.Pc(s.h), Reason(cause, tval))
  {
    hide Hart.Inject, Hart.Gate, Hart.Pushed;
    InjectMeans(s.h, cause, tval);
  }

  lemma VectorIs(mtvec: bv32)
    ensures Hart.Vector(mtvec) == mtvec & 0xFFFF_FFFC
  {
  }

  /** The interrupt that is to be taken, among those the guest sees in both mip and mie. */
  function Chosen(s: State, now: nat): Hart.Option<Index>
    requires Ok(s)
  {
    Hart.First(Hart.MipRead(s.h.mip, Mtip(s.b, now), Meip(s.b)), s.h.csr.mie)
  }

  /** An interrupt sets the top bit of mcause, and nothing in mtval. */
  function InterruptReason(n: Index): Reason {
    Reason(if n == 3 then 0x8000_0003 else if n == 7 then 0x8000_0007 else 0x8000_000B, 0)
  }

  lemma CauseIs(n: Index)
    requires n == 3 || n == 7 || n == 11
    ensures Hart.Cause(n) == InterruptReason(n).cause
  {
    if n == 3 { Cause3(); } else if n == 7 { Cause7(); } else { Cause11(); }
  }

  lemma Cause3()
    ensures Hart.Cause(3) == 0x8000_0003
  {
  }

  lemma Cause7()
    ensures Hart.Cause(7) == 0x8000_0007
  {
  }

  lemma Cause11()
    ensures Hart.Cause(11) == 0x8000_000B
  {
  }

  lemma ChosenIsOne(s: State, now: nat)
    requires Ok(s) && Chosen(s, now).Some?
    ensures var n := Chosen(s, now).value; n == 3 || n == 7 || n == 11
  {
    hide Has, Hart.MipRead, Mtip, Meip;
  }

  /** Whether the tail of the handler takes one. */
  predicate Takes(s: State, now: nat)
    requires Ok(s)
  {
    Hart.Gate(s.h.csr.mstatus) && Chosen(s, now).Some? && s.h.csr.mtvec != 0
  }

  /** The tail of the handler takes an interrupt exactly when the gate is open, one is chosen, and the guest
      has a vector; it saves the pc it finds, and says which one. Otherwise nothing happens. */
  lemma DeliverOnce(before: State, s: State, now: nat)
    requires Ok(before) && Ok(s) && s.h.injections == before.h.injections
    ensures var u := Deliver(s, now);
      if Takes(s, now) then Interrupted(before, u, Hart.Pc(s.h), InterruptReason(Chosen(s, now).value)) && u.b == s.b
      else u == s
  {
    hide Hart.Inject, Hart.Wanted, Hart.First, Hart.MipRead, Hart.Gate, Hart.Cause, Mtip, Meip, Interrupted;
    Hart.DeliverAgrees(s.h.csr, s.h.mip, Mtip(s.b, now), Meip(s.b));
    var want := Chosen(s, now);
    if want.Some? {
      ChosenIsOne(s, now);
      CauseIs(want.value);
      InjectInterrupts(before, s, Hart.Cause(want.value), 0);
    }
  }

  /** After an injected exception the gate is shut, so nothing is delivered on top. */
  lemma DeliverAfterInject(s: State, now: nat)
    requires Ok(s) && !Hart.Gate(s.h.csr.mstatus)
    ensures Deliver(s, now) == s
  {
    hide Hart.Inject, Hart.Wanted, Hart.Gate, Hart.Vector, Mtip, Meip;
  }

  lemma {:induction false} WaitKeepsHart(s: State, now: nat, moments: seq<Moment>)
    requires Ok(s)
    ensures Wait(s, now, moments).0.h == s.h
    decreases |moments|
  {
    hide WfiWake, Board.Poll, Clint.Fire;
    if !WfiWake(s, now) && moments != [] {
      var m := moments[0];
      WaitKeepsHart(s.(b := Board.Poll(s.b.(clint := Clint.Fire(s.b.clint, m.now)), m.input)), m.now, moments[1..]);
    }
  }

  lemma CsrOpKeepsPc(s: State, now: nat, csr: nat, op: Op, src: bv32, rs1: bv5, rd: bv5)
    requires Ok(s) && CsrOp(s, now, csr, op, src, rs1, rd).Some?
    ensures var u := CsrOp(s, now, csr, op, src, rs1, rd).value;
      Hart.Pc(u.h) == Hart.Pc(s.h) && u.h.injections == s.h.injections
  {
    if csr == Hart.CSR_MIP {
      MipMeaning(s, now, op, src, rs1, rd, 0, 0);
      CsrOpKeepsCount(s, now, csr, op, src, rs1, rd);
    } else if Hart.ShadowSlot(csr).Some? {
      CsrMeaning(s, now, csr, op, src, rs1, rd, 0, Hart.Mstatus);
      CsrOpKeepsCount(s, now, csr, op, src, rs1, rd);
    } else {
      RegWriteMeaning(s.h, rd, 0, 0);
      CsrOpKeepsCount(s, now, csr, op, src, rs1, rd);
    }
  }

  lemma CsrOpKeepsCount(s: State, now: nat, csr: nat, op: Op, src: bv32, rs1: bv5, rd: bv5)
    requires Ok(s) && CsrOp(s, now, csr, op, src, rs1, rd).Some?
    ensures CsrOp(s, now, csr, op, src, rs1, rd).value.h.injections == s.h.injections
  {
    hide RegIndex, Updated, Writes, Mtip, Meip, Hart.MipRead, Hart.Stored;
  }

  /** An emulated instruction leaves the pc to the caller and injects nothing. */
  lemma AdvanceKeepsPc(s: State, t: Trap)
    requires Ok(s) && Sized(t) && Handle(s, t).outcome.Advance?
    ensures Hart.Pc(Handle(s, t).s.h) == Hart.Pc(s.h) && Handle(s, t).s.h.injections == s.h.injections
  {
    if t.cause == 2 {
      CsrAdvanceKeepsPc(s, t);
    } else {
      MmioAdvanceKeepsPc(s, t);
    }
  }

  lemma CsrAdvanceKeepsPc(s: State, t: Trap)
    requires Ok(s) && CsrTrap(s, t).outcome.Advance?
    ensures Hart.Pc(CsrTrap(s, t).s.h) == Hart.Pc(s.h) && CsrTrap(s, t).s.h.injections == s.h.injections
  {
    hide Decode.Opcode, Decode.Funct3, Decode.Rs1, Decode.Rd, Decode.CsrField, Decode.Is32Bit;
    hide OpOf, Immediate5, Immediate, CsrOp, X, CsrNumber, Hart.Mret, Wait, Blocks;
    var w := t.tval;
    var f, rs1 := Decode.Funct3(w), Decode.Rs1(w);
    if f == 0 {
      WaitKeepsHart(s, t.w.now, t.moments);
    } else {
      CsrOpKeepsPc(s, t.w.now, CsrNumber(Decode.CsrField(w)), OpOf(f), Source(s.h, f, rs1), rs1, Decode.Rd(w));
    }
  }

  lemma MmioAdvanceKeepsPc(s: State, t: Trap)
    requires Ok(s) && Sized(t) && t.cause != 2 && Handle(s, t).outcome.Advance?
    ensures Hart.Pc(Handle(s, t).s.h) == Hart.Pc(s.h) && Handle(s, t).s.h.injections == s.h.injections
  {
    hide Decode.Fetch, Decode.IsAccess, Decode.IsStore, Decode.Funct3, Decode.Rd, Decode.Rs2;
    hide Num, Width, Extended, X, RegWrite, Board.Find, Board.Read, Board.Write, CsrTrap;
    var f, found := Decode.Fetch(t.low, t.high), Board.Find(Num(t.tval));
    FindHolds(Num(t.tval));
    if found.Some? && !Decode.IsStore(f.encoding) {
      var f3 := Decode.Funct3(f.encoding);
      var v := Board.Read(s.b, t.w, found.value.device, Num(t.tval) - found.value.base, Width(f3, false)).1;
      RegWriteMeaning(s.h, Decode.Rd(f.encoding), Extended(f3, v), 0);
      RegWriteKeepsCsrs(s.h, Decode.Rd(f.encoding), Extended(f3, v), Hart.Mstatus);
    }
  }

  /** An exception that the guest handles itself. */
  predicate Reflected(s: State, t: Trap)
    requires Ok(s) && Sized(t)
  {
    !IsInterrupt(t.cause) && t.cause != 2 && Handle(s, t).outcome == Resume
  }

  /** A breakpoint reports its own address, a bad access the address it went to, an environment call
      nothing. */
  function ExceptionReason(s: State, t: Trap): Reason
    requires Ok(s)
  {
    Reason(t.cause, if t.cause == 3 then Hart.Pc(s.h) else if t.cause == 8 then 0 else t.tval)
  }

  /** A trap answered without advancing is an mret, or an exception handed to the guest. */
  lemma ResumeMeans(s: State, t: Trap)
    requires Ok(s) && Sized(t) && Handle(s, t).outcome == Resume
    ensures var u := Handle(s, t).s;
      if t.cause == 2 then Hart.Pc(u.h) == s.h.csr.mepc && u.h.injections == s.h.injections
      else Interrupted(s, u, Hart.Pc(s.h), ExceptionReason(s, t)) && u.b == s.b
  {
    hide Decode.Opcode, Decode.Funct3, Decode.Fetch, Hart.Popped, Hart.Previous, Hart.Inject, CsrOp, Wfi;
    hide Board.Find, Num, Width, LoadFrom, StoreTo, Interrupted;
    if t.cause != 2 {
      var tval := if t.cause == 3 then Hart.Pc(s.h) else if t.cause == 8 then 0 else t.tval;
      InjectInterrupts(s, s, t.cause, tval);
    }
  }

  /** The guest and the devices when the trap has been dealt with, and the time, before the tail looks for an
      interrupt to take. */
  function Settled(s: State, t: Trap): (r: (State, nat))
    requires Ok(s) && Sized(t)
    ensures Ok(r.0)
  {
    if IsInterrupt(t.cause) then (s.(b := Board.Poll(s.b, t.input)), t.w.now)
    else
      var r := Handle(s, t);
      match r.outcome
      case Advance(length) => (r.s.(h := Hart.Jump(r.s.h, Plus(Hart.Pc(r.s.h), length))), r.now)
      case _ => (r.s, r.now)
  }

  /** Why the guest's handler was entered, if it was. */
  function Why(s: State, t: Trap): Reason
    requires Ok(s) && Sized(t)
  {
    if Reflected(s, t) then ExceptionReason(s, t)
    else
      var (u, now) := Settled(s, t);
      if Chosen(u, now).Some? then InterruptReason(Chosen(u, now).value) else Reason(0, 0)
  }

  /** One trap resumes the guest exactly once. If it is the guest's own exception, or leaves an interrupt to
      be taken, exactly one handler is entered, which is told why and will return to the right place;
      otherwise the guest runs on at the right place. */
  lemma ResumesOnce(s: State, t: Trap)
    requires Ok(s) && Sized(t) && Answered(s, t).1 == Returned(true)
    ensures var u, (d, now) := Answered(s, t).0, Settled(s, t);
      if Reflected(s, t) || Takes(d, now) then Interrupted(s, u, GoesOn(s, t), Why(s, t)) && u.b == d.b
      else RunsOn(s, u, GoesOn(s, t)) && u == d
  {
    hide Handle, Deliver, IsInterrupt, Board.Poll, Plus, Interrupted, Takes, Chosen, Hart.Gate;
    if IsInterrupt(t.cause) {
      DeliverOnce(s, s.(b := Board.Poll(s.b, t.input)), t.w.now);
      TakesMeans(Settled(s, t).0, t.w.now);
    } else {
      var r := Handle(s, t);
      match r.outcome
      case Advance(length) =>
        AdvanceKeepsPc(s, t);
        var v := r.s.(h := Hart.Jump(r.s.h, Plus(Hart.Pc(r.s.h), length)));
        TakesMeans(v, r.now);
        DeliverOnce(s, v, r.now);
      case Resume =>
        ResumeMeans(s, t);
        TakesMeans(r.s, r.now);
        if t.cause == 2 {
          DeliverOnce(s, r.s, r.now);
        } else {
          ShutInHandler(s, r.s, Hart.Pc(s.h), ExceptionReason(s, t));
          DeliverAfterInject(r.s, r.now);
        }
      case Unhandled =>
      case Asleep =>
    }
  }

  lemma TakesMeans(s: State, now: nat)
    requires Ok(s)
    ensures Takes(s, now) ==> Chosen(s, now).Some?
  {
    hide Chosen, Hart.Gate;
  }

  lemma ShutInHandler(s: State, u: State, pc: bv32, why: Reason)
    requires Ok(s) && Ok(u) && Interrupted(s, u, pc, why)
    ensures !Hart.Gate(u.h.csr.mstatus)
  {
    hide Hart.Gate;
  }

  /** Environment calls, breakpoints, and accesses outside the devices' windows enter the guest's handler
      with their cause and (8) nothing, (3) the pc, (5 and 7) the address; without a vector the guest
      cannot go on. */
  lemma ExceptionAnswered(s: State, t: Trap)
    requires Ok(s) && Sized(t)
    requires t.cause == 8 || t.cause == 3 || ((t.cause == 5 || t.cause == 7) && Board.Find(Num(t.tval)).None?)
    ensures var (u, answer) := Answered(s, t);
      if s.h.csr.mtvec == 0 then answer == Returned(false) && u == s
      else
        && answer == Returned(true) && u.b == s.b
        && Interrupted(s, u, Hart.Pc(s.h),
                       Reason(t.cause, if t.cause == 8 then 0 else if t.cause == 3 then Hart.Pc(s.h) else t.tval))
  {
    hide Hart.Inject, Deliver, Board.Find, Num, Interrupted, MmioTrap, CsrTrap;
    NotInterrupts();
    if s.h.csr.mtvec != 0 {
      ResumeMeans(s, t);
      ShutInHandler(s, Handle(s, t).s, Hart.Pc(s.h), ExceptionReason(s, t));
      DeliverAfterInject(Handle(s, t).s, Handle(s, t).now);
    }
  }

  lemma NotInterrupts()
    ensures !IsInterrupt(2) && !IsInterrupt(3) && !IsInterrupt(5) && !IsInterrupt(7) && !IsInterrupt(8)
  {
  }

  // ---- a blocking wfi cannot hang ----------------------------------------------------------------------

  /** The devices one wake-up later. */
  function Woken(s: State, m: Moment): (u: State)
    requires Ok(s)
    ensures Ok(u)
  {
    s.(b := Board.Poll(s.b.(clint := Clint.Fire(s.b.clint, m.now)), m.input))
  }

  lemma WokenKeepsDeadline(s: State, m: Moment)
    requires Ok(s)
    ensures Woken(s, m).h == s.h && Woken(s, m).b.clint.mtimecmp == s.b.clint.mtimecmp
  {
    hide Board.Poll;
    Board.PollClint(s.b.(clint := Clint.Fire(s.b.clint, m.now)), m.input);
  }

  lemma WakesAtDeadline(s: State, now: nat)
    requires Ok(s) && Has(s.h.csr.mie, Hart.MTIP) && now >= s.b.clint.mtimecmp
    ensures WfiWake(s, now)
  {
    hide Has, Meip;
  }

  /** With the timer interrupt enabled, the wait ends no later than the first wake-up at or past the
      deadline. */
  lemma {:induction false} WaitEnds(s: State, now: nat, moments: seq<Moment>, k: nat)
    requires Ok(s) && Has(s.h.csr.mie, Hart.MTIP)
    requires k < |moments| && moments[k].now >= s.b.clint.mtimecmp
    ensures Wait(s, now, moments[..k + 1]).2 && Wait(s, now, moments) == Wait(s, now, moments[..k + 1])
    decreases k
  {
    hide WfiWake, Has, Board.Poll, Clint.Fire;
    if !WfiWake(s, now) {
      var m, u := moments[0], Woken(s, moments[0]);
      WokenKeepsDeadline(s, m);
      assert moments[..k + 1][1..] == moments[1..][..k];
      if k == 0 {
        WakesAtDeadline(u, m.now);
      } else {
        WaitEnds(u, m.now, moments[1..], k - 1);
      }
    }
  }

  predicate Ordered(now: nat, moments: seq<Moment>)
    decreases |moments|
  {
    moments != [] ==> now <= moments[0].now && Ordered(moments[0].now, moments[1..])
  }

  lemma WokenInv(s: State, now: nat, m: Moment)
    requires Ok(s) && Board.Inv(s.b, now) && now <= m.now
    ensures Board.Inv(Woken(s, m).b, m.now)
  {
    hide Clint.Fire, Clint.Covered, Board.Poll, Has, Uart.Level;
    var b := s.b.(clint := Clint.Fire(s.b.clint, m.now));
    Clint.TimeCovered(s.b.clint, now, m.now);
    Board.PollLines(b, m.input);
    Board.PollClint(b, m.input);
    Clint.ServiceCovered(b.clint, m.now);
  }

  lemma {:induction false} WaitInv(s: State, now: nat, moments: seq<Moment>)
    requires Ok(s) && Board.Inv(s.b, now) && Ordered(now, moments)
    ensures var (u, later, _) := Wait(s, now, moments); Board.Inv(u.b, later) && now <= later
    decreases |moments|
  {
    hide WfiWake, Board.Poll, Clint.Fire, Board.Inv;
    if !WfiWake(s, now) && moments != [] {
      WokenInv(s, now, moments[0]);
      WaitInv(Woken(s, moments[0]), moments[0].now, moments[1..]);
    }
  }

  /** A sleeping core with the timer enabled and set has the host's alarm at exactly the deadline, and the
      deadline is still to come. */
  lemma SleepsWithAlarm(s: State, now: nat)
    requires Ok(s) && Board.Inv(s.b, now) && Has(s.h.csr.mie, Hart.MTIP) && s.b.clint.mtimecmp < Clint.NEVER
    requires !WfiWake(s, now)
    ensures s.b.clint.alarm.on && s.b.clint.alarm.target == s.b.clint.mtimecmp && now < s.b.clint.mtimecmp
  {
    hide Has, Board.Lines, Board.Ok, WfiWake;
    Clint.SleepIsSafe(s.b.clint, now);
    if now >= s.b.clint.mtimecmp { WakesAtDeadline(s, now); }
  }

  /** So it does however many wake-ups it has slept through. */
  lemma {:induction false} StillAsleep(s: State, now: nat, moments: seq<Moment>)
    requires Ok(s) && Board.Inv(s.b, now) && Ordered(now, moments)
    requires Has(s.h.csr.mie, Hart.MTIP) && s.b.clint.mtimecmp < Clint.NEVER
    requires !Wait(s, now, moments).2
    ensures var (u, later, _) := Wait(s, now, moments);
      && u.b.clint.mtimecmp == s.b.clint.mtimecmp && later < s.b.clint.mtimecmp
      && u.b.clint.alarm.on && u.b.clint.alarm.target == s.b.clint.mtimecmp
    decreases |moments|
  {
    hide WfiWake, Has, Board.Poll, Clint.Fire, Board.Inv;
    if moments == [] {
      SleepsWithAlarm(s, now);
    } else {
      var m := moments[0];
      WokenKeepsDeadline(s, m);
      WokenInv(s, now, m);
      StillAsleep(Woken(s, m), m.now, moments[1..]);
    }
  }

  /** What the host owes a sleeping core: an alarm that is on, with its target no later than `end`, wakes it
      within `latency` of the target, if nothing else does before. */
  ghost predicate Prompt(s: State, now: nat, moments: seq<Moment>, end: nat, latency: nat)
    requires Ok(s)
    decreases |moments|
  {
    WfiWake(s, now) ||
    (var a := s.b.clint.alarm;
     && (a.on && now <= a.target <= end ==> moments != [] && moments[0].now <= a.target + latency)
     && (moments != [] ==> Prompt(Woken(s, moments[0]), moments[0].now, moments[1..], end, latency)))
  }

  /** With the timer enabled and set, the wait ends, and within that latency of the deadline. */
  lemma {:induction false} SleepEnds(s: State, now: nat, moments: seq<Moment>, end: nat, latency: nat)
    requires Ok(s) && Board.Inv(s.b, now) && Ordered(now, moments)
    requires Has(s.h.csr.mie, Hart.MTIP) && s.b.clint.mtimecmp < Clint.NEVER
    requires Prompt(s, now, moments, end, latency) && s.b.clint.mtimecmp <= end
    ensures var (_, later, awake) := Wait(s, now, moments);
      awake && (later == now || later <= s.b.clint.mtimecmp + latency)
    decreases |moments|
  {
    hide WfiWake, Has, Board.Poll, Clint.Fire, Board.Inv;
    if !WfiWake(s, now) {
      SleepsWithAlarm(s, now);
      var m := moments[0];
      WokenKeepsDeadline(s, m);
      WokenInv(s, now, m);
      SleepEnds(Woken(s, m), m.now, moments[1..], end, latency);
    }
  }

  lemma {:induction false} WaitIsAwake(s: State, now: nat, moments: seq<Moment>)
    requires Ok(s) && Wait(s, now, moments).2
    ensures var (u, later, _) := Wait(s, now, moments); WfiWake(u, later)
    decreases |moments|
  {
    hide WfiWake, Board.Poll, Clint.Fire;
    if !WfiWake(s, now) { WaitIsAwake(Woken(s, moments[0]), moments[0].now, moments[1..]); }
  }

  /** A guest that sleeps with its gate open and a vector set is interrupted by the trap it sleeps in, by what
      woke it, and will return to the instruction after its wfi. */
  lemma WfiInjects(s: State, t: Trap)
    requires Ok(s) && Sized(t) && t.cause == 2 && t.tval == Decode.WFI
    requires Blocks(s) && Hart.Gate(s.h.csr.mstatus) && s.h.csr.mtvec != 0
    requires Wait(s, t.w.now, t.moments).2
    ensures Answered(s, t).1 == Returned(true)
    ensures var (u, later, _) := Wait(s, t.w.now, t.moments);
      && Chosen(u, later).Some?
      && Interrupted(s, Answered(s, t).0, Plus(Hart.Pc(s.h), 4), InterruptReason(Chosen(u, later).value))
  {
    hide Wait, Blocks, Hart.Gate, Hart.Wanted, Hart.First, Hart.MipRead, Deliver, Mtip, Meip, Plus, Interrupted;
    WfiFields();
    var (u, later, awake) := Wait(s, t.w.now, t.moments);
    WaitIsAwake(s, t.w.now, t.moments);
    WaitKeepsHart(s, t.w.now, t.moments);
    Hart.DeliverAgrees(u.h.csr, u.h.mip, Mtip(u.b, later), Meip(u.b));
    var v := u.(h := Hart.Jump(u.h, Plus(Hart.Pc(u.h), 4)));
    assert Chosen(v, later) == Chosen(u, later);
    DeliverOnce(s, v, later);
  }

  lemma WfiFields()
    ensures Decode.Opcode(Decode.WFI) == 0x73 && Decode.Funct3(Decode.WFI) == 0 && Length(Decode.WFI) == 4
    ensures Decode.WFI != Decode.MRET && !IsInterrupt(2)
  {
  }

  /** A wfi with the timer enabled and set does not hang: the trap is answered, within the latency of the
      deadline, and the guest goes on after its wfi or is interrupted there. */
  lemma WfiEnds(s: State, t: Trap, end: nat, latency: nat)
    requires Ok(s) && Sized(t) && t.cause == 2 && t.tval == Decode.WFI
    requires Board.Inv(s.b, t.w.now) && Ordered(t.w.now, t.moments)
    requires Has(s.h.csr.mie, Hart.MTIP) && s.b.clint.mtimecmp < Clint.NEVER
    requires Prompt(s, t.w.now, t.moments, end, latency) && s.b.clint.mtimecmp <= end
    ensures
      var u, pc := Answered(s, t), Plus(Hart.Pc(s.h), 4);
      && u.1 == Returned(true) && (RunsOn(s, u.0, pc) || Interrupted(s, u.0, pc, Why(s, t)))
      && (Handle(s, t).now == t.w.now || Handle(s, t).now <= s.b.clint.mtimecmp + latency)
  {
    hide Wait, Has, Plus, Deliver, Board.Inv, Prompt, Ordered, RunsOn, Interrupted, Takes, Why, Settled;
    WfiFields();
    SleepEnds(s, t.w.now, t.moments, end, latency);
    ResumesOnce(s, t);
  }

  // ---- the devices over traps --------------------------------------------------------------------------

  lemma CsrTrapInv(s: State, t: Trap)
    requires Ok(s) && Board.Inv(s.b, t.w.now) && Ordered(t.w.now, t.moments)
    ensures var r := CsrTrap(s, t); Board.Inv(r.s.b, r.now) && t.w.now <= r.now
  {
    hide Decode.Opcode, Decode.Funct3, Decode.Rs1, Decode.Rd, Decode.CsrField, Decode.Is32Bit, Board.Inv, Wait;
    hide OpOf, Immediate5, Immediate, X, RegWrite, CsrNumber, Hart.Mret, Blocks, Updated, Writes, Mtip, Meip;
    hide Hart.ShadowSlot, Hart.Load, Hart.Store, Hart.MipRead, Hart.Stored, Hart.ReadOnlyZero;
    WaitInv(s, t.w.now, t.moments);
  }

  lemma MmioTrapInv(s: State, t: Trap, window: Board.Window)
    requires Ok(s) && Sized(t) && window.base <= Num(t.tval) && Board.Inv(s.b, t.w.now)
    ensures var r := MmioTrap(s, t, window); Board.Inv(r.s.b, r.now) && r.now == t.w.now
  {
    hide Decode.Fetch, Decode.IsAccess, Decode.IsStore, Decode.Funct3, Decode.Rd, Decode.Rs2;
    hide Num, Width, Extended, X, RegWrite, Board.Read, Board.Write, Board.Inv;
    var f := Decode.Fetch(t.low, t.high);
    if f.Fetched? {
      var f3, offset := Decode.Funct3(f.encoding), Num(t.tval) - window.base;
      if Decode.IsStore(f.encoding) {
        AccessInv(s.b, t.w, Board.WriteEvent(window.device, offset, X(s.h, Decode.Rs2(f.encoding)), Width(f3, true)));
      } else {
        AccessInv(s.b, t.w, Board.ReadEvent(window.device, offset, Width(f3, false)));
      }
    }
  }

  lemma AccessInv(b: Board.State, w: Board.World, e: Board.Event)
    requires Board.Ok(b) && Board.Inv(b, w.now) && BlkRegs.Sized(w.card) && Board.Possible(w.now, e)
    ensures e.ReadEvent? ==> Board.Inv(Board.Read(b, w, e.d, e.offset, e.width).0, w.now)
    ensures e.WriteEvent? ==> Board.Inv(Board.Write(b, w, e.d, e.offset, e.value, e.width), w.now)
  {
    hide Board.Inv, Board.Read, Board.Write, Board.Poll;
    Board.InvKept(b, w, e);
  }

  /** At every trap boundary the devices are as they must be: the console's line follows its level, the
      block device's source has its reason, an armed timer has its alarm. */
  lemma TrapKeepsDevices(s: State, t: Trap)
    requires Ok(s) && Sized(t) && Board.Inv(s.b, t.w.now) && Ordered(t.w.now, t.moments)
    ensures var later := if IsInterrupt(t.cause) then t.w.now else Handle(s, t).now;
      t.w.now <= later && Board.Inv(Answered(s, t).0.b, later)
  {
    hide Board.Inv, Board.Poll, CsrTrap, MmioTrap, Hart.Inject, Hart.Deliver, Mtip, Meip, Num, Board.Find, IsInterrupt;
    if IsInterrupt(t.cause) {
      PollInv(s.b, t.w, t.input);
    } else if t.cause == 2 {
      CsrTrapInv(s, t);
    } else if t.cause == 5 || t.cause == 7 {
      FindHolds(Num(t.tval));
      var found := Board.Find(Num(t.tval));
      if found.Some? { MmioTrapInv(s, t, found.value); }
    }
  }

  lemma PollInv(b: Board.State, w: Board.World, input: seq<bv8>)
    requires Board.Ok(b) && Board.Inv(b, w.now) && BlkRegs.Sized(w.card)
    ensures Board.Inv(Board.Poll(b, input), w.now)
  {
    hide Board.Inv, Board.Poll;
    Board.InvKept(b, w, Board.PollEvent(input));
  }
}
