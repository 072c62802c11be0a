/** Trap handlers of the guest, nested to any depth. A run is a sequence of traps answered by the monitor,
    of guest steps and of device events; the monitor keeps no stack, so the one here is kept beside it:
    it grows when a trap ends in an injection, and shrinks at an mret. */
module Nesting {
  import opened Bits
  import opened Emulator
  import opened EmulatorProofs
  import Uart
  import Clint
  import Board
  import BlkRegs
  import Hart
  import Decode

  const MSTATUS: bv12 := 0x300
  const MEPC: bv12 := 0x341

  // ---- runs ------------------------------------------------------------------------------------------

  /** The guest and the devices, the time, and for each handler that has been entered and not left the
      guest as it was when the trap was injected. */
  datatype Nest = Nest(s: State, stack: seq<Hart.State>, now: nat)

  datatype Move =
    | Go(frame: seq<bv32>)
    | Outside(w: Board.World, e: Board.Event)
    | Trapped(t: Trap)
    | Leave(t: Trap)

  /** The guest just before the interrupt that the trap ends with, or the exception that it is. */
  function Base(s: State, t: Trap): (h: Hart.State)
    requires Ok(s) && Sized(t)
    ensures Hart.Ok(h)
  {
    if IsInterrupt(t.cause) then s.h
    else match Handle(s, t).outcome
      case Advance(length) => Hart.Jump(Handle(s, t).s.h, Plus(Hart.Pc(Handle(s, t).s.h), length))
      case Resume => if t.cause == 2 then Handle(s, t).s.h else s.h
      case _ => s.h
  }

  predicate IsMret(t: Trap) {
    t.cause == 2 && t.tval == Decode.MRET
  }

  function Top(n: Nest): Hart.State
    requires n.stack != []
  {
    n.stack[|n.stack| - 1]
  }

  /** mstatus as a handler entered from `base` finds it. */
  function Saved(base: Hart.State): bv32 {
    Hart.Pushed(base.csr.mstatus, base.priv)
  }

  ghost predicate Good(n: Nest) {
    Ok(n.s) && forall k :: 0 <= k < |n.stack| ==> Hart.Ok(n.stack[k])
  }

  predicate OnTime(n: Nest, t: Trap) {
    Sized(t) && t.w.now == n.now && Ordered(n.now, t.moments)
  }

  /** A handler may do anything, as long as mstatus is as it found it when it returns; where it returns to
      is its own choice. Outside any handler the guest may do anything at all. Time passes in the open. */
  predicate Allowed(n: Nest, m: Move)
    requires Good(n)
  {
    match m
    case Go(frame) => |frame| == 32
    case Outside(w, e) => BlkRegs.Sized(w.card) && w.now == n.now && Board.Possible(n.now, e)
    case Trapped(t) => OnTime(n, t) && Answered(n.s, t).1 == Returned(true) && (n.stack != [] ==> !IsMret(t))
    case Leave(t) =>
      && OnTime(n, t) && n.stack != [] && IsMret(t)
      && n.s.h.csr.mstatus == Saved(Top(n)) && n.s.h.csr.mepc != 0
  }

  /** When the trap has been answered: a wfi may have slept. */
  function Later(s: State, t: Trap): nat
    requires Ok(s) && Sized(t)
  {
    if IsInterrupt(t.cause) then t.w.now else Handle(s, t).now
  }

  /** A trap, with a handler more if it ends in an injection. */
  function Trapping(s: State, t: Trap, stack: seq<Hart.State>): (u: Nest)
    requires Ok(s) && Sized(t) && forall k :: 0 <= k < |stack| ==> Hart.Ok(stack[k])
    ensures Good(u)
  {
    var u := Answered(s, t).0;
    Nest(u, if u.h.injections == s.h.injections then stack else stack + [Base(s, t)], Later(s, t))
  }

  function Next(n: Nest, m: Move): (u: Nest)
    requires Good(n) && Allowed(n, m)
    ensures Good(u)
  {
    match m
    case Go(frame) => n.(s := n.s.(h := n.s.h.(frame := frame)))
    case Outside(w, e) => var (b, v) := Board.After(n.s.b, w, e); Nest(n.s.(b := b), n.stack, v.now)
    case Trapped(t) => Trapping(n.s, t, n.stack)
    case Leave(t) => Trapping(n.s, t, n.stack[..|n.stack| - 1])
  }

  // ---- one trap --------------------------------------------------------------------------------------

  /** The guest is in a handler entered from `base`, and has not touched what it has to put back. */
  ghost predicate Entered(h: Hart.State, base: Hart.State)
    requires Hart.Ok(base)
  {
    h.csr.mstatus == Hart.Pushed(base.csr.mstatus, base.priv) && h.csr.mepc == Hart.Pc(base) && h.priv == Hart.PRIV_M
  }

  lemma InjectEnters(h: Hart.State, cause: bv32, tval: bv32)
    requires Hart.Ok(h)
    ensures var t := Hart.Inject(h, cause, tval);
      Entered(t, h) && t.injections == h.injections + 1 && t.mip == h.mip
  {
    hide Hart.Pushed, Hart.Vector;
  }

  /** The tail of the trap handler: nothing, or an injection. With the gate shut, nothing. */
  lemma DeliverEnters(s: State, now: nat)
    requires Ok(s)
    ensures var u := Deliver(s, now);
      && u.h.mip == s.h.mip && u.b == s.b
      && (u.h.injections == s.h.injections ==> u.h == s.h)
      && (u.h.injections != s.h.injections ==> u.h.injections == s.h.injections + 1 && Entered(u.h, s.h))
      && (!Hart.Gate(s.h.csr.mstatus) ==> u.h == s.h)
  {
    hide Hart.Inject, Hart.Wanted, Hart.Gate, Hart.Cause, Mtip, Meip, Entered;
    var want := Hart.Wanted(s.h.csr, s.h.mip, Mtip(s.b, now), Meip(s.b));
    if want.Some? { InjectEnters(s.h, Hart.Cause(want.value), 0); }
  }

  lemma ReflectEnters(s: State, t: Trap, cause: bv32, tval: bv32)
    requires Ok(s) && Reflect(s, t, cause, tval).outcome == Resume
    ensures var u := Reflect(s, t, cause, tval).s;
      Entered(u.h, s.h) && u.h.injections == s.h.injections + 1 && u.h.mip == s.h.mip
      && !Hart.Gate(u.h.csr.mstatus) && u.b == s.b
  {
    hide Hart.Inject, Hart.Gate, Hart.Pushed;
    InjectEnters(s.h, cause, tval);
    Hart.PushedGate(s.h.csr.mstatus, s.h.priv);
  }

  lemma CsrNumberBack(c: bv12)
    ensures CsrNumber(c) == 0x300 ==> c == MSTATUS
    ensures CsrNumber(c) == 0x341 ==> c == MEPC
    ensures CsrNumber(MSTATUS) == 0x300 && CsrNumber(MEPC) == 0x341
  {
  }

  /** A CSR instruction leaves privilege alone, keeps the wires of mip clear, and changes mstatus or mepc
      only by name. */
  lemma CsrOpKeeps(s: State, now: nat, c: bv12, op: Op, src: bv32, rs1: bv5, rd: bv5)
    requires Ok(s) && CsrOp(s, now, CsrNumber(c), op, src, rs1, rd).Some?
    ensures var u := CsrOp(s, now, CsrNumber(c), op, src, rs1, rd).value;
      && u.h.priv == s.h.priv && u.b == s.b
      && (Hart.WiresClear(s.h.mip) ==> Hart.WiresClear(u.h.mip))
      && (c != MSTATUS ==> u.h.csr.mstatus == s.h.csr.mstatus)
      && (c != MEPC ==> u.h.csr.mepc == s.h.csr.mepc)
  {
    hide CsrNumber, CsrOp, Has, Updated, Writes, Hart.ShadowSlot, Hart.ReadOnlyZero, Hart.MipRead, X;
    var csr := CsrNumber(c);
    CsrNumberBack(c);
    if csr == Hart.CSR_MIP {
      MipMeaning(s, now, op, src, rs1, rd, 0, Hart.MTIP);
      MipMeaning(s, now, op, src, rs1, rd, 0, Hart.MEIP);
    } else if Hart.ShadowSlot(csr).Some? {
      SlotNames(csr);
      CsrMeaning(s, now, csr, op, src, rs1, rd, 0, Hart.Mstatus);
      CsrMeaning(s, now, csr, op, src, rs1, rd, 0, Hart.Mepc);
    } else {
      ZeroCsrKeeps(s, now, csr, op, src, rs1, rd);
    }
  }

  lemma SlotNames(csr: nat)
    ensures Hart.ShadowSlot(csr) == Hart.Some(Hart.Mstatus) <==> csr == 0x300
    ensures Hart.ShadowSlot(csr) == Hart.Some(Hart.Mepc) <==> csr == 0x341
  {
  }

  lemma ZeroCsrKeeps(s: State, now: nat, csr: nat, op: Op, src: bv32, rs1: bv5, rd: bv5)
    requires Ok(s) && CsrOp(s, now, csr, op, src, rs1, rd).Some?
    requires csr != Hart.CSR_MIP && Hart.ShadowSlot(csr).None?
    ensures var u := CsrOp(s, now, csr, op, src, rs1, rd).value;
      u.b == s.b && u.h.csr == s.h.csr && u.h.mip == s.h.mip && u.h.priv == s.h.priv
  {
    hide RegWrite, Hart.ShadowSlot, Mtip, Meip, Hart.MipRead, Updated, Writes;
    RegWriteKeepsCsrs(s.h, rd, 0, Hart.Mstatus);
  }

  /** So does every emulated instruction. */
  lemma AdvanceKeeps(s: State, t: Trap)
    requires Ok(s) && Sized(t) && Handle(s, t).outcome.Advance?
    ensures var u := Handle(s, t).s;
      && u.h.priv == s.h.priv && u.h.injections == s.h.injections && Hart.Pc(u.h) == Hart.Pc(s.h)
      && (Hart.WiresClear(s.h.mip) ==> Hart.WiresClear(u.h.mip))
      && (!Names(t, MSTATUS) ==> u.h.csr.mstatus == s.h.csr.mstatus)
      && (!Names(t, MEPC) ==> u.h.csr.mepc == s.h.csr.mepc)
  {
    hide CsrTrap, MmioTrap, Board.Find, Num, Hart.WiresClear, Hart.Inject, Names;
    AdvanceKeepsPc(s, t);
    if t.cause == 2 {
      CsrAdvanceKeeps(s, t);
    } else {
      FindHolds(Num(t.tval));
      MmioKeeps(s, t, Board.Find(Num(t.tval)).value);
    }
  }

  lemma CsrAdvanceKeeps(s: State, t: Trap)
    requires Ok(s) && t.cause == 2 && CsrTrap(s, t).outcome.Advance?
    ensures var u := CsrTrap(s, t).s;
      && u.h.priv == s.h.priv
      && (Hart.WiresClear(s.h.mip) ==> Hart.WiresClear(u.h.mip))
      && (!Names(t, MSTATUS) ==> u.h.csr.mstatus == s.h.csr.mstatus)
      && (!Names(t, MEPC) ==> u.h.csr.mepc == s.h.csr.mepc)
  {
    hide Decode.Opcode, Decode.Funct3, Decode.Rs1, Decode.Rd, Decode.CsrField, Decode.Is32Bit;
    hide OpOf, Immediate5, Immediate, CsrOp, X, CsrNumber, Hart.Mret, Wait, Blocks, Hart.WiresClear;
    var w := t.tval;
    var f, rs1 := Decode.Funct3(w), Decode.Rs1(w);
    if f == 0 {
      WaitKeepsHart(s, t.w.now, t.moments);
    } else {
      CsrOpKeeps(s, t.w.now, Decode.CsrField(w), OpOf(f), Source(s.h, f, rs1), rs1, Decode.Rd(w));
    }
  }

  lemma MmioKeeps(s: State, t: Trap, window: Board.Window)
    requires Ok(s) && Sized(t) && window.base <= Num(t.tval)
    ensures var u := MmioTrap(s, t, window).s;
      u.h.priv == s.h.priv && u.h.mip == s.h.mip && u.h.csr == s.h.csr
  {
    hide Decode.Fetch, Decode.IsAccess, Decode.IsStore, Decode.Funct3, Decode.Rd, Decode.Rs2;
    hide Num, Width, Extended, X, RegWrite, Board.Read, Board.Write;
    var f := Decode.Fetch(t.low, t.high);
    if f.Fetched? && !Decode.IsStore(f.encoding) {
      var f3 := Decode.Funct3(f.encoding);
      var v := Board.Read(s.b, t.w, window.device, Num(t.tval) - window.base, Width(f3, false)).1;
      RegWriteKeepsCsrs(s.h, Decode.Rd(f.encoding), Extended(f3, v), Hart.Mstatus);
    }
  }

  lemma ResumeIsMret(s: State, t: Trap)
    requires Ok(s) && Sized(t) && t.cause == 2 && Handle(s, t).outcome == Resume
    ensures var u := Handle(s, t).s;
      IsMret(t) && u.h == Hart.Mret(s.h).0 && u.h.injections == s.h.injections && u.h.mip == s.h.mip && u.b == s.b
  {
    hide Decode.Opcode, Decode.Funct3, Decode.Rs1, Decode.Rd, Decode.CsrField, Decode.Is32Bit, CsrNumber;
    hide CsrOp, Wfi, Hart.Popped, Hart.Previous, X, OpOf, Immediate, Immediate5;
  }

  lemma ReflectedEnters(s: State, t: Trap)
    requires Ok(s) && Sized(t) && t.cause != 2 && Handle(s, t).outcome == Resume
    ensures var u := Handle(s, t).s;
      Entered(u.h, s.h) && u.h.injections == s.h.injections + 1 && u.h.mip == s.h.mip
      && !Hart.Gate(u.h.csr.mstatus)
  {
    hide Reflect, CsrTrap, Board.Find, Num, Entered, Hart.Gate, Width, LoadFrom, StoreTo, Decode.Fetch;
    hide Decode.IsAccess, Decode.IsStore, Decode.Funct3;
    if t.cause == 3 { ReflectEnters(s, t, 3, Hart.Pc(s.h)); }
    else if t.cause == 8 { ReflectEnters(s, t, 8, 0); }
    else { ReflectEnters(s, t, t.cause, t.tval); }
  }

  lemma JumpKeeps(h: Hart.State, pc: bv32)
    requires Hart.Ok(h)
    ensures var t := Hart.Jump(h, pc);
      Hart.Pc(t) == pc && t.csr == h.csr && t.mip == h.mip && t.priv == h.priv && t.injections == h.injections
  {
  }

  /** A trap that the guest goes on from injects once or not at all. If it does not, the guest is where the
      instruction left it; if it does, a handler has been entered from there. Only mret moves the level of
      the guest it interrupts, and nothing ever stores the wires of mip. */
  lemma TrapEnters(s: State, t: Trap)
    requires Ok(s) && Sized(t) && Answered(s, t).1 == Returned(true)
    ensures var u, base := Answered(s, t).0, Base(s, t);
      && Hart.Pc(base) == GoesOn(s, t)
      && (u.h.injections == s.h.injections ==> u.h == base)
      && (u.h.injections != s.h.injections ==> u.h.injections == s.h.injections + 1 && Entered(u.h, base))
      && (!IsMret(t) ==> base.priv == s.h.priv)
      && (Hart.WiresClear(s.h.mip) ==> Hart.WiresClear(u.h.mip))
  {
    hide Handle, Deliver, IsInterrupt, Board.Poll, Plus, Entered, Hart.WiresClear, Hart.Gate, IsMret, Hart.Pc, Hart.Jump;
    hide Hart.Mret;
    if IsInterrupt(t.cause) {
      DeliverEnters(s.(b := Board.Poll(s.b, t.input)), t.w.now);
    } else {
      var r := Handle(s, t);
      match r.outcome {
        case Advance(length) =>
          AdvanceKeeps(s, t);
          JumpKeeps(r.s.h, Plus(Hart.Pc(r.s.h), length));
          DeliverEnters(r.s.(h := Hart.Jump(r.s.h, Plus(Hart.Pc(r.s.h), length))), r.now);
        case Resume =>
          DeliverEnters(r.s, r.now);
          if t.cause == 2 { ResumeIsMret(s, t); ResumeMeans(s, t); } else { ReflectedEnters(s, t); }
        case Unhandled =>
        case Asleep =>
      }
    }
  }

  // ---- traps with the gate shut ------------------------------------------------------------------------

  predicate Names(t: Trap, csr: bv12) {
    t.cause == 2 && Decode.Funct3(t.tval) != 0 && Decode.CsrField(t.tval) == csr
  }

  /** A host interrupt taken with the gate shut, or an emulated instruction after which it is. */
  predicate Quiet(s: State, t: Trap)
    requires Ok(s) && Sized(t)
  {
    if IsInterrupt(t.cause) then !Hart.Gate(s.h.csr.mstatus)
    else Handle(s, t).outcome.Advance? && !Hart.Gate(Handle(s, t).s.h.csr.mstatus)
  }

  /** Such a trap injects nothing, and leaves mstatus and mepc alone unless it names them. */
  lemma QuietKeeps(s: State, t: Trap)
    requires Ok(s) && Sized(t) && Quiet(s, t)
    ensures var u := Answered(s, t).0;
      && Answered(s, t).1 == Returned(true) && !IsMret(t)
      && u.h.priv == s.h.priv && u.h.injections == s.h.injections && !Hart.Gate(u.h.csr.mstatus)
      && (!Names(t, MSTATUS) ==> u.h.csr.mstatus == s.h.csr.mstatus)
      && (!Names(t, MEPC) ==> u.h.csr.mepc == s.h.csr.mepc)
  {
    hide Handle, Deliver, IsInterrupt, Board.Poll, Plus, Entered, Hart.WiresClear, Hart.Gate, Names, Hart.Pc, Hart.Jump;
    MretFields();
    if IsInterrupt(t.cause) {
      DeliverEnters(s.(b := Board.Poll(s.b, t.input)), t.w.now);
    } else {
      var r := Handle(s, t);
      AdvanceKeeps(s, t);
      AdvanceIsNotMret(s, t);
      JumpKeeps(r.s.h, Plus(Hart.Pc(r.s.h), r.outcome.length));
      DeliverEnters(r.s.(h := Hart.Jump(r.s.h, Plus(Hart.Pc(r.s.h), r.outcome.length))), r.now);
    }
  }

  lemma AdvanceIsNotMret(s: State, t: Trap)
    requires Ok(s) && Sized(t) && Handle(s, t).outcome.Advance?
    ensures !IsMret(t)
  {
    hide Decode.Opcode, Decode.Funct3, Hart.Popped, Hart.Previous;
    MretFields();
  }

  lemma MretFields()
    ensures Decode.Opcode(Decode.MRET) == 0x73 && Decode.Funct3(Decode.MRET) == 0 && !IsInterrupt(2)
  {
  }

  /** csrrw rd, csr, rs1 with `v` in rs1. */
  predicate Puts(s: State, t: Trap, csr: bv12, rs1: bv5, rd: bv5, v: bv32)
    requires Ok(s)
  {
    t.cause == 2 && t.tval == Decode.EncodeCsr(csr, rs1, Funct3Of(Swap, false), rd) && X(s.h, rs1) == v
  }

  /** The trap of a csrrw that puts mstatus or mepc back. */
  lemma PutHandled(s: State, t: Trap, csr: bv12, rs1: bv5, rd: bv5, v: bv32)
    requires Ok(s) && Sized(t) && Puts(s, t, csr, rs1, rd, v) && (csr == MSTATUS || csr == MEPC)
    ensures var r := Handle(s, t);
      && r.outcome == Advance(4) && r.s.h.priv == s.h.priv && r.s.h.injections == s.h.injections
      && r.s.h.csr == (if csr == MSTATUS then s.h.csr.(mstatus := v) else s.h.csr.(mepc := v))
      && Hart.Pc(r.s.h) == Hart.Pc(s.h) && r.s.h.mip == s.h.mip && r.s.b == s.b && r.now == t.w.now
  {
    hide Decode.EncodeCsr, Funct3Of, CsrNumber, Handle, RegWrite, X, Hart.Pc, Hart.ShadowSlot;
    CsrDecoded(s, t, csr, Swap, false, rs1, rd);
    CsrNumberBack(csr);
    SlotNames(CsrNumber(csr));
    PutStores(s, t.w.now, csr, v, rs1, rd);
  }

  lemma PutStores(s: State, now: nat, csr: bv12, v: bv32, rs1: bv5, rd: bv5)
    requires Ok(s) && (csr == MSTATUS || csr == MEPC)
    ensures var r := CsrOp(s, now, CsrNumber(csr), Swap, v, rs1, rd);
      && r.Some? && r.value.h.priv == s.h.priv && r.value.h.injections == s.h.injections
      && r.value.h.csr == (if csr == MSTATUS then s.h.csr.(mstatus := v) else s.h.csr.(mepc := v))
      && Hart.Pc(r.value.h) == Hart.Pc(s.h) && r.value.h.mip == s.h.mip && r.value.b == s.b
  {
    hide CsrNumber, RegWrite, Hart.Pc, Hart.ShadowSlot, Mtip, Meip;
    CsrNumberBack(csr);
    SlotNames(CsrNumber(csr));
    var slot := if csr == MSTATUS then Hart.Mstatus else Hart.Mepc;
    var h, was := Hart.Store(s.h, slot, v), Hart.Load(s.h, slot);
    RegWriteKeepsCsrs(h, rd, was, Hart.Mstatus);
    RegWriteMeaning(h, rd, was, 0);
    StorePc(s.h, slot, v);
  }

  lemma StorePc(h: Hart.State, slot: Hart.Slot, v: bv32)
    requires Hart.Ok(h) && Hart.SlotOk(slot)
    ensures Hart.Pc(Hart.Store(h, slot, v)) == Hart.Pc(h)
  {
  }

  /** A csrrw that puts a value into mstatus that shuts the gate, or into mepc with the gate shut, is such a
      trap, and the value is still there when it has been answered. */
  lemma PutKeeps(s: State, t: Trap, csr: bv12, rs1: bv5, rd: bv5, v: bv32)
    requires Ok(s) && Sized(t) && Puts(s, t, csr, rs1, rd, v) && (csr == MSTATUS || csr == MEPC)
    requires !Hart.Gate(if csr == MSTATUS then v else s.h.csr.mstatus)
    ensures var u := Answered(s, t).0;
      && Quiet(s, t)
      && u.h.csr == (if csr == MSTATUS then s.h.csr.(mstatus := v) else s.h.csr.(mepc := v))
      && u.h.priv == s.h.priv && u.h.injections == s.h.injections
  {
    hide Handle, Deliver, Puts, Plus, Entered, Hart.Gate, Hart.Pc, Hart.Jump;
    PutHandled(s, t, csr, rs1, rd, v);
    PutIsTrap(s, t, csr, rs1, rd, v);
    var r := Handle(s, t);
    JumpKeeps(r.s.h, Plus(Hart.Pc(r.s.h), 4));
    DeliverEnters(r.s.(h := Hart.Jump(r.s.h, Plus(Hart.Pc(r.s.h), 4))), r.now);
  }

  lemma PutIsTrap(s: State, t: Trap, csr: bv12, rs1: bv5, rd: bv5, v: bv32)
    requires Ok(s) && Puts(s, t, csr, rs1, rd, v)
    ensures !IsInterrupt(t.cause)
  {
    hide Decode.EncodeCsr, X;
  }

  // ---- every run -------------------------------------------------------------------------------------

  /** The guest is at the level it had, with the gate it had, and of mstatus only the stacked fields may
      differ. */
  ghost predicate SameLevel(h: Hart.State, base: Hart.State) {
    && h.priv == base.priv
    && Hart.Gate(h.csr.mstatus) == Hart.Gate(base.csr.mstatus)
    && Hart.Others(h.csr.mstatus) == Hart.Others(base.csr.mstatus)
  }

  /** The mret of a handler that has put mstatus back. */
  lemma MretRestores(s: State, t: Trap, base: Hart.State)
    requires Ok(s) && Sized(t) && IsMret(t) && Hart.Ok(base)
    requires s.h.csr.mstatus == Saved(base) && s.h.csr.mepc != 0
    ensures Answered(s, t).1 == Returned(true)
    ensures SameLevel(Base(s, t), base) && Hart.Pc(Base(s, t)) == s.h.csr.mepc
  {
    hide Hart.Mret, Hart.Pushed, Hart.Gate, Hart.Others, Hart.Stacked, Decode.Opcode, Decode.Funct3, Deliver;
    hide Hart.Inject, Hart.Jump, Hart.Pc;
    MretFields();
    var there := Hart.Jump(base, s.h.csr.mepc);
    JumpKeeps(base, s.h.csr.mepc);
    InjectEnters(there, 0, 0);
    Hart.MretUndoesInject(there, 0, 0, s.h);
  }

  /** All but the outermost handler were entered from machine mode. */
  ghost predicate Shape(stack: seq<Hart.State>) {
    forall k :: 1 <= k < |stack| ==> stack[k].priv == Hart.PRIV_M
  }

  lemma ShapePushed(stack: seq<Hart.State>, base: Hart.State)
    requires Shape(stack) && (stack != [] ==> base.priv == Hart.PRIV_M)
    ensures Shape(stack + [base])
  {
  }

  lemma ShapePopped(stack: seq<Hart.State>)
    requires Shape(stack) && stack != []
    ensures var left := stack[..|stack| - 1];
      Shape(left) && (left != [] ==> stack[|left|].priv == Hart.PRIV_M)
  {
  }

  ghost predicate Inv(n: Nest) {
    && Good(n) && Shape(n.stack) && (n.stack != [] ==> n.s.h.priv == Hart.PRIV_M)
    && Hart.WiresClear(n.s.h.mip) && Board.Inv(n.s.b, n.now)
  }

  lemma InvIsGood(n: Nest)
    requires Inv(n)
    ensures Good(n)
  {
  }

  lemma HasTrap(n: Nest, m: Move)
    requires Good(n) && Allowed(n, m) && (m.Trapped? || m.Leave?)
    ensures Sized(m.t) && (m.Leave? ==> n.stack != [])
  {
  }

  /** A trap other than a handler's return: the guest goes on, or a handler is entered. */
  lemma TrapGoesOn(n: Nest, m: Move)
    requires Inv(n) && Allowed(n, m) && m.Trapped?
    ensures var u, base := Next(n, m), Base(n.s, m.t);
      && Hart.WiresClear(u.s.h.mip) && Hart.Pc(base) == GoesOn(n.s, m.t)
      && (n.stack != [] ==> base.priv == Hart.PRIV_M)
      && ((u.stack == n.stack && u.s.h == base) || (u.stack == n.stack + [base] && Entered(u.s.h, base)))
  {
    hide Answered, Base, GoesOn, Shape, IsMret, Hart.WiresClear, Hart.Pc, Entered, Board.Inv, Later;
    TrapEnters(n.s, m.t);
  }

  /** A handler's return: the guest is where mepc said, at the level and with the gate the handler was
      entered from, unless another interrupt is taken there at once. */
  lemma LeaveRestores(n: Nest, m: Move)
    requires Inv(n) && Allowed(n, m) && m.Leave?
    ensures var u, base, left := Next(n, m), Base(n.s, m.t), n.stack[..|n.stack| - 1];
      && SameLevel(base, Top(n)) && Hart.Pc(base) == n.s.h.csr.mepc && Hart.WiresClear(u.s.h.mip)
      && ((u.stack == left && u.s.h == base) || (u.stack == left + [base] && Entered(u.s.h, base)))
  {
    hide Answered, Base, GoesOn, Shape, Hart.Pushed, Hart.WiresClear, Hart.Pc, Entered, SameLevel, Board.Inv, Later;
    MretRestores(n.s, m.t, Top(n));
    TrapEnters(n.s, m.t);
  }

  lemma DevicesKept(n: Nest, m: Move)
    requires Inv(n) && Allowed(n, m)
    ensures n.now <= Next(n, m).now && Board.Inv(Next(n, m).s.b, Next(n, m).now)
  {
    hide Answered, Base, IsMret, Shape, Hart.WiresClear, Hart.Pushed, Board.After, Board.Inv, Handle;
    match m
    case Go(_) =>
    case Outside(w, e) =>
      Board.InvKept(n.s.b, w, e);
      Board.AfterTime(n.s.b, w, e);
    case Trapped(t) => TrapKeepsDevices(n.s, t);
    case Leave(t) => TrapKeepsDevices(n.s, t);
  }

  /** Every move keeps the invariant: handlers run in machine mode, the wires of mip are never stored, and
      the devices' lines and alarm are as they must be. */
  lemma InvKept(n: Nest, m: Move)
    requires Inv(n) && Allowed(n, m)
    ensures Inv(Next(n, m))
  {
    hide Base, GoesOn, Next, Shape, Allowed, Hart.WiresClear, Hart.Pc, Hart.Pushed, Hart.Gate, Hart.Others, Board.Inv;
    DevicesKept(n, m);
    match m
    case Go(_) => OutsideKeepsHart(n, m);
    case Outside(_, _) => OutsideKeepsHart(n, m);
    case Trapped(t) =>
      HasTrap(n, m);
      TrapGoesOn(n, m);
      ShapePushed(n.stack, Base(n.s, t));
    case Leave(t) =>
      HasTrap(n, m);
      LeaveRestores(n, m);
      ShapePopped(n.stack);
      ShapePushed(n.stack[..|n.stack| - 1], Base(n.s, t));
  }

  lemma OutsideKeepsHart(n: Nest, m: Move)
    requires Good(n) && Allowed(n, m) && (m.Go? || m.Outside?)
    ensures var u := Next(n, m);
      u.stack == n.stack && u.s.h.csr == n.s.h.csr && u.s.h.mip == n.s.h.mip && u.s.h.priv == n.s.h.priv
      && u.s.h.injections == n.s.h.injections
  {
    hide Board.After;
  }

  ghost predicate AllAllowed(n: Nest, ms: seq<Move>)
    requires Good(n)
    decreases |ms|
  {
    ms != [] ==> Allowed(n, ms[0]) && AllAllowed(Next(n, ms[0]), ms[1..])
  }

  ghost function Run(n: Nest, ms: seq<Move>): (u: Nest)
    requires Good(n) && AllAllowed(n, ms)
    ensures Good(u)
    decreases |ms|
  {
    if ms == [] then n else Run(Next(n, ms[0]), ms[1..])
  }

  lemma {:induction false} RunKeeps(n: Nest, ms: seq<Move>)
    requires Inv(n) && AllAllowed(n, ms)
    ensures Inv(Run(n, ms))
    decreases |ms|
  {
    hide Inv, Allowed, Next;
    InvIsGood(n);
    if ms != [] {
      InvKept(n, ms[0]);
      RunKeeps(Next(n, ms[0]), ms[1..]);
    }
  }

  /** The guest as the monitor starts it. */
  ghost predicate PoweredOn(n: Nest) {
    Ok(n.s) && n.stack == [] && n.s.h.mip == 0 && Board.PowerOn(n.s.b)
  }

  lemma StartInv(n: Nest)
    requires PoweredOn(n)
    ensures Inv(n)
  {
    hide Has, Board.PowerOn, Board.Inv;
    HasZero(Hart.MTIP);
    HasZero(Hart.MEIP);
    Board.PowerOnInv(n.s.b, n.now);
  }

  /** At every boundary of every run of traps from power-on: the wires of mip are never stored, a handler
      runs in machine mode, and the devices are as they must be. */
  lemma AlwaysSound(n: Nest, ms: seq<Move>)
    requires PoweredOn(n) && AllAllowed(n, ms)
    ensures var u := Run(n, ms);
      && !Has(u.s.h.mip, Hart.MTIP) && !Has(u.s.h.mip, Hart.MEIP)
      && (u.stack != [] ==> u.s.h.priv == Hart.PRIV_M)
  {
    hide Run, AllAllowed, Has, Shape, Board.Inv, PoweredOn;
    StartInv(n);
    RunKeeps(n, ms);
  }

  /** The console's interrupt is never lost, the block device's never spurious, and an armed timer is
      pending or has its alarm. */
  lemma DevicesOverRuns(n: Nest, ms: seq<Move>)
    requires PoweredOn(n) && AllAllowed(n, ms)
    ensures var u := Run(n, ms);
      var b := u.s.b;
      && (!Has(b.plic.claimed, 10) ==>
            (Has(b.plic.pending, 10) <==>
               (Uart.Any(b.uart.c.ier, 0x01) && !Uart.Empty(b.uart.rx)) || Uart.Any(b.uart.c.ier, 0x02)))
      && (Has(b.plic.pending, 11) ==> b.blk.interruptStatus != 0)
      && (b.clint.mtimecmp < 0x10_0000_0000_0000 ==>
            b.clint.mtimecmp <= u.now || (b.clint.alarm.on && b.clint.alarm.target == b.clint.mtimecmp))
  {
    hide Run, AllAllowed, Has, Shape, Uart.Any, PoweredOn, Hart.WiresClear;
    StartInv(n);
    RunKeeps(n, ms);
  }

  /** A wfi anywhere in a run, with the timer enabled and set, is answered within the latency of its
      deadline. */
  lemma WfiEndsInRun(n: Nest, ms: seq<Move>, t: Trap, end: nat, latency: nat)
    requires PoweredOn(n) && AllAllowed(n, ms) && OnTime(Run(n, ms), t) && t.cause == 2 && t.tval == Decode.WFI
    requires var s := Run(n, ms).s;
      && Has(s.h.csr.mie, Hart.MTIP) && s.b.clint.mtimecmp < Clint.NEVER
      && Prompt(s, t.w.now, t.moments, end, latency) && s.b.clint.mtimecmp <= end
    ensures var s := Run(n, ms).s;
      && Answered(s, t).1 == Returned(true)
      && (Handle(s, t).now == t.w.now || Handle(s, t).now <= s.b.clint.mtimecmp + latency)
  {
    hide Run, AllAllowed, Has, Shape, PoweredOn, Hart.WiresClear, Board.Inv, Prompt, Answered, Handle, Ordered, Plus;
    hide RunsOn, Interrupted;
    StartInv(n);
    RunKeeps(n, ms);
    WfiEnds(Run(n, ms).s, t, end, latency);
  }

  // ---- handlers return, whatever happens in them -------------------------------------------------------

  /** A return, if the move is one, goes back exactly to where the handler was entered from. */
  ghost predicate Exactly(n: Nest, m: Move) {
    m.Leave? && n.stack != [] && Hart.Ok(Top(n)) ==> n.s.h.csr.mepc == Hart.Pc(Top(n))
  }

  /** While the stack is at least `k` deep, the frames below the `k`-th are as they were; the `k`-th, if its
      handler returned and another was entered on the spot, was entered at the same level, and at the same
      place if the return was exact. */
  lemma StepKeepsFrames(n: Nest, m: Move, k: nat)
    requires Inv(n) && Allowed(n, m) && 1 <= k <= |n.stack| && k <= |Next(n, m).stack|
    ensures var u := Next(n, m);
      && u.stack[..k - 1] == n.stack[..k - 1] && SameLevel(u.stack[k - 1], n.stack[k - 1])
      && ((|n.stack| == k ==> Exactly(n, m)) ==> Hart.Pc(u.stack[k - 1]) == Hart.Pc(n.stack[k - 1]))
  {
    hide Next, Allowed, Base, Shape, Hart.WiresClear, Board.Inv, Hart.Pc, Hart.Gate, Hart.Others, GoesOn, Entered;
    match m
    case Go(_) => OutsideKeepsHart(n, m);
    case Outside(_, _) => OutsideKeepsHart(n, m);
    case Trapped(_) =>
      HasTrap(n, m);
      TrapGoesOn(n, m);
    case Leave(_) =>
      HasTrap(n, m);
      LeaveRestores(n, m);
  }

  ghost predicate Above(n: Nest, ms: seq<Move>, k: nat)
    requires Good(n) && AllAllowed(n, ms)
    decreases |ms|
  {
    k <= |n.stack| && (ms != [] ==> Above(Next(n, ms[0]), ms[1..], k))
  }

  /** Every return from the `k`-th handler is exact. */
  ghost predicate ExactAt(n: Nest, ms: seq<Move>, k: nat)
    requires Good(n) && AllAllowed(n, ms)
    decreases |ms|
  {
    ms != [] ==> (|n.stack| == k ==> Exactly(n, ms[0])) && ExactAt(Next(n, ms[0]), ms[1..], k)
  }

  lemma {:induction false} RunKeepsFrames(n: Nest, ms: seq<Move>, k: nat)
    requires Inv(n) && AllAllowed(n, ms) && Above(n, ms, k) && k >= 1
    ensures var u := Run(n, ms);
      && k <= |n.stack| && k <= |u.stack|
      && u.stack[..k - 1] == n.stack[..k - 1] && SameLevel(u.stack[k - 1], n.stack[k - 1])
      && (ExactAt(n, ms, k) ==> Hart.Pc(u.stack[k - 1]) == Hart.Pc(n.stack[k - 1]))
    decreases |ms|
  {
    hide Inv, Allowed, Next, Exactly, Hart.Gate, Hart.Others, Hart.Pc;
    InvIsGood(n);
    if ms != [] {
      InvKept(n, ms[0]);
      assert k <= |Next(n, ms[0]).stack|;
      StepKeepsFrames(n, ms[0], k);
      RunKeepsFrames(Next(n, ms[0]), ms[1..], k);
    }
  }

  /** Only a return makes the stack shorter. */
  lemma ShorterIsLeave(n: Nest, m: Move)
    requires Inv(n) && Allowed(n, m) && |Next(n, m).stack| < |n.stack|
    ensures var u := Next(n, m);
      m.Leave? && u.stack == n.stack[..|n.stack| - 1] && SameLevel(u.s.h, Top(n)) && Hart.Pc(u.s.h) == n.s.h.csr.mepc
  {
    hide Answered, Base, IsMret, Shape, Hart.WiresClear, Hart.Pushed, Board.After, Board.Possible, Board.Inv, Later;
    hide Hart.Pc, SameLevel, GoesOn, Entered;
    if m.Leave? { LeaveRestores(n, m); }
    if m.Trapped? { TrapGoesOn(n, m); }
  }

  /** A trap that enters a handler leaves it all it has to save, and the place it will return to, if it
      leaves mepc as it is, is where the guest has to go on. */
  lemma HandlerEntered(n: Nest, t: Trap)
    requires Inv(n) && Allowed(n, Trapped(t)) && |Next(n, Trapped(t)).stack| > |n.stack|
    ensures var u := Next(n, Trapped(t));
      && u.stack == n.stack + [Base(n.s, t)] && Hart.Pc(Base(n.s, t)) == GoesOn(n.s, t)
      && u.s.h.csr.mstatus == Saved(Top(u)) && u.s.h.csr.mepc == Hart.Pc(Top(u)) && u.s.h.priv == Hart.PRIV_M
  {
    hide Answered, Base, IsMret, Shape, Hart.WiresClear, Hart.Pushed, Hart.Pc, GoesOn, Board.Inv, Later;
    TrapGoesOn(n, Trapped(t));
  }

  /** However deep the handlers inside it nest, and however often others are entered where it returns to:
      when the run comes out of a handler, the guest is at the level and with the gate it had, at the mepc
      of the last return, and the handlers around it are as they were. If every return on the way went back
      to where its handler was entered from, that is where the trap had to go on. */
  lemma HandlerReturns(n: Nest, t: Trap, ms: seq<Move>, m: Move)
    requires Inv(n) && Allowed(n, Trapped(t)) && |Next(n, Trapped(t)).stack| > |n.stack|
    requires var e := Next(n, Trapped(t));
      AllAllowed(e, ms) && Above(e, ms, |n.stack| + 1)
      && Allowed(Run(e, ms), m) && |Next(Run(e, ms), m).stack| <= |n.stack|
    ensures
      var e, base := Next(n, Trapped(t)), Base(n.s, t);
      var last := Run(e, ms);
      var u := Next(last, m);
      && m.Leave? && u.stack == n.stack && SameLevel(u.s.h, base) && Hart.Pc(u.s.h) == last.s.h.csr.mepc
      && (ExactAt(e, ms, |n.stack| + 1) && Exactly(last, m) ==> Hart.Pc(u.s.h) == GoesOn(n.s, t))
  {
    hide Inv, Allowed, Next, Base, Run, AllAllowed, Above, ExactAt, GoesOn, Hart.Gate, Hart.Others, Hart.Pc;
    InvIsGood(n);
    var entered := Next(n, Trapped(t));
    HandlerEntered(n, t);
    InvKept(n, Trapped(t));
    RunKeeps(entered, ms);
    RunKeepsFrames(entered, ms, |n.stack| + 1);
    InvIsGood(Run(entered, ms));
    ShorterIsLeave(Run(entered, ms), m);
  }

  // ---- how a handler gets ready to return ----------------------------------------------------------------

  /** A step of a handler with its gate shut. */
  predicate Still(n: Nest, m: Move)
    requires Good(n)
  {
    m.Trapped? ==> Sized(m.t) && Quiet(n.s, m.t)
  }

  ghost predicate AllStill(n: Nest, ms: seq<Move>)
    requires Good(n) && AllAllowed(n, ms)
    decreases |ms|
  {
    ms != [] ==> !ms[0].Leave? && Still(n, ms[0]) && AllStill(Next(n, ms[0]), ms[1..])
  }

  predicate Spares(ms: seq<Move>, csr: bv12) {
    forall k :: 0 <= k < |ms| && ms[k].Trapped? ==> !Names(ms[k].t, csr)
  }

  /** A handler that stays with its gate shut is not interrupted, whatever is pending, and what it has put
      into mstatus and mepc stays until it names them again. */
  lemma StillKeeps(n: Nest, m: Move)
    requires Inv(n) && Allowed(n, m) && Still(n, m) && !m.Leave?
    ensures var u := Next(n, m);
      && u.stack == n.stack && u.s.h.injections == n.s.h.injections && u.s.h.priv == n.s.h.priv
      && (m.Trapped? ==> !Hart.Gate(u.s.h.csr.mstatus))
      && (Spares([m], MSTATUS) ==> u.s.h.csr.mstatus == n.s.h.csr.mstatus)
      && (Spares([m], MEPC) ==> u.s.h.csr.mepc == n.s.h.csr.mepc)
  {
    hide Answered, Base, Names, Quiet, IsMret, Shape, Hart.WiresClear, Board.After, Board.Possible, Board.Inv, Later;
    hide Hart.Gate;
    if m.Trapped? {
      assert Spares([m], MSTATUS) ==> !Names([m][0].t, MSTATUS);
      assert Spares([m], MEPC) ==> !Names([m][0].t, MEPC);
      QuietKeeps(n.s, m.t);
    }
  }

  lemma {:induction false} AllStillKeeps(n: Nest, ms: seq<Move>)
    requires Inv(n) && AllAllowed(n, ms) && AllStill(n, ms)
    ensures var u := Run(n, ms);
      && u.stack == n.stack && u.s.h.injections == n.s.h.injections && u.s.h.priv == n.s.h.priv
      && (Spares(ms, MSTATUS) ==> u.s.h.csr.mstatus == n.s.h.csr.mstatus)
      && (Spares(ms, MEPC) ==> u.s.h.csr.mepc == n.s.h.csr.mepc)
    decreases |ms|
  {
    hide Inv, Allowed, Next, Names, Still;
    InvIsGood(n);
    if ms != [] {
      StillKeeps(n, ms[0]);
      InvKept(n, ms[0]);
      AllStillKeeps(Next(n, ms[0]), ms[1..]);
    }
  }

  lemma {:induction false} RunSplits(n: Nest, ms: seq<Move>, k: nat)
    requires Good(n) && AllAllowed(n, ms) && k <= |ms|
    ensures AllAllowed(n, ms[..k]) && AllAllowed(Run(n, ms[..k]), ms[k..])
    ensures Run(n, ms) == Run(Run(n, ms[..k]), ms[k..])
    ensures AllStill(n, ms) ==> AllStill(n, ms[..k]) && AllStill(Run(n, ms[..k]), ms[k..])
    decreases k
  {
    hide Allowed, Next, Still;
    if k == 0 {
      assert ms[..0] == [] && ms[0..] == ms;
    } else {
      assert ms[..k][1..] == ms[1..][..k - 1] && ms[k..] == ms[1..][k - 1..];
      RunSplits(Next(n, ms[0]), ms[1..], k - 1);
    }
  }

  /** What a handler has to do before its mret, in whichever order and by whichever instructions: at some
      step mstatus is as the handler found it, and at some step mepc is `pc`; its gate is shut from the
      first of the two on, and neither is named again. Then it may return, to `pc`. */
  lemma ReadyToLeave(n: Nest, ms: seq<Move>, i: nat, j: nat, pc: bv32, t: Trap)
    requires Inv(n) && n.stack != [] && AllAllowed(n, ms) && AllStill(n, ms)
    requires i <= |ms| && j <= |ms| && AllAllowed(n, ms[..i]) && AllAllowed(n, ms[..j])
    requires Run(n, ms[..i]).s.h.csr.mstatus == Saved(Top(n)) && Spares(ms[i..], MSTATUS)
    requires Run(n, ms[..j]).s.h.csr.mepc == pc != 0 && Spares(ms[j..], MEPC)
    requires OnTime(Run(n, ms), t) && IsMret(t)
    ensures var u := Run(n, ms);
      && u.stack == n.stack && u.s.h.injections == n.s.h.injections
      && u.s.h.csr.mstatus == Saved(Top(n)) && u.s.h.csr.mepc == pc && Allowed(u, Leave(t))
  {
    hide Inv, Good, AllAllowed, AllStill, Run, Spares, Ordered, IsMret, Hart.Pushed;
    InvIsGood(n);
    AllStillKeeps(n, ms);
    RunSplits(n, ms, i);
    RunSplits(n, ms, j);
    RunKeeps(n, ms[..i]);
    RunKeeps(n, ms[..j]);
    AllStillKeeps(Run(n, ms[..i]), ms[i..]);
    AllStillKeeps(Run(n, ms[..j]), ms[j..]);
  }

  /** The csrrw that puts mstatus back, whatever the gate was before, and the one that puts mepc back with
      the gate shut, are such steps. */
  lemma PutBackIsStill(n: Nest, t: Trap, csr: bv12, rs1: bv5, rd: bv5, v: bv32)
    requires Inv(n) && n.stack != [] && OnTime(n, t) && Puts(n.s, t, csr, rs1, rd, v)
    requires (csr == MSTATUS && v == Saved(Top(n))) || (csr == MEPC && !Hart.Gate(n.s.h.csr.mstatus))
    ensures Allowed(n, Trapped(t)) && Still(n, Trapped(t))
    ensures var u := Next(n, Trapped(t));
      && u.stack == n.stack && !Hart.Gate(u.s.h.csr.mstatus)
      && (if csr == MSTATUS then u.s.h.csr.mstatus == v else u.s.h.csr.mepc == v)
  {
    hide Answered, Base, Puts, Quiet, IsMret, Shape, Hart.WiresClear, Hart.Pushed, Hart.Gate, Board.Inv, Later, Ordered;
    var base := Top(n);
    Hart.PushedGate(base.csr.mstatus, base.priv);
    PutKeeps(n.s, t, csr, rs1, rd, v);
    QuietKeeps(n.s, t);
  }

  /** Why mstatus goes back first: a handler that puts mepc back with its gate open loses it to an interrupt
      that is waiting. */
  lemma PcFirstIsLost(s: State, t: Trap, rs1: bv5, rd: bv5, v: bv32)
    requires Ok(s) && Sized(t) && Puts(s, t, MEPC, rs1, rd, v)
    requires Hart.Gate(s.h.csr.mstatus) && s.h.csr.mtvec != 0
    requires Hart.Wanted(s.h.csr, s.h.mip, Mtip(s.b, t.w.now), Meip(s.b)).Some?
    ensures Answered(s, t).0.h.csr.mepc == Plus(Hart.Pc(s.h), 4)
  {
    hide Handle, Deliver, Puts, Plus, Hart.Gate, Hart.Pc, Hart.Jump, Hart.Wanted, Hart.Cause, Mtip, Meip, Has;
    PutHandled(s, t, MEPC, rs1, rd, v);
    PutIsTrap(s, t, MEPC, rs1, rd, v);
    SameWanted(s.h.csr, v, s.h.mip, Mtip(s.b, t.w.now), Meip(s.b));
    var r := Handle(s, t);
    JumpKeeps(r.s.h, Plus(Hart.Pc(r.s.h), 4));
    DeliverTakes(r.s.(h := Hart.Jump(r.s.h, Plus(Hart.Pc(r.s.h), 4))), r.now);
  }

  lemma DeliverTakes(s: State, now: nat)
    requires Ok(s) && Hart.Gate(s.h.csr.mstatus) && s.h.csr.mtvec != 0
    requires Hart.Wanted(s.h.csr, s.h.mip, Mtip(s.b, now), Meip(s.b)).Some?
    ensures Deliver(s, now).h.csr.mepc == Hart.Pc(s.h)
  {
    hide Hart.Pushed, Hart.Vector, Hart.Gate, Hart.Wanted, Hart.Cause, Mtip, Meip;
  }

  lemma SameWanted(c: Hart.Shadow, v: bv32, mip: bv32, mtip: bool, meip: bool)
    ensures Hart.Wanted(c.(mepc := v), mip, mtip, meip) == Hart.Wanted(c, mip, mtip, meip)
  {
    hide Has;
  }
}
