/** The monitor's code: the shadow CSR bank, the trapped frame and the devices, changed in place. Every
    method does to them what Emulator says. */
module Monitor {
  import opened Bits
  import opened Emulator
  import Plic
  import Clint
  import BlkRegs
  import Board
  import Hart
  import Decode

  class Hypervisor {
    var csr: Hart.Shadow
    var mip: bv32
    var priv: bv2
    const pmpcfg: array<bv32>
    const pmpaddr: array<bv32>
    const frame: array<bv32>
    var injections: nat
    const dev: Board.Devices

    ghost predicate Valid()
      reads this, dev, dev.plic, dev.uart
    {
      && dev.Valid() && this !in dev.Repr
      && pmpcfg !in dev.Repr && pmpaddr !in dev.Repr && frame !in dev.Repr
      && frame.Length == 32 && pmpcfg.Length == 4 && pmpaddr.Length == 16
      && frame != pmpcfg && frame != pmpaddr && pmpcfg != pmpaddr
    }

    ghost function Guest(): (h: Hart.State)
      requires frame.Length == 32 && pmpcfg.Length == 4 && pmpaddr.Length == 16
      reads this, frame, pmpcfg, pmpaddr
      ensures Hart.Ok(h)
    {
      Hart.State(csr, mip, priv, pmpcfg[..], pmpaddr[..], frame[..], injections)
    }

    ghost function View(): (s: State)
      requires Valid()
      reads this, frame, pmpcfg, pmpaddr, dev, dev.plic, dev.uart, dev.Repr
      ensures Ok(s)
    {
      State(Guest(), dev.View())
    }

    constructor ()
      ensures Valid() && fresh(dev.Repr) && fresh(frame) && fresh(pmpcfg) && fresh(pmpaddr)
      ensures Board.PowerOn(View().b) && mip == 0 && priv == Hart.PRIV_M && injections == 0
    {
      csr := Hart.Shadow(0x1800, 0, 0, 0, 0, 0, 0);
      mip, priv, injections := 0, Hart.PRIV_M, 0;
      pmpcfg := new bv32[4](_ => 0);
      pmpaddr := new bv32[16](_ => 0);
      frame := new bv32[32](_ => 0);
      dev := new Board.Devices();
    }

    // ---- registers ---------------------------------------------------------------------------------

    method ReadReg(r: bv5) returns (v: bv32)
      requires Valid()
      ensures v == X(Guest(), r)
    {
      hide RegIndex;
      v := if r != 0 then frame[RegIndex(r)] else 0;
    }

    method WriteReg(r: bv5, v: bv32)
      requires Valid()
      modifies frame
      ensures Guest() == RegWrite(old(Guest()), r, v)
    {
      hide RegIndex;
      if r != 0 { frame[RegIndex(r)] := v; }
    }

    // ---- interrupts --------------------------------------------------------------------------------

    method MeipPending() returns (p: bool)
      requires Valid()
      ensures p == Meip(View().b)
    {
      hide Plic.Peek;
      var best := dev.plic.PlicPeek();
      p := best != 0;
    }

    /** hyp_inject */
    method Inject(cause: bv32, tval: bv32)
      requires Valid()
      modifies `csr, `priv, `injections, frame
      ensures Guest() == Hart.Inject(old(Guest()), cause, tval)
    {
      hide Hart.Pushed, Hart.Vector;
      csr := csr.(mstatus := Hart.Pushed(csr.mstatus, priv), mepc := frame[0], mcause := cause, mtval := tval);
      priv := Hart.PRIV_M;
      frame[0] := Hart.Vector(csr.mtvec);
      injections := injections + 1;
    }

    /** hyp_pending_cause, without its gate; hyp_wfi_wake asks whether there is one. */
    method PendingCause(now: nat) returns (cause: Hart.Option<Index>)
      requires Valid()
      ensures cause == Hart.Wanted(csr, mip, Mtip(View().b, now), Meip(View().b))
    {
      hide Has, Plic.Peek, Hart.Wanted, Hart.First, Hart.MipRead;
      var meip := MeipPending();
      cause := Pick(meip, Clint.MtipPending(dev.clint, now));
      Hart.DeliverAgrees(csr, mip, Mtip(View().b, now), Meip(View().b));
    }

    /** The tests go by the wires and by what is stored; the choice is the standard's on mip as it reads. */
    method Pick(meip: bool, mtip: bool) returns (cause: Hart.Option<Index>)
      ensures cause == Hart.First(Hart.MipRead(mip, mtip, meip), csr.mie)
    {
      hide Has, Hart.First, Hart.MipRead;
      Hart.DeliverAgrees(csr, mip, mtip, meip);
      if Has(csr.mie, Hart.MEIP) && meip { return Hart.Some(11); }
      if Has(csr.mie, Hart.MSIP) && Has(mip, Hart.MSIP) { return Hart.Some(3); }
      if Has(csr.mie, Hart.MTIP) && mtip { return Hart.Some(7); }
      return Hart.None;
    }

    /** hyp_deliver_pending */
    method DeliverPending(now: nat)
      requires Valid()
      modifies `csr, `priv, `injections, frame
      ensures Valid() && View() == Deliver(old(View()), now)
    {
      hide Hart.Wanted, Hart.Gate, Hart.Inject, Hart.Cause, Mtip, Meip;
      if !Hart.Gate(csr.mstatus) { return; }
      var cause := PendingCause(now);
      if cause.None? || csr.mtvec == 0 { return; }
      Inject(Hart.Cause(cause.value), 0);
    }

    // ---- CSR instructions --------------------------------------------------------------------------

    /** hypervisor_mret */
    method Mret() returns (ok: bool)
      requires Valid()
      modifies `csr, `priv, frame
      ensures (Guest(), ok) == Hart.Mret(old(Guest()))
    {
      hide Hart.Popped, Hart.Previous;
      var status := csr.mstatus;
      priv := Hart.Previous(status);
      csr := csr.(mstatus := Hart.Popped(status));
      if csr.mepc == 0 { return false; }
      frame[0] := csr.mepc;
      return true;
    }

    /** hyp_wfi_wake */
    method ShouldWake(now: nat) returns (wake: bool)
      requires Valid()
      ensures wake == WfiWake(View(), now)
    {
      hide Has, Hart.Wanted, Mtip, Meip;
      var cause := PendingCause(now);
      wake := cause.Some?;
    }

    /** hypervisor_wfi, given what each wake-up brings; false while it would still be asleep. */
    method DoWfi(now0: nat, moments: seq<Moment>) returns (now: nat, awake: bool)
      requires Valid()
      modifies dev`clint, dev`blk, dev.plic, dev.uart, dev.uart.ring
      ensures Valid() && (View(), now, awake) == Wfi(old(View()), now0, moments)
    {
      hide Has, Wait;
      var timerArmed := Has(csr.mie, Hart.MTIP) && dev.clint.mtimecmp < Clint.NEVER;
      var extArmed := Has(csr.mie, Hart.MEIP);
      if !timerArmed && !extArmed { return now0, true; }
      now, awake := WaitLoop(now0, moments);
    }

    method WaitLoop(now0: nat, moments: seq<Moment>) returns (now: nat, awake: bool)
      requires Valid()
      modifies dev`clint, dev`blk, dev.plic, dev.uart, dev.uart.ring
      ensures Valid() && (View(), now, awake) == Wait(old(View()), now0, moments)
    {
      hide WfiWake, Board.Poll, Clint.Fire, View;
      now := now0;
      var k: nat := 0;
      while true
        invariant Valid() && k <= |moments|
        invariant Wait(old(View()), now0, moments) == Wait(View(), now, moments[k..])
        decreases |moments| - k
      {
        var wake := ShouldWake(now);
        if wake { return now, true; }
        if k == |moments| { return now, false; }
        var m := moments[k];
        assert moments[k..][0] == m && moments[k..][1..] == moments[k + 1..];
        WakeUp(m);
        now, k := m.now, k + 1;
      }
    }

    /** The core wakes: the alarm has gone off if its time has come, and the devices are polled. */
    method WakeUp(m: Moment)
      requires Valid()
      modifies dev`clint, dev`blk, dev.plic, dev.uart, dev.uart.ring
      ensures Valid()
      ensures var s := old(View());
        View() == s.(b := Board.Poll(s.b.(clint := Clint.Fire(s.b.clint, m.now)), m.input))
    {
      hide Board.Poll, Clint.Fire;
      dev.clint := Clint.Fire(dev.clint, m.now);
      dev.PollHostDevices(m.input);
    }

    method LoadCsr(slot: Hart.Slot) returns (v: bv32)
      requires Valid() && Hart.SlotOk(slot)
      ensures v == Hart.Load(Guest(), slot)
    {
      match slot
      case Mstatus => v := csr.mstatus;
      case Mie => v := csr.mie;
      case Mtvec => v := csr.mtvec;
      case Mscratch => v := csr.mscratch;
      case Mepc => v := csr.mepc;
      case Mcause => v := csr.mcause;
      case Mtval => v := csr.mtval;
      case Pmpcfg(i) => v := pmpcfg[i];
      case Pmpaddr(i) => v := pmpaddr[i];
    }

    method StoreCsr(slot: Hart.Slot, v: bv32)
      requires Valid() && Hart.SlotOk(slot)
      modifies `csr, pmpcfg, pmpaddr
      ensures Guest() == Hart.Store(old(Guest()), slot, v)
    {
      match slot
      case Mstatus => csr := csr.(mstatus := v);
      case Mie => csr := csr.(mie := v);
      case Mtvec => csr := csr.(mtvec := v);
      case Mscratch => csr := csr.(mscratch := v);
      case Mepc => csr := csr.(mepc := v);
      case Mcause => csr := csr.(mcause := v);
      case Mtval => csr := csr.(mtval := v);
      case Pmpcfg(i) => pmpcfg[i] := v;
      case Pmpaddr(i) => pmpaddr[i] := v;
    }

    /** The CSR access of hypervisor_csr; false for a CSR the monitor does not know. */
    method AccessCsr(now: nat, number: nat, op: Op, src: bv32, rs1: bv5, rd: bv5) returns (known: bool)
      requires Valid()
      modifies `csr, `mip, frame, pmpcfg, pmpaddr
      ensures Valid()
      ensures var r := CsrOp(old(View()), now, number, op, src, rs1, rd);
        if known then r == Hart.Some(View()) else r == Hart.None && View() == old(View())
    {
      hide RegWrite, Updated, Writes, Mtip, Meip, Hart.MipRead, Hart.Stored, Hart.Load, Hart.Store, Hart.ShadowSlot;
      var slot := Hart.ShadowSlot(number);
      if number == Hart.CSR_MIP {
        AccessMip(now, op, src, rs1, rd);
      } else if slot.Some? {
        AccessSlot(slot.value, op, src, rs1, rd);
      } else if Hart.ReadOnlyZero(number) {
        WriteReg(rd, 0);
      } else {
        return false;
      }
      known := true;
    }

    method AccessMip(now: nat, op: Op, src: bv32, rs1: bv5, rd: bv5)
      requires Valid()
      modifies `mip, frame
      ensures Valid() && CsrOp(old(View()), now, Hart.CSR_MIP, op, src, rs1, rd) == Hart.Some(View())
    {
      hide RegWrite, Updated, Writes, Mtip, Meip, Hart.MipRead, Hart.Stored, Hart.ShadowSlot;
      var meip := MeipPending();
      var was := Hart.MipRead(mip, ClintWire(now), meip);
      if Writes(op, rs1) { mip := Hart.Stored(Updated(op, was, src)); }
      WriteReg(rd, was);
    }

    method AccessSlot(slot: Hart.Slot, op: Op, src: bv32, rs1: bv5, rd: bv5)
      requires Valid() && Hart.SlotOk(slot)
      modifies `csr, frame, pmpcfg, pmpaddr
      ensures Valid()
      ensures var s := old(View());
        var was := Hart.Load(s.h, slot);
        var h := if Writes(op, rs1) then Hart.Store(s.h, slot, Updated(op, was, src)) else s.h;
        View() == s.(h := RegWrite(h, rd, was))
    {
      hide RegWrite, Updated, Writes, Hart.Load, Hart.Store;
      var was := LoadCsr(slot);
      if Writes(op, rs1) { StoreCsr(slot, Updated(op, was, src)); }
      WriteReg(rd, was);
    }

    function ClintWire(now: nat): (p: bool)
      requires Valid()
      reads this, frame, pmpcfg, pmpaddr, dev, dev.plic, dev.uart, dev.Repr
      ensures p == Mtip(View().b, now)
    {
      Clint.MtipPending(dev.clint, now)
    }

    /** hypervisor_csr */
    method HypervisorCsr(t: Trap) returns (now: nat, outcome: Outcome)
      requires Valid()
      modifies this, frame, pmpcfg, pmpaddr, dev`clint, dev`blk, dev.plic, dev.uart, dev.uart.ring
      ensures Valid() && Handled(View(), now, outcome) == CsrTrap(old(View()), t)
    {
      hide Decode.Opcode, Decode.Funct3, Decode.Rs1, Decode.Rd, Decode.CsrField, Decode.Is32Bit;
      hide OpOf, Immediate5, Immediate, CsrOp, CsrNumber, Hart.Mret, Wfi, X;
      now := t.w.now;
      var w := t.tval;
      if Decode.Opcode(w) != 0x73 { return now, Unhandled; }
      var funct3 := Decode.Funct3(w);
      if funct3 == 0 {
        if w == Decode.MRET {
          var ok := Mret();
          return now, if ok then Resume else Unhandled;
        } else if w == Decode.WFI {
          var later, awake := DoWfi(now, t.moments);
          return later, if awake then Advance(Length(w)) else Asleep;
        } else {
          return now, Unhandled;
        }
      }
      if funct3 == 4 { return now, Unhandled; }
      var rs1 := Decode.Rs1(w);
      var value := ReadReg(rs1);
      var src := if Immediate(funct3) then Immediate5(rs1) else value;
      var known := AccessCsr(now, CsrNumber(Decode.CsrField(w)), OpOf(funct3), src, rs1, Decode.Rd(w));
      outcome := if known then Advance(Length(w)) else Unhandled;
    }

    // ---- device accesses ---------------------------------------------------------------------------

    method LoadDevice(w: Board.World, d: Board.Device, offset: nat, funct3: bv3, rd: bv5)
      requires Valid() && BlkRegs.Sized(w.card)
      modifies frame, dev.plic, dev.uart
      ensures Valid() && View() == LoadFrom(old(View()), w, d, offset, funct3, rd)
    {
      hide Width, Extended, RegWrite, Board.Read;
      var v := dev.ReadDevice(w, d, offset, Width(funct3, false));
      WriteReg(rd, Extended(funct3, v));
    }

    method StoreDevice(w: Board.World, d: Board.Device, offset: nat, funct3: bv3, rs2: bv5)
      requires Valid()
      modifies dev`clint, dev`blk, dev.plic, dev.plic.priority, dev.uart, dev.uart.ring
      ensures Valid() && View() == StoreTo(old(View()), w, d, offset, funct3, rs2)
    {
      hide Width, X, Board.Write;
      var src := ReadReg(rs2);
      dev.WriteDevice(w, d, offset, src, Width(funct3, true));
    }

    /** hypervisor_mmio, for an address in a window. */
    method HypervisorMmio(t: Trap, window: Board.Window) returns (outcome: Outcome)
      requires Valid() && Sized(t) && window.base <= Num(t.tval)
      modifies frame, dev`clint, dev`blk, dev.plic, dev.plic.priority, dev.uart, dev.uart.ring
      ensures Valid() && Handled(View(), t.w.now, outcome) == MmioTrap(old(View()), t, window)
    {
      hide Decode.Fetch, Decode.IsAccess, Decode.IsStore, Decode.Funct3, Decode.Rd, Decode.Rs2;
      hide Num, Width, LoadFrom, StoreTo;
      var f := Decode.Fetch(t.low, t.high);
      if f.Undecodable? { return Unhandled; }
      var w := f.encoding;
      if !Decode.IsAccess(w) { return Unhandled; }
      var store, f3 := Decode.IsStore(w), Decode.Funct3(w);
      if Width(f3, store) == 0 { return Unhandled; }
      var offset := Num(t.tval) - window.base;
      if store {
        StoreDevice(t.w, window.device, offset, f3, Decode.Rs2(w));
      } else {
        LoadDevice(t.w, window.device, offset, f3, Decode.Rd(w));
      }
      outcome := Advance(f.length);
    }

    // ---- the trap ----------------------------------------------------------------------------------

    method ReflectTrap(t: Trap, cause: bv32, tval: bv32) returns (outcome: Outcome)
      requires Valid()
      modifies `csr, `priv, `injections, frame
      ensures Valid() && Handled(View(), t.w.now, outcome) == Reflect(old(View()), t, cause, tval)
    {
      hide Hart.Inject;
      if csr.mtvec == 0 { return Unhandled; }
      Inject(cause, tval);
      return Resume;
    }

    /** hypervisor_trap */
    method HypervisorTrap(t: Trap) returns (now: nat, outcome: Outcome)
      requires Valid() && Sized(t)
      modifies this, frame, pmpcfg, pmpaddr, dev`clint, dev`blk, dev.plic, dev.plic.priority, dev.uart, dev.uart.ring
      ensures Valid() && Handled(View(), now, outcome) == Handle(old(View()), t)
    {
      hide CsrTrap, MmioTrap, Reflect, Num, Board.Find;
      now := t.w.now;
      if t.cause == 2 {
        now, outcome := HypervisorCsr(t);
      } else if t.cause == 3 {
        outcome := ReflectTrap(t, 3, frame[0]);
      } else if t.cause == 5 || t.cause == 7 {
        var found := Board.MmioFind(Num(t.tval));
        FindHolds(Num(t.tval));
        if found.Some? {
          outcome := HypervisorMmio(t, found.value);
        } else {
          outcome := ReflectTrap(t, t.cause, t.tval);
        }
      } else if t.cause == 8 {
        outcome := ReflectTrap(t, 8, 0);
      } else {
        outcome := Unhandled;
      }
    }

    /** hypervisor */
    method OnTrap(t: Trap) returns (answer: Answer)
      requires Valid() && Sized(t)
      modifies this, frame, pmpcfg, pmpaddr, dev`clint, dev`blk, dev.plic, dev.plic.priority, dev.uart, dev.uart.ring
      ensures Valid() && (View(), answer) == Answered(old(View()), t)
    {
      hide Handle, Deliver, Plus, IsInterrupt, Board.Poll;
      if IsInterrupt(t.cause) {
        dev.PollHostDevices(t.input);
        DeliverPending(t.w.now);
        return Returned(true);
      }
      var now, outcome := HypervisorTrap(t);
      match outcome {
        case Advance(length) => frame[0] := Plus(frame[0], length);
        case Resume =>
        case Unhandled => return Returned(false);
        case Asleep => return Sleeping;
      }
      DeliverPending(now);
      answer := Returned(true);
    }
  }
}
