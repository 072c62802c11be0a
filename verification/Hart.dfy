/** The guest's machine-mode state as the monitor keeps it (main/hyp_csr.c, main/hyp_intr.c): the shadow
    CSR bank, the software privilege level, the trapped register frame; and the two events that move
    privilege, an injected trap and mret. */
module Hart {
  import opened Bits

  datatype Shadow = Shadow(mstatus: bv32, mie: bv32, mtvec: bv32, mscratch: bv32,
                           mepc: bv32, mcause: bv32, mtval: bv32)

  /** `frame` is the register frame of the trap: mepc at 0, then x1 to x31. */
  datatype State = State(csr: Shadow, mip: bv32, priv: bv2, pmpcfg: seq<bv32>, pmpaddr: seq<bv32>,
                         frame: seq<bv32>, injections: nat)

  predicate Ok(h: State) {
    |h.frame| == 32 && |h.pmpcfg| == 4 && |h.pmpaddr| == 16
  }

  const PRIV_U: bv2 := 0
  const PRIV_M: bv2 := 3

  const MSIP: Index := 3
  const MTIP: Index := 7
  const MEIP: Index := 11

  // ---- mstatus -------------------------------------------------------------------------------------

  /** The global interrupt gate. */
  predicate Gate(status: bv32) {
    status & 0x8 != 0
  }

  /** MPP. */
  function Previous(status: bv32): bv2 {
    ((status & 0x1800) >> 11) as bv2
  }

  /** mstatus after a trap is taken at level `priv`. */
  function Pushed(status: bv32, priv: bv2): bv32 {
    var a := (status & !0x80) | (if Gate(status) then 0x80 else 0);
    var b := a & !0x8;
    (b & !0x1800) | ((priv as bv32) << 11)
  }

  /** mstatus after mret. */
  function Popped(status: bv32): bv32 {
    var a := (status & !0x8) | (if status & 0x80 != 0 then 0x8 else 0);
    var b := a | 0x80;
    b & !0x1800
  }

  /** Everything but MIE, MPIE and MPP. */
  function Others(status: bv32): bv32 {
    status & !0x1888
  }

  function Stacked(status: bv32): bv32 {
    status & 0x1880
  }

  lemma PushedGate(status: bv32, priv: bv2)
    ensures !Gate(Pushed(status, priv))
  {
  }

  lemma PushedPrevious(status: bv32, priv: bv2)
    ensures Previous(Pushed(status, priv)) == priv
  {
  }

  lemma PoppedGate(status: bv32, priv: bv2)
    ensures Gate(Popped(Pushed(status, priv))) == Gate(status)
  {
  }

  lemma PoppedOthers(status: bv32, priv: bv2)
    ensures Others(Popped(Pushed(status, priv))) == Others(status)
  {
  }

  lemma PoppedStack(status: bv32)
    ensures Stacked(Popped(status)) == 0x80
  {
  }

  /** mstatus as a trap leaves it, bit by bit: MPIE is the old MIE, MIE is clear, MPP is the old level, and
      no other bit changes (section 3.1.6.1 of the privileged architecture). */
  lemma TrapBits(status: bv32, priv: bv2)
    ensures Pushed(status, priv) & 0x0000_0008 == 0
    ensures Pushed(status, priv) & 0x0000_0080 != 0 <==> status & 0x0000_0008 != 0
    ensures (Pushed(status, priv) >> 11) & 0x3 == priv as bv32
    ensures Pushed(status, priv) & 0xFFFF_E777 == status & 0xFFFF_E777
  {
  }

  /** ... and as mret leaves it: MIE is the old MPIE, MPIE is set, MPP is user mode. */
  lemma ReturnBits(status: bv32)
    ensures Popped(status) & 0x0000_0008 != 0 <==> status & 0x0000_0080 != 0
    ensures Popped(status) & 0x0000_0080 != 0 && (Popped(status) >> 11) & 0x3 == 0
    ensures Popped(status) & 0xFFFF_E777 == status & 0xFFFF_E777
  {
  }

  // ---- injection and return ------------------------------------------------------------------------

  function Vector(mtvec: bv32): bv32 {
    mtvec & !0x3
  }

  function Pc(h: State): bv32
    requires Ok(h)
  {
    h.frame[0]
  }

  function Jump(h: State, pc: bv32): (t: State)
    requires Ok(h)
    ensures Ok(t)
  {
    h.(frame := h.frame[0 := pc])
  }

  /** hyp_inject */
  function Inject(h: State, cause: bv32, tval: bv32): (t: State)
    requires Ok(h)
    ensures Ok(t)
  {
    var c := h.csr.(mstatus := Pushed(h.csr.mstatus, h.priv), mepc := Pc(h), mcause := cause, mtval := tval);
    Jump(h.(csr := c, priv := PRIV_M, injections := h.injections + 1), Vector(h.csr.mtvec))
  }

  /** hypervisor_mret; false when there is nothing to return to. */
  function Mret(h: State): (r: (State, bool))
    requires Ok(h)
    ensures Ok(r.0)
  {
    var t := h.(priv := Previous(h.csr.mstatus), csr := h.csr.(mstatus := Popped(h.csr.mstatus)));
    if h.csr.mepc == 0 then (t, false) else (Jump(t, h.csr.mepc), true)
  }

  /** mret goes to mepc at the level in MPP, with mstatus popped; it fails exactly when mepc is 0, with the
      pc where it was. */
  lemma MretMeans(h: State)
    requires Ok(h)
    ensures var (t, ok) := Mret(h);
      && (ok <==> h.csr.mepc != 0) && Pc(t) == (if ok then h.csr.mepc else Pc(h))
      && t.priv as bv32 == (h.csr.mstatus >> 11) & 0x3
      && t == h.(csr := h.csr.(mstatus := Popped(h.csr.mstatus)), priv := t.priv, frame := h.frame[0 := Pc(t)])
  {
    hide Popped, Previous;
    LevelIn(h.csr.mstatus);
  }

  lemma LevelIn(status: bv32)
    ensures Previous(status) as bv32 == (status >> 11) & 0x3
  {
  }

  /** A handler that puts back the mstatus and the nonzero mepc it was entered with, and returns: the
      guest is where it was, at the level and with the gate it had, and of mstatus only the stacked
      fields have moved. */
  lemma MretUndoesInject(h: State, cause: bv32, tval: bv32, t: State)
    requires Ok(h) && Ok(t) && Pc(h) != 0
    requires var e := Inject(h, cause, tval); t.csr.mstatus == e.csr.mstatus && t.csr.mepc == e.csr.mepc
    ensures var (r, ok) := Mret(t);
      && ok && Pc(r) == Pc(h) && r.priv == h.priv
      && Gate(r.csr.mstatus) == Gate(h.csr.mstatus)
      && Others(r.csr.mstatus) == Others(h.csr.mstatus)
      && Stacked(r.csr.mstatus) == 0x80
  {
    hide Pushed, Popped, Gate, Others, Stacked, Previous, Vector;
    PushedPrevious(h.csr.mstatus, h.priv);
    PoppedGate(h.csr.mstatus, h.priv);
    PoppedOthers(h.csr.mstatus, h.priv);
    PoppedStack(Pushed(h.csr.mstatus, h.priv));
  }

  // ---- the CSR bank --------------------------------------------------------------------------------

  datatype Slot = Mstatus | Mie | Mtvec | Mscratch | Mepc | Mcause | Mtval | Pmpcfg(i: nat) | Pmpaddr(i: nat)

  datatype Option<T> = None | Some(value: T)

  const CSR_MIP: nat := 0x344

  predicate SlotOk(s: Slot) {
    match s
    case Pmpcfg(i) => i < 4
    case Pmpaddr(i) => i < 16
    case _ => true
  }

  /** shadow_slot */
  function ShadowSlot(csr: nat): (s: Option<Slot>)
    ensures s.Some? ==> SlotOk(s.value)
  {
    match csr
    case 0x300 => Some(Mstatus)
    case 0x304 => Some(Mie)
    case 0x305 => Some(Mtvec)
    case 0x340 => Some(Mscratch)
    case 0x341 => Some(Mepc)
    case 0x342 => Some(Mcause)
    case 0x343 => Some(Mtval)
    case _ =>
      if 0x3a0 <= csr <= 0x3a3 then Some(Pmpcfg(csr - 0x3a0))
      else if 0x3b0 <= csr <= 0x3bf then Some(Pmpaddr(csr - 0x3b0))
      else None
  }

  predicate ReadOnlyZero(csr: nat) {
    csr == 0x001 || csr == 0x002 || csr == 0x003 || csr == 0x301
    || csr == 0xf11 || csr == 0xf12 || csr == 0xf13 || csr == 0xf14
  }

  function Load(h: State, s: Slot): bv32
    requires Ok(h) && SlotOk(s)
  {
    match s
    case Mstatus => h.csr.mstatus
    case Mie => h.csr.mie
    case Mtvec => h.csr.mtvec
    case Mscratch => h.csr.mscratch
    case Mepc => h.csr.mepc
    case Mcause => h.csr.mcause
    case Mtval => h.csr.mtval
    case Pmpcfg(i) => h.pmpcfg[i]
    case Pmpaddr(i) => h.pmpaddr[i]
  }

  function Store(h: State, s: Slot, v: bv32): (t: State)
    requires Ok(h) && SlotOk(s)
    ensures Ok(t)
  {
    match s
    case Mstatus => h.(csr := h.csr.(mstatus := v))
    case Mie => h.(csr := h.csr.(mie := v))
    case Mtvec => h.(csr := h.csr.(mtvec := v))
    case Mscratch => h.(csr := h.csr.(mscratch := v))
    case Mepc => h.(csr := h.csr.(mepc := v))
    case Mcause => h.(csr := h.csr.(mcause := v))
    case Mtval => h.(csr := h.csr.(mtval := v))
    case Pmpcfg(i) => h.(pmpcfg := h.pmpcfg[i := v])
    case Pmpaddr(i) => h.(pmpaddr := h.pmpaddr[i := v])
  }

  /** The CSRs by their numbers in the privileged architecture. */
  lemma CsrNumbers(h: State, i: nat)
    requires Ok(h)
    ensures ShadowSlot(0x300).Some? && Load(h, ShadowSlot(0x300).value) == h.csr.mstatus
    ensures ShadowSlot(0x304).Some? && Load(h, ShadowSlot(0x304).value) == h.csr.mie
    ensures ShadowSlot(0x305).Some? && Load(h, ShadowSlot(0x305).value) == h.csr.mtvec
    ensures ShadowSlot(0x340).Some? && Load(h, ShadowSlot(0x340).value) == h.csr.mscratch
    ensures ShadowSlot(0x341).Some? && Load(h, ShadowSlot(0x341).value) == h.csr.mepc
    ensures ShadowSlot(0x342).Some? && Load(h, ShadowSlot(0x342).value) == h.csr.mcause
    ensures ShadowSlot(0x343).Some? && Load(h, ShadowSlot(0x343).value) == h.csr.mtval
    ensures i < 4 ==> ShadowSlot(0x3A0 + i).Some? && Load(h, ShadowSlot(0x3A0 + i).value) == h.pmpcfg[i]
    ensures i < 16 ==> ShadowSlot(0x3B0 + i).Some? && Load(h, ShadowSlot(0x3B0 + i).value) == h.pmpaddr[i]
  {
  }

  /** What is written is read back, in that CSR and no other. */
  lemma LoadStore(h: State, s: Slot, v: bv32, q: Slot)
    requires Ok(h) && SlotOk(s) && SlotOk(q)
    ensures Load(Store(h, s, v), q) == if q == s then v else Load(h, q)
  {
  }

  /** CSR numbers name distinct slots. */
  lemma SlotsDistinct(a: nat, b: nat)
    requires a != b && ShadowSlot(a).Some? && ShadowSlot(b).Some?
    ensures ShadowSlot(a) != ShadowSlot(b)
  {
  }

  // ---- mip -----------------------------------------------------------------------------------------

  /** Bits 7 and 11 are wires: never stored. */
  function Stored(mip: bv32): bv32 {
    Clear(Clear(mip, MTIP), MEIP)
  }

  /** shadow_mip_read */
  function MipRead(mip: bv32, mtip: bool, meip: bool): bv32 {
    var a := Stored(mip);
    var b := if mtip then Set(a, MTIP) else a;
    if meip then Set(b, MEIP) else b
  }

  predicate WiresClear(mip: bv32) {
    !Has(mip, MTIP) && !Has(mip, MEIP)
  }

  lemma StoredIsClear(mip: bv32, n: Index)
    ensures Has(Stored(mip), n) <==> Has(mip, n) && n != MTIP && n != MEIP
  {
    hide Has, Clear;
    HasClear(Clear(mip, MTIP), MEIP, n);
    HasClear(mip, MTIP, n);
  }

  /** mip as the guest reads it: the two wires as they are now, the rest as stored. */
  lemma MipBits(mip: bv32, mtip: bool, meip: bool, n: Index)
    ensures Has(MipRead(mip, mtip, meip), n) <==>
              if n == MTIP then mtip else if n == MEIP then meip else Has(mip, n)
  {
    hide Has, Set, Stored;
    var a := Stored(mip);
    StoredIsClear(mip, n);
    HasSet(a, MTIP, n);
    HasSet(if mtip then Set(a, MTIP) else a, MEIP, n);
  }

  // ---- delivery ------------------------------------------------------------------------------------

  /** hyp_pending_cause without the gate: what would wake a wfi. */
  function Wanted(c: Shadow, mip: bv32, mtip: bool, meip: bool): Option<Index> {
    if Has(c.mie, MEIP) && meip then Some(11)
    else if Has(c.mie, MSIP) && Has(mip, MSIP) then Some(3)
    else if Has(c.mie, MTIP) && mtip then Some(7)
    else None
  }

  function Cause(n: Index): bv32 {
    0x8000_0000 | ((n as bv5) as bv32)
  }

  /** hyp_deliver_pending */
  function Deliver(h: State, mtip: bool, meip: bool): (t: State)
    requires Ok(h)
    ensures Ok(t)
  {
    var want := Wanted(h.csr, h.mip, mtip, meip);
    if !Gate(h.csr.mstatus) || want.None? || h.csr.mtvec == 0 then h
    else Inject(h, Cause(want.value), 0)
  }

  /** The interrupt that section 3.1.9 of the RISC-V privileged architecture chooses among those set in both
      mip and mie. */
  function First(mip: bv32, mie: bv32): Option<Index> {
    if Has(mip, MEIP) && Has(mie, MEIP) then Some(11)
    else if Has(mip, MSIP) && Has(mie, MSIP) then Some(3)
    else if Has(mip, MTIP) && Has(mie, MTIP) then Some(7)
    else None
  }

  /** The interrupt chosen is the standard's, among those pending and enabled as the guest reads them. */
  lemma DeliverAgrees(c: Shadow, mip: bv32, mtip: bool, meip: bool)
    ensures Wanted(c, mip, mtip, meip) == First(MipRead(mip, mtip, meip), c.mie)
  {
    hide Has, MipRead;
    MipBits(mip, mtip, meip, MEIP);
    MipBits(mip, mtip, meip, MSIP);
    MipBits(mip, mtip, meip, MTIP);
  }

  /** Delivery as section 3.1.9 has it: below machine mode the gate does not count. (A guest without a
      vector has nowhere to go, here as in the code.) */
  function Standard(h: State, mtip: bool, meip: bool): (t: State)
    requires Ok(h)
    ensures Ok(t)
  {
    var want := First(MipRead(h.mip, mtip, meip), h.csr.mie);
    if (h.priv == PRIV_M && !Gate(h.csr.mstatus)) || want.None? || h.csr.mtvec == 0 then h
    else Inject(h, Cause(want.value), 0)
  }

  /** The code delivers as the standard does in machine mode and whenever the gate is open; below machine
      mode with the gate shut, an interrupt that should be taken at once waits. */
  lemma StandardExactly(h: State, mtip: bool, meip: bool)
    requires Ok(h)
    ensures Deliver(h, mtip, meip) == Standard(h, mtip, meip) <==>
              h.priv == PRIV_M || Gate(h.csr.mstatus) || h.csr.mtvec == 0
              || First(MipRead(h.mip, mtip, meip), h.csr.mie).None?
  {
    hide Gate, First, Wanted, MipRead, Cause, Inject;
    DeliverAgrees(h.csr, h.mip, mtip, meip);
    var want := First(MipRead(h.mip, mtip, meip), h.csr.mie);
    if want.Some? { InjectCounts(h, Cause(want.value), 0); }
  }

  lemma InjectCounts(h: State, cause: bv32, tval: bv32)
    requires Ok(h)
    ensures Inject(h, cause, tval).injections == h.injections + 1
  {
    hide Pushed, Vector;
  }

  /** A guest in user mode with its gate shut and its timer enabled. */
  function UserGuest(): (h: State)
    ensures Ok(h)
  {
    State(Shadow(0, 0x80, 0x1000, 0, 0, 0, 0), 0, PRIV_U, [0, 0, 0, 0], seq(16, _ => 0), seq(32, _ => 0), 0)
  }

  /** Its timer goes off, and it is not interrupted as it should be. */
  lemma UserTimerWaits()
    ensures Deliver(UserGuest(), true, false) == UserGuest()
    ensures Standard(UserGuest(), true, false) == Inject(UserGuest(), Cause(7), 0)
    ensures Standard(UserGuest(), true, false) != Deliver(UserGuest(), true, false)
  {
    hide Has, MipRead, Inject, Cause;
    UserGuestMeans();
    TimerBit();
    MipBits(0, true, false, MTIP);
    MipBits(0, true, false, MEIP);
    MipBits(0, true, false, MSIP);
    HasZero(MSIP);
    InjectCounts(UserGuest(), Cause(7), 0);
  }

  lemma UserGuestMeans()
    ensures var h := UserGuest();
      h.csr.mie == 0x80 && h.csr.mtvec == 0x1000 && h.csr.mstatus == 0 && h.mip == 0 && h.priv == PRIV_U && !Gate(0)
  {
  }

  lemma TimerBit()
    ensures Has(0x80, MTIP)
  {
    AtBack(MTIP);
    BitOf7(At(MTIP));
  }

  lemma BitOf7(k: bv5)
    requires k as int == 7
    ensures Test(0x80, k)
  {
    assert k == 7;
  }
}
