/** Guest instructions: the fields the monitor takes out of an instruction word, the expansion of the two
    compressed forms (main/hyp_decode.c), and the encodings they have to agree with (RISC-V Unprivileged
    ISA, chapters on Zicsr and C, and section 2.3). */
module Decode {
  // ---- fields ----------------------------------------------------------------------------------------

  function Opcode(w: bv32): bv7 {
    (w & 0x7F) as bv7
  }

  function Rd(w: bv32): bv5 {
    ((w >> 7) & 0x1F) as bv5
  }

  function Funct3(w: bv32): bv3 {
    ((w >> 12) & 0x7) as bv3
  }

  function Rs1(w: bv32): bv5 {
    ((w >> 15) & 0x1F) as bv5
  }

  function Rs2(w: bv32): bv5 {
    ((w >> 20) & 0x1F) as bv5
  }

  function CsrField(w: bv32): bv12 {
    (w >> 20) as bv12
  }

  /** Loads and stores: the same opcode apart from bit 5. */
  predicate IsAccess(w: bv32) {
    w & 0x5F == 0x03
  }

  predicate IsStore(w: bv32) {
    (w >> 5) & 1 == 1
  }

  predicate Is32Bit(w: bv32) {
    w & 0x3 == 0x3
  }

  // ---- encodings -------------------------------------------------------------------------------------

  function EncodeCsr(csr: bv12, rs1: bv5, funct3: bv3, rd: bv5): bv32 {
    ((csr as bv32) << 20) | ((rs1 as bv32) << 15) | ((funct3 as bv32) << 12) | ((rd as bv32) << 7) | 0x73
  }

  function EncodeLoad(imm: bv12, rs1: bv5, funct3: bv3, rd: bv5): bv32 {
    ((imm as bv32) << 20) | ((rs1 as bv32) << 15) | ((funct3 as bv32) << 12) | ((rd as bv32) << 7) | 0x03
  }

  function EncodeStore(imm: bv12, rs2: bv5, rs1: bv5, funct3: bv3): bv32 {
    (((imm as bv32) >> 5) << 25) | ((rs2 as bv32) << 20) | ((rs1 as bv32) << 15) | ((funct3 as bv32) << 12)
    | (((imm as bv32) & 0x1F) << 7) | 0x23
  }

  const MRET: bv32 := 0x30200073
  const WFI: bv32 := 0x10500073

  lemma CsrFields(csr: bv12, rs1: bv5, funct3: bv3, rd: bv5)
    ensures Opcode(EncodeCsr(csr, rs1, funct3, rd)) == 0x73
    ensures Rd(EncodeCsr(csr, rs1, funct3, rd)) == rd
    ensures Funct3(EncodeCsr(csr, rs1, funct3, rd)) == funct3
    ensures Rs1(EncodeCsr(csr, rs1, funct3, rd)) == rs1
    ensures CsrField(EncodeCsr(csr, rs1, funct3, rd)) == csr
    ensures Is32Bit(EncodeCsr(csr, rs1, funct3, rd))
  {
  }

  lemma LoadFields(imm: bv12, rs1: bv5, funct3: bv3, rd: bv5)
    ensures IsAccess(EncodeLoad(imm, rs1, funct3, rd)) && !IsStore(EncodeLoad(imm, rs1, funct3, rd))
    ensures Rd(EncodeLoad(imm, rs1, funct3, rd)) == rd
    ensures Funct3(EncodeLoad(imm, rs1, funct3, rd)) == funct3
  {
  }

  lemma StoreFields(imm: bv12, rs2: bv5, rs1: bv5, funct3: bv3)
    ensures IsAccess(EncodeStore(imm, rs2, rs1, funct3)) && IsStore(EncodeStore(imm, rs2, rs1, funct3))
    ensures Rs2(EncodeStore(imm, rs2, rs1, funct3)) == rs2
    ensures Funct3(EncodeStore(imm, rs2, rs1, funct3)) == funct3
  {
  }

  // ---- compressed forms ------------------------------------------------------------------------------

  /** A register of the short forms: x8 to x15. */
  function Wide(r: bv3): bv5 {
    8 + (r as bv5)
  }

  /** c.lw rd', uimm(rs1'), where the offset is `uimm` words. */
  function EncodeCLw(uimm: bv5, rs1: bv3, rd: bv3): bv16 {
    0x4000 | Short(uimm, rs1, rd)
  }

  function EncodeCSw(uimm: bv5, rs1: bv3, rs2: bv3): bv16 {
    0xC000 | Short(uimm, rs1, rs2)
  }

  /** The fields both share: offset bits 5 to 3 at 12 to 10, bit 2 at 6, bit 6 at 5. */
  function Short(uimm: bv5, rs1: bv3, rx: bv3): bv16 {
    ((((uimm as bv16) >> 1) & 0x7) << 10) | ((rs1 as bv16) << 7) | (((uimm as bv16) & 0x1) << 6)
    | (((uimm as bv16) >> 4) << 5) | ((rx as bv16) << 2)
  }

  /** rvc_expand: the 32-bit form of a compressed load or store, 0 for anything else. */
  function RvcExpand(c: bv32): bv32 {
    if c & 0x3 != 0 then 0
    else
      var rs1, rx := 8 + ((c >> 7) & 0x7), 8 + ((c >> 2) & 0x7);
      var off := (((c >> 10) & 0x7) << 3) | (((c >> 6) & 0x1) << 2) | (((c >> 5) & 0x1) << 6);
      var f := (c >> 13) & 0x7;
      if f == 0x2 then (off << 20) | (rs1 << 15) | ((0x2 as bv32) << 12) | (rx << 7) | 0x03
      else if f == 0x6 then
        ((off >> 5) << 25) | (rx << 20) | (rs1 << 15) | ((0x2 as bv32) << 12) | ((off & 0x1F) << 7) | 0x23
      else 0
  }

  function Offset(uimm: bv5): bv12 {
    (uimm as bv12) << 2
  }

  lemma ExpandLoad(uimm: bv5, rs1: bv3, rd: bv3)
    ensures RvcExpand(EncodeCLw(uimm, rs1, rd) as bv32) == EncodeLoad(Offset(uimm), Wide(rs1), 2, Wide(rd))
  {
  }

  lemma ExpandStore(uimm: bv5, rs1: bv3, rs2: bv3)
    ensures RvcExpand(EncodeCSw(uimm, rs1, rs2) as bv32) == EncodeStore(Offset(uimm), Wide(rs2), Wide(rs1), 2)
  {
  }

  /** Nothing but a c.lw or a c.sw is expanded. */
  lemma OnlyAccessesExpand(c: bv16)
    requires RvcExpand(c as bv32) != 0
    ensures var uimm, rs1, rx := ShortOffset(c), ((c >> 7) & 0x7) as bv3, ((c >> 2) & 0x7) as bv3;
      c == EncodeCLw(uimm, rs1, rx) || c == EncodeCSw(uimm, rs1, rx)
  {
  }

  function ShortOffset(c: bv16): bv5 {
    ((((c >> 10) & 0x7) << 1) | ((c >> 6) & 0x1) | (((c >> 5) & 0x1) << 4)) as bv5
  }

  // ---- fetch -----------------------------------------------------------------------------------------

  datatype Fetched = Fetched(encoding: bv32, length: bv32) | Undecodable

  /** trap_decode on an access fault: the two halfwords at the guest's pc, never one word. */
  function Fetch(low: bv16, high: bv16): Fetched {
    if low & 0x3 != 0x3 then
      var e := RvcExpand(low as bv32);
      if e == 0 then Undecodable else Fetched(e, 2)
    else if low & 0x1F == 0x1F then Undecodable
    else Fetched((low as bv32) | ((high as bv32) << 16), 4)
  }

  function Low(w: bv32): bv16 {
    (w & 0xFFFF) as bv16
  }

  function High(w: bv32): bv16 {
    (w >> 16) as bv16
  }

  lemma FetchWord(w: bv32)
    requires w & 0x1F == 0x03
    ensures Fetch(Low(w), High(w)) == Fetched(w, 4)
  {
  }

  /** What is fetched is the word in memory, unless its low five bits are all ones; of the compressed
      instructions only c.lw and c.sw are taken. */
  lemma FetchExactly(low: bv16, high: bv16)
    ensures low << 14 == 0xC000 ==>
              Fetch(low, high) == if low << 11 == 0xF800 then Undecodable
                                  else Fetched((high as bv32 << 16) | low as bv32, 4)
    ensures low << 14 != 0xC000 ==>
              var uimm, rs1, rx := ShortOffset(low), ((low >> 7) & 0x7) as bv3, ((low >> 2) & 0x7) as bv3;
              && (Fetch(low, high).Fetched? <==> low == EncodeCLw(uimm, rs1, rx) || low == EncodeCSw(uimm, rs1, rx))
              && (Fetch(low, high).Fetched? ==> Fetch(low, high).length == 2)
  {
    if RvcExpand(low as bv32) != 0 { OnlyAccessesExpand(low); }
    var uimm, rs1, rx := ShortOffset(low), ((low >> 7) & 0x7) as bv3, ((low >> 2) & 0x7) as bv3;
    if low == EncodeCLw(uimm, rs1, rx) { ExpandLoad(uimm, rs1, rx); }
    if low == EncodeCSw(uimm, rs1, rx) { ExpandStore(uimm, rs1, rx); }
  }

  lemma LoadLow(imm: bv12, rs1: bv5, funct3: bv3, rd: bv5)
    ensures EncodeLoad(imm, rs1, funct3, rd) & 0x1F == 0x03
  {
  }

  lemma StoreLow(imm: bv12, rs2: bv5, rs1: bv5, funct3: bv3)
    ensures EncodeStore(imm, rs2, rs1, funct3) & 0x1F == 0x03
  {
  }

  lemma EncodedNonzero(imm: bv12, r: bv5, rs1: bv5, funct3: bv3)
    ensures EncodeLoad(imm, rs1, funct3, r) != 0 && EncodeStore(imm, r, rs1, funct3) != 0
  {
  }

  /** A load or store of either size is fetched as its 32-bit form, with its own length. */
  lemma FetchLoad(imm: bv12, rs1: bv5, funct3: bv3, rd: bv5)
    ensures var w := EncodeLoad(imm, rs1, funct3, rd); Fetch(Low(w), High(w)) == Fetched(w, 4)
  {
    LoadLow(imm, rs1, funct3, rd);
    hide EncodeLoad, Fetch, Low, High;
    FetchWord(EncodeLoad(imm, rs1, funct3, rd));
  }

  lemma FetchStore(imm: bv12, rs2: bv5, rs1: bv5, funct3: bv3)
    ensures var w := EncodeStore(imm, rs2, rs1, funct3); Fetch(Low(w), High(w)) == Fetched(w, 4)
  {
    StoreLow(imm, rs2, rs1, funct3);
    hide EncodeStore, Fetch, Low, High;
    FetchWord(EncodeStore(imm, rs2, rs1, funct3));
  }

  lemma ShortLow(uimm: bv5, rs1: bv3, rx: bv3)
    ensures EncodeCLw(uimm, rs1, rx) & 0x3 != 0x3 && EncodeCSw(uimm, rs1, rx) & 0x3 != 0x3
  {
  }

  lemma FetchCLw(uimm: bv5, rs1: bv3, rd: bv3, high: bv16)
    ensures Fetch(EncodeCLw(uimm, rs1, rd), high) == Fetched(EncodeLoad(Offset(uimm), Wide(rs1), 2, Wide(rd)), 2)
  {
    hide EncodeCLw, EncodeLoad, RvcExpand, Offset, Wide;
    ShortLow(uimm, rs1, rd);
    ExpandLoad(uimm, rs1, rd);
    EncodedNonzero(Offset(uimm), Wide(rd), Wide(rs1), 2);
  }

  lemma FetchCSw(uimm: bv5, rs1: bv3, rs2: bv3, high: bv16)
    ensures Fetch(EncodeCSw(uimm, rs1, rs2), high) == Fetched(EncodeStore(Offset(uimm), Wide(rs2), Wide(rs1), 2), 2)
  {
    hide EncodeCSw, EncodeStore, RvcExpand, Offset, Wide;
    ShortLow(uimm, rs1, rs2);
    ExpandStore(uimm, rs1, rs2);
    EncodedNonzero(Offset(uimm), Wide(rs2), Wide(rs1), 2);
  }
}
