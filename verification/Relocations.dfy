/** Relocation as buildroot/board-esp32p4/mkflt.lua applies it: instruction field encoders, the
    rounding split of a distance into hi20 and lo12, range checks, and the relocation loop.
    Values are 32-bit words, the integer width of the Lua the board runs. */
module Relocations {

  type byte = bv8

  // ---- instruction fields, as the encoders fill them ------------------------

  /** auipc/lui: bits 31:12. */
  function PutU(w: bv32, v: bv32): bv32 {
    (w & 0xfff) | ((v & 0xfffff) << 12)
  }

  /** addi/jalr/lw: bits 31:20. */
  function PutI(w: bv32, v: bv32): bv32 {
    (w & 0xfffff) | ((v & 0xfff) << 20)
  }

  /** sw: bits 31:25 and 11:7. */
  function PutS(w: bv32, v: bv32): bv32 {
    (w & 0x1fff07f) | (((v >> 5) & 0x7f) << 25) | ((v & 0x1f) << 7)
  }

  /** Conditional branches. */
  function PutB(w: bv32, v: bv32): bv32 {
    (w & 0x1fff07f) | (((v >> 12) & 0x1) << 31) | (((v >> 5) & 0x3f) << 25)
    | (((v >> 1) & 0xf) << 8) | (((v >> 11) & 0x1) << 7)
  }

  /** jal. */
  function PutJ(w: bv32, v: bv32): bv32 {
    (w & 0xfff) | (((v >> 20) & 0x1) << 31) | (((v >> 1) & 0x3ff) << 21)
    | (((v >> 11) & 0x1) << 20) | (((v >> 12) & 0xff) << 12)
  }

  function Hi20(v: bv32): bv32 {
    (v + 0x800) >> 12
  }

  /** What is left for the low part once the high part has rounded. */
  function Lo12(v: bv32): bv32 {
    v - (Hi20(v) << 12)
  }

  /** Signed comparison of 32-bit words. */
  predicate SignedLess(a: bv32, b: bv32) {
    (a ^ 0x8000_0000) < (b ^ 0x8000_0000)
  }

  /** The distance fits a signed field whose limit, one past its largest value, is given. */
  predicate InRange(v: bv32, limit: bv32) {
    !(!SignedLess(v, limit) || SignedLess(v, -limit))
  }

  // ---- immediates, as the processor reads them (Unprivileged ISA, section 2.3) ----

  /** Sign extension of a field: its sign bit copied into the bits above. */
  function SignExtend(v: bv32, sign: bv32, above: bv32): bv32 {
    if v & sign == 0 then v else v | above
  }

  function Sext12(v: bv32): bv32 { SignExtend(v, 0x800, 0xffff_f000) }

  function Sext13(v: bv32): bv32 { SignExtend(v, 0x1000, 0xffff_e000) }

  function Sext21(v: bv32): bv32 { SignExtend(v, 0x10_0000, 0xffe0_0000) }

  function ImmU(w: bv32): bv32 {
    w & 0xffff_f000
  }

  function ImmI(w: bv32): bv32 {
    Sext12(w >> 20)
  }

  function ImmS(w: bv32): bv32 {
    Sext12(((w >> 25) << 5) | ((w >> 7) & 0x1f))
  }

  function ImmB(w: bv32): bv32 {
    Sext13(((w >> 31) << 12) | (((w >> 7) & 1) << 11) | (((w >> 25) & 0x3f) << 5) | (((w >> 8) & 0xf) << 1))
  }

  function ImmJ(w: bv32): bv32 {
    Sext21(((w >> 31) << 20) | (((w >> 12) & 0xff) << 12) | (((w >> 20) & 1) << 11) | (((w >> 21) & 0x3ff) << 1))
  }

  // ---- encoder and processor agree -----------------------------------------

  lemma UReads(w: bv32, v: bv32)
    ensures ImmU(PutU(w, v)) == Shl12(v)
  {
  }

  lemma IReads(w: bv32, v: bv32)
    ensures ImmI(PutI(w, v)) == Sext12(v & 0xfff)
  {
  }

  lemma SReads(w: bv32, v: bv32)
    ensures ImmS(PutS(w, v)) == Sext12(v & 0xfff)
  {
  }

  lemma LowBits(v: bv32)
    ensures Lo12(v) & 0xfff == v & 0xfff
  {
  }

  lemma Rounding(v: bv32)
    ensures Sext12(v & 0xfff) == ((v + 0x800) & 0xfff) - 0x800
  {
    if v & 0x800 == 0 {
      assert (v & 0xfff) & 0x800 == 0;
      RoundingDown(v);
    } else {
      assert (v & 0xfff) & 0x800 != 0;
      RoundingUp(v);
    }
  }

  lemma RoundingDown(v: bv32)
    requires v & 0x800 == 0
    ensures v & 0xfff == ((v + 0x800) & 0xfff) - 0x800
  {
  }

  lemma RoundingUp(v: bv32)
    requires v & 0x800 != 0
    ensures (v & 0xfff) | 0xffff_f000 == ((v + 0x800) & 0xfff) - 0x800
  {
  }

  /** 32-bit addition, wrapping. */
  function Add(a: bv32, b: bv32): bv32 { a + b }

  function Shl12(a: bv32): bv32 { a << 12 }

  lemma RoundedSum(v: bv32)
    ensures Add(Shl12(Hi20(v)), ((v + 0x800) & 0xfff) - 0x800) == v
  {
  }

  /** The rounded high part and the sign-extended low part add up to the value, whatever it is. */
  lemma SplitAddsUp(v: bv32)
    ensures Add(Shl12(Hi20(v)), Sext12(Lo12(v) & 0xfff)) == v
  {
    hide Sext12, Lo12, Hi20, Add, Shl12;
    LowBits(v);
    Rounding(v);
    RoundedSum(v);
  }

  /** The low part is a signed 12-bit number. */
  lemma LowPartIsSmall(v: bv32)
    ensures !SignedLess(Lo12(v), -0x800) && SignedLess(Lo12(v), 0x800)
  {
  }

  /** What a patched auipc and a patched load, addi or jalr compute together. */
  lemma PairAddsUpI(v: bv32, w1: bv32, w2: bv32)
    ensures Add(ImmU(PutU(w1, Hi20(v))), ImmI(PutI(w2, Lo12(v)))) == v
  {
    hide PutU, PutI, ImmU, ImmI, Hi20, Lo12, Sext12, Add, Shl12;
    UReads(w1, Hi20(v));
    IReads(w2, Lo12(v));
    SplitAddsUp(v);
  }

  /** What a patched auipc and a patched store compute together. */
  lemma PairAddsUpS(v: bv32, w1: bv32, w2: bv32)
    ensures Add(ImmU(PutU(w1, Hi20(v))), ImmS(PutS(w2, Lo12(v)))) == v
  {
    hide PutU, PutS, ImmU, ImmS, Hi20, Lo12, Sext12, Add, Shl12;
    UReads(w1, Hi20(v));
    SReads(w2, Lo12(v));
    SplitAddsUp(v);
  }

  lemma BReads(w: bv32, v: bv32)
    ensures ImmB(PutB(w, v)) == Sext13(v & 0x1ffe)
  {
  }

  lemma JReads(w: bv32, v: bv32)
    ensures ImmJ(PutJ(w, v)) == Sext21(v & 0x1f_fffe)
  {
  }

  /** In range means the bits above the field all equal its sign. */
  lemma InRange13(v: bv32)
    ensures InRange(v, 0x1000) ==> v & 0xffff_f000 == 0 || v & 0xffff_f000 == 0xffff_f000
    ensures v & 0xffff_f000 == 0 || v & 0xffff_f000 == 0xffff_f000 ==> InRange(v, 0x1000)
  {
  }

  lemma InRange21(v: bv32)
    ensures InRange(v, 0x10_0000) ==> v & 0xfff0_0000 == 0 || v & 0xfff0_0000 == 0xfff0_0000
    ensures v & 0xfff0_0000 == 0 || v & 0xfff0_0000 == 0xfff0_0000 ==> InRange(v, 0x10_0000)
  {
  }

  lemma Field13(v: bv32)
    ensures v & 0xffff_f000 == 0 || v & 0xffff_f000 == 0xffff_f000 ==> Sext13(v & 0x1ffe) == v & !1
    ensures Sext13(v & 0x1ffe) == v & !1 ==> v & 0xffff_f000 == 0 || v & 0xffff_f000 == 0xffff_f000
  {
    if v & 0xffff_f000 == 0 {
    } else if v & 0xffff_f000 == 0xffff_f000 {
    } else {
    }
  }

  lemma Field21(v: bv32)
    ensures v & 0xfff0_0000 == 0 || v & 0xfff0_0000 == 0xfff0_0000 ==> Sext21(v & 0x1f_fffe) == v & !1
    ensures Sext21(v & 0x1f_fffe) == v & !1 ==> v & 0xfff0_0000 == 0 || v & 0xfff0_0000 == 0xfff0_0000
  {
    if v & 0xfff0_0000 == 0 {
    } else if v & 0xfff0_0000 == 0xfff0_0000 {
    } else {
    }
  }

  /** The 13-bit check accepts a distance exactly when the patched branch covers it, bit 0 apart. */
  lemma BranchReaches(v: bv32, w: bv32)
    ensures InRange(v, 0x1000) <==> ImmB(PutB(w, v)) == v & !1
  {
    hide ImmB, PutB, InRange, Sext13;
    BReads(w, v);
    InRange13(v);
    Field13(v);
  }

  /** The 21-bit check accepts a distance exactly when the patched jal covers it, bit 0 apart. */
  lemma JumpReaches(v: bv32, w: bv32)
    ensures InRange(v, 0x10_0000) <==> ImmJ(PutJ(w, v)) == v & !1
  {
    hide ImmJ, PutJ, InRange, Sext21;
    JReads(w, v);
    InRange21(v);
    Field21(v);
  }

  // ---- the image as words ---------------------------------------------------

  type Image = seq<bv8>

  function Rd32(img: Image, at: nat): bv32
    requires at + 4 <= |img|
  {
    (img[at] as bv32) | ((img[at + 1] as bv32) << 8) | ((img[at + 2] as bv32) << 16) | ((img[at + 3] as bv32) << 24)
  }

  function Byte(v: bv32): bv8 {
    (v & 0xff) as bv8
  }

  function Wr32(img: Image, at: nat, v: bv32): (img': Image)
    requires at + 4 <= |img|
    ensures |img'| == |img|
    ensures forall k :: 0 <= k < |img| && !(at <= k < at + 4) ==> img'[k] == img[k]
  {
    img[at := Byte(v)][at + 1 := Byte(v >> 8)][at + 2 := Byte(v >> 16)][at + 3 := Byte(v >> 24)]
  }

  lemma WordOfBytes(v: bv32)
    ensures (Byte(v) as bv32) | ((Byte(v >> 8) as bv32) << 8) | ((Byte(v >> 16) as bv32) << 16) | ((Byte(v >> 24) as bv32) << 24) == v
  {
  }

  lemma ReadWritten(img: Image, at: nat, v: bv32)
    requires at + 4 <= |img|
    ensures Rd32(Wr32(img, at, v), at) == v
  {
    WordOfBytes(v);
  }

  /** Words stand in the image little end first. */
  lemma LittleEndian(img: Image, at: nat, v: bv32)
    requires at + 4 <= |img|
    ensures var t := Wr32(img, at, v);
      && t[at] as bv32 == v & 0xff && t[at + 1] as bv32 == (v >> 8) & 0xff
      && t[at + 2] as bv32 == (v >> 16) & 0xff && t[at + 3] as bv32 == v >> 24
  {
    ByteIs(v);
    ByteIs(v >> 8);
    ByteIs(v >> 16);
    ByteIs(v >> 24);
    TopByte(v);
  }

  lemma ByteIs(v: bv32)
    ensures Byte(v) as bv32 == v & 0xff
  {
  }

  lemma TopByte(v: bv32)
    ensures (v >> 24) & 0xff == v >> 24
  {
  }

  // ---- ranges in two's complement ------------------------------------------------

  /** From -4096 to 4095. */
  predicate Signed13(v: bv32) {
    v < 0x1000 || v >= 0xFFFF_F000
  }

  /** From -1048576 to 1048575. */
  predicate Signed21(v: bv32) {
    v < 0x10_0000 || v >= 0xFFF0_0000
  }

  /** What the range checks accept. */
  lemma RangeIs13(v: bv32)
    ensures InRange(v, 0x1000) <==> Signed13(v)
  {
  }

  lemma RangeIs21(v: bv32)
    ensures InRange(v, 0x10_0000) <==> Signed21(v)
  {
  }
}
