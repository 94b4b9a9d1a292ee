/**
 The immediate generator of src/vm/vm_base.cpp: it undoes the bit scrambling of the encoder and
 sign-extends the result with an exclusive or and a subtraction.
 */
module ImmGen {
  import opened Words
  import opened WordArithmetic
  import opened Text
  import opened Instructions
  import opened Encoder
  import opened Decoder

  function SignMask(bits: nat): bv32
    requires 1 <= bits <= 32
  {
    (1 as bv32) << (bits - 1)
  }

  function XorSub(value: bv32, mask: bv32): bv32 { (value ^ mask) - mask }

  /** `sign_extend`, in the unsigned arithmetic it is carried out in. */
  function SignExtendBits(value: bv32, bits: nat): bv32
    requires 1 <= bits <= 32
  {
    XorSub(value, SignMask(bits))
  }

  function RawI(w: bv32): bv32 { (w >> 20) & 0xFFF }

  function RawS(w: bv32): bv32 { ((w >> 7) & 0x1F) | (((w >> 25) & 0x7F) << 5) }

  function RawB(w: bv32): bv32 {
    (((w >> 8) & 0xF) | (((w >> 25) & 0x3F) << 4) | (((w >> 7) & 1) << 10) | (((w >> 31) & 1) << 11)) << 1
  }

  function RawU(w: bv32): bv32 { (w & 0xFFFF_F000) >> 12 }

  function RawJ(w: bv32): bv32 {
    (((w >> 21) & 0x3FF) | (((w >> 20) & 1) << 10) | (((w >> 12) & 0xFF) << 11) | (((w >> 31) & 1) << 19)) << 1
  }

  /** `ImmGenerator` before its result is read as a signed integer. */
  function ImmWord(w: bv32): bv32 {
    var opcode := w & 0x7F;
    if opcode == 0x13 || opcode == 3 || opcode == 0x67 || opcode == 0xF || opcode == 7 then SignExtendBits(RawI(w), 12)
    else if opcode == 0x23 || opcode == 0x27 then SignExtendBits(RawS(w), 12)
    else if opcode == 0x63 then SignExtendBits(RawB(w), 13)
    else if opcode == 0x37 || opcode == 0x17 then RawU(w)
    else if opcode == 0x6F then SignExtendBits(RawJ(w), 21)
    else 0
  }

  /** `VmBase::ImmGenerator`. */
  function ImmGenerator(instruction: bv32): int { Int32(ImmWord(instruction)) }

  /*
   * Exclusive or, then subtract, is two's-complement sign extension at every width.
   */

  lemma XorSubBelow(v: bv32, mask: bv32)
    requires mask & (mask - 1) == 0 && v < mask
    ensures XorSub(v, mask) == v
  {
  }

  lemma MaskIsOneBit(bits: nat)
    requires 1 <= bits <= 32
    ensures SignMask(bits) & (SignMask(bits) - 1) == 0
  {
  }

  lemma MaskDoubles(bits: nat)
    requires 2 <= bits <= 32
    ensures SignMask(bits) == Join(SignMask(bits - 1), false)
  {
    if bits <= 16 { LowMaskDoubles(bits); }
    else if bits <= 24 { MiddleMaskDoubles(bits); }
    else if bits <= 28 { HighMaskDoubles(bits); }
    else { TopMaskDoubles(bits); }
  }

  lemma LowMaskDoubles(bits: nat)
    requires 2 <= bits <= 16
    ensures SignMask(bits) == Join(SignMask(bits - 1), false)
  {
    if bits <= 8 { assert SignMask(bits) == Join(SignMask(bits - 1), false); }
  }

  lemma MiddleMaskDoubles(bits: nat)
    requires 17 <= bits <= 24
    ensures SignMask(bits) == Join(SignMask(bits - 1), false)
  {
    if bits <= 20 { assert SignMask(bits) == Join(SignMask(bits - 1), false); }
  }

  lemma HighMaskDoubles(bits: nat)
    requires 25 <= bits <= 28
    ensures SignMask(bits) == Join(SignMask(bits - 1), false)
  {
  }

  lemma TopMaskDoubles(bits: nat)
    requires 29 <= bits <= 32
    ensures SignMask(bits) == Join(SignMask(bits - 1), false)
  {
  }

  lemma {:induction false} MaskIsPower(bits: nat)
    requires 1 <= bits <= 32
    ensures IsPower(bits - 1, SignMask(bits))
  {
    if bits == 1 {
      assert SignMask(1) == 1;
    } else {
      MaskIsPower(bits - 1);
      MaskDoubles(bits);
      MaskBound(bits - 1);
      HalfJoin(SignMask(bits - 1), false);
    }
  }

  /** The word whose low k bits are ones, exactly when IsOnes(k, ones). */
  predicate IsOnes(k: nat, ones: bv32)
    decreases k
  {
    if k == 0 then ones == 0 else ones == Join(Half(ones), true) && IsOnes(k - 1, Half(ones))
  }

  lemma HalvesXor(v: bv32, ones: bv32)
    ensures (v ^ ones) >> 1 == (v >> 1) ^ (ones >> 1)
  {
  }

  lemma HalfXor(v: bv32, ones: bv32)
    ensures Half(Xor(v, ones)) == Xor(Half(v), Half(ones))
  {
    HalvesXor(v, ones);
  }

  lemma LowBitXor(v: bv32, ones: bv32)
    requires ones & 1 == 1
    ensures (v ^ ones) & 1 == 1 <==> v & 1 != 1
  {
  }

  lemma JoinedIsOdd(half: bv32)
    ensures Odd(Join(half, true))
  {
  }

  lemma OddXor(v: bv32, ones: bv32)
    requires Odd(ones)
    ensures Odd(Xor(v, ones)) <==> !Odd(v)
  {
    LowBitXor(v, ones);
  }

  lemma NatSplit(b: bv32)
    ensures Nat32(b) == 2 * Nat32(Half(b)) + Bit(Odd(b))
  {
    assert b == 0 ==> Half(b) == 0 && !Odd(b);
  }

  /** Flipping all of the low k bits of a k-bit pattern subtracts it from 2^k - 1. */
  lemma {:induction false} NatFlip(v: bv32, k: nat, ones: bv32)
    requires IsOnes(k, ones) && v <= ones
    ensures Nat32(Xor(v, ones)) == Pow2(k) - 1 - Nat32(v)
    decreases k
  {
    if k == 0 {
      assert v == 0 && Xor(v, ones) == 0;
    } else {
      HalfXor(v, ones);
      JoinedIsOdd(Half(ones));
      OddXor(v, ones);
      HalfAtMost(v, ones);
      NatFlip(Half(v), k - 1, Half(ones));
      NatSplit(v);
      NatSplit(Xor(v, ones));
    }
  }

  lemma HalfAtMost(v: bv32, ones: bv32)
    requires v <= ones
    ensures Half(v) <= Half(ones)
  {
  }

  lemma NatBelowConverse(v: bv32, k: nat, lim: bv32)
    requires IsPower(k, lim) && Nat32(v) < Pow2(k)
    ensures v < lim
  {
    FromNatBelow(Nat32(v), k, lim);
    FromNatNat(v);
  }

  /** The sign bit and everything below it. */
  function OnesTo(mask: bv32): bv32 { mask | (mask - 1) }

  lemma XorSubNegative(v: bv32, mask: bv32)
    requires mask & (mask - 1) == 0 && mask <= v && v <= OnesTo(mask)
    ensures XorSub(v, mask) == v | Not(OnesTo(mask))
  {
  }

  lemma NotOfExtended(v: bv32, mask: bv32)
    requires mask & (mask - 1) == 0 && mask != 0 && v <= OnesTo(mask)
    ensures Not(v | Not(OnesTo(mask))) == Xor(v, OnesTo(mask))
  {
  }

  lemma ExtendedIsNegative(v: bv32, mask: bv32)
    requires mask & (mask - 1) == 0 && mask != 0 && mask <= v
    ensures v | Not(OnesTo(mask)) >= 0x8000_0000
  {
  }

  lemma {:induction false} OnesToMask(bits: nat)
    requires 1 <= bits <= 32
    ensures IsOnes(bits, OnesTo(SignMask(bits)))
  {
    if bits == 1 {
      assert OnesTo(SignMask(1)) == 1 && Half(1) == 0 && Join(0, true) == 1;
      assert IsOnes(0, 0);
    } else {
      OnesToMask(bits - 1);
      MaskDoubles(bits);
      MaskBound(bits - 1);
      MaskIsOneBit(bits - 1);
      OnesToJoin(SignMask(bits - 1));
    }
  }

  lemma OnesToJoin(mask: bv32)
    requires 0 < mask <= 0x4000_0000 && mask & (mask - 1) == 0
    ensures OnesTo(Join(mask, false)) == Join(OnesTo(mask), true)
    ensures Half(Join(OnesTo(mask), true)) == OnesTo(mask)
  {
  }

  lemma OnesBound(v: bv32, bits: nat)
    requires 1 <= bits <= 32
    requires bits < 32 ==> v < SignMask(bits + 1)
    ensures v <= OnesTo(SignMask(bits))
  {
    MaskBound(bits);
    if bits < 32 {
      MaskDoubles(bits + 1);
      BelowDouble(v, SignMask(bits));
    }
  }

  lemma BelowDouble(v: bv32, mask: bv32)
    requires 0 < mask <= 0x4000_0000 && v < Join(mask, false)
    requires mask & (mask - 1) == 0
    ensures v <= OnesTo(mask)
  {
  }

  lemma ExtendNonNegative(v: bv32, mask: bv32)
    requires mask & (mask - 1) == 0 && v < mask
    ensures Int32(XorSub(v, mask)) == Nat32(v)
  {
    XorSubBelow(v, mask);
    BelowMask(v, mask);
  }

  lemma BelowMask(v: bv32, mask: bv32)
    requires mask & (mask - 1) == 0 && v < mask
    ensures v < 0x8000_0000
  {
  }

  lemma ExtendNegative(v: bv32, mask: bv32, bits: nat)
    requires mask & (mask - 1) == 0 && mask != 0 && mask <= v && v <= OnesTo(mask)
    requires IsOnes(bits, OnesTo(mask))
    ensures Int32(XorSub(v, mask)) == Nat32(v) - Pow2(bits)
  {
    XorSubNegative(v, mask);
    NotOfExtended(v, mask);
    ExtendedIsNegative(v, mask);
    NatFlip(v, bits, OnesTo(mask));
  }

  lemma ExtendWithMask(v: bv32, mask: bv32, bits: nat)
    requires bits > 0 && mask & (mask - 1) == 0 && mask != 0 && v <= OnesTo(mask)
    requires IsPower(bits - 1, mask) && IsOnes(bits, OnesTo(mask))
    ensures Int32(XorSub(v, mask)) ==
      if Nat32(v) < Pow2(bits - 1) then Nat32(v) else Nat32(v) - Pow2(bits)
  {
    if v < mask {
      NatBelow(v, bits - 1, mask);
      ExtendNonNegative(v, mask);
    } else {
      if Nat32(v) < Pow2(bits - 1) { NatBelowConverse(v, bits - 1, mask); }
      ExtendNegative(v, mask, bits);
    }
  }

  /** A `bits`-bit pattern is extended to the integer it stands for in two's complement. */
  lemma SignExtendIsTwosComplement(v: bv32, bits: nat)
    requires 1 <= bits <= 32 && Nat32(v) < Pow2(bits)
    ensures Int32(SignExtendBits(v, bits)) ==
      if Nat32(v) < Pow2(bits - 1) then Nat32(v) else Nat32(v) - Pow2(bits)
  {
    MaskIsOneBit(bits);
    MaskIsPower(bits);
    MaskBound(bits);
    PatternAtMostOnes(v, bits);
    OnesToMask(bits);
    ExtendWithMask(v, SignMask(bits), bits);
  }

  lemma PatternAtMostOnes(v: bv32, bits: nat)
    requires 1 <= bits <= 32 && Nat32(v) < Pow2(bits)
    ensures v <= OnesTo(SignMask(bits))
  {
    if bits < 32 {
      MaskIsPower(bits + 1);
      NatBelowConverse(v, bits, SignMask(bits + 1));
    }
    OnesBound(v, bits);
  }

  lemma MaskBound(bits: nat)
    requires 1 <= bits <= 32
    ensures 0 < SignMask(bits) <= 0x8000_0000
    ensures bits < 32 ==> SignMask(bits) <= 0x4000_0000
    ensures bits == 32 ==> SignMask(bits) == 0x8000_0000
  {
  }

  /*
   * The generator undoes the encoder.
   */

  lemma RawIOfPack12(imm: bv32, rs1: bv32, mid: bv32, rd: bv32, opcode: bv32)
    requires rs1 < 32 && mid < 8 && rd < 32 && opcode < 0x80
    ensures RawI(Pack12(imm, rs1, mid, rd, opcode)) == Masked(imm, 0xFFF)
    ensures Opcode(Pack12(imm, rs1, mid, rd, opcode)) == opcode
  {
  }

  lemma RawSOfPackS(imm: bv32, rs2: bv32, rs1: bv32, funct3: bv32, opcode: bv32)
    requires rs2 < 32 && rs1 < 32 && funct3 < 8 && opcode < 0x80
    ensures RawS(PackS(imm, rs2, rs1, funct3, opcode)) == Masked(imm, 0xFFF)
    ensures Opcode(PackS(imm, rs2, rs1, funct3, opcode)) == opcode
  {
  }

  lemma RawBOfPackB(imm: bv32, rs2: bv32, rs1: bv32, funct3: bv32, opcode: bv32)
    requires rs2 < 32 && rs1 < 32 && funct3 < 8 && opcode < 0x80
    ensures RawB(PackB(imm, rs2, rs1, funct3, opcode)) == Masked(imm, 0x1FFE)
    ensures Opcode(PackB(imm, rs2, rs1, funct3, opcode)) == opcode
  {
  }

  lemma RawUOfPackU(imm: bv32, rd: bv32, opcode: bv32)
    requires rd < 32 && opcode < 0x80
    ensures RawU(PackU(imm, rd, opcode)) == Masked(imm, 0xF_FFFF)
    ensures Opcode(PackU(imm, rd, opcode)) == opcode
  {
  }

  lemma RawJOfPackJ(imm: bv32, rd: bv32, opcode: bv32)
    requires rd < 32 && opcode < 0x80
    ensures RawJ(PackJ(imm, rd, opcode)) == Masked(imm, 0x1F_FFFE)
    ensures Opcode(PackJ(imm, rd, opcode)) == opcode
  {
  }

  lemma ExtendLow12(imm: bv32)
    requires InSigned(imm, 0x800)
    ensures SignExtendBits(Masked(imm, 0xFFF), 12) == imm
  {
    if imm < 0x800 { ExtendLow12NonNegative(imm); } else { ExtendLow12Negative(imm); }
  }

  lemma ExtendLow12NonNegative(imm: bv32)
    requires imm < 0x800
    ensures SignExtendBits(Masked(imm, 0xFFF), 12) == imm
  {
  }

  lemma ExtendLow12Negative(imm: bv32)
    requires Not(imm) < 0x800
    ensures SignExtendBits(Masked(imm, 0xFFF), 12) == imm
  {
  }

  lemma ExtendLow13(imm: bv32)
    requires InSigned(imm, 0x1000) && !Odd(imm)
    ensures SignExtendBits(Masked(imm, 0x1FFE), 13) == imm
  {
    if imm < 0x1000 { ExtendLow13NonNegative(imm); } else { ExtendLow13Negative(imm); }
  }

  lemma ExtendLow13NonNegative(imm: bv32)
    requires imm < 0x1000 && !Odd(imm)
    ensures SignExtendBits(Masked(imm, 0x1FFE), 13) == imm
  {
  }

  lemma ExtendLow13Negative(imm: bv32)
    requires Not(imm) < 0x1000 && !Odd(imm)
    ensures SignExtendBits(Masked(imm, 0x1FFE), 13) == imm
  {
  }

  lemma ExtendLow21(imm: bv32)
    requires InSigned(imm, 0x10_0000) && !Odd(imm)
    ensures SignExtendBits(Masked(imm, 0x1F_FFFE), 21) == imm
  {
    if imm < 0x10_0000 { ExtendLow21NonNegative(imm); } else { ExtendLow21Negative(imm); }
  }

  lemma ExtendLow21NonNegative(imm: bv32)
    requires imm < 0x10_0000 && !Odd(imm)
    ensures SignExtendBits(Masked(imm, 0x1F_FFFE), 21) == imm
  {
  }

  lemma ExtendLow21Negative(imm: bv32)
    requires Not(imm) < 0x10_0000 && !Odd(imm)
    ensures SignExtendBits(Masked(imm, 0x1F_FFFE), 21) == imm
  {
  }

  /* What the generator makes of each packing. */

  lemma ImmOfPackI(imm: bv32, rs1: bv32, funct3: bv32, rd: bv32, opcode: bv32)
    requires InSigned(imm, 0x800) && rs1 < 32 && funct3 < 8 && rd < 32
    requires opcode == 0x13 || opcode == 3 || opcode == 0x67 || opcode == 7 || opcode == 0x1B
    ensures ImmWord(Pack12(imm, rs1, funct3, rd, opcode)) == if opcode == 0x1B then 0 else imm
  {
    RawIOfPack12(imm, rs1, funct3, rd, opcode);
    ExtendLow12(imm);
  }

  lemma ImmOfPackS(imm: bv32, rs2: bv32, rs1: bv32, funct3: bv32, opcode: bv32)
    requires InSigned(imm, 0x800) && rs2 < 32 && rs1 < 32 && funct3 < 8
    requires opcode == 0x23 || opcode == 0x27
    ensures ImmWord(PackS(imm, rs2, rs1, funct3, opcode)) == imm
  {
    RawSOfPackS(imm, rs2, rs1, funct3, opcode);
    ExtendLow12(imm);
  }

  lemma ImmOfPackB(imm: bv32, rs2: bv32, rs1: bv32, funct3: bv32)
    requires InSigned(imm, 0x1000) && !Odd(imm) && rs2 < 32 && rs1 < 32 && funct3 < 8
    ensures ImmWord(PackB(imm, rs2, rs1, funct3, 0x63)) == imm
  {
    RawBOfPackB(imm, rs2, rs1, funct3, 0x63);
    ExtendLow13(imm);
  }

  lemma ImmOfPackU(imm: bv32, rd: bv32, opcode: bv32)
    requires rd < 32 && (opcode == 0x37 || opcode == 0x17)
    ensures ImmWord(PackU(imm, rd, opcode)) == Masked(imm, 0xF_FFFF)
  {
    RawUOfPackU(imm, rd, opcode);
  }

  lemma ImmOfPackJ(imm: bv32, rd: bv32)
    requires InSigned(imm, 0x10_0000) && !Odd(imm) && rd < 32
    ensures ImmWord(PackJ(imm, rd, 0x6F)) == imm
  {
    RawJOfPackJ(imm, rd, 0x6F);
    ExtendLow21(imm);
  }

  lemma ImmOfPackI2(funct6: bv32, imm: bv32, rs1: bv32, funct3: bv32, rd: bv32, opcode: bv32)
    requires funct6 == 0 || funct6 == 0x10
    requires imm < 64 && rs1 < 32 && funct3 < 8 && rd < 32 && (opcode == 0x13 || opcode == 0x1B)
    ensures ImmWord(PackI2(funct6, imm, rs1, funct3, rd, opcode)) == if opcode == 0x1B then 0 else (funct6 << 6) | imm
  {
    RawIOfPackI2(funct6, imm, rs1, funct3, rd, opcode);
    var raw := (funct6 << 6) | imm;
    LowOfShift(funct6, imm);
    ExtendLow12NonNegative(raw);
  }

  lemma RawIOfPackI2(funct6: bv32, imm: bv32, rs1: bv32, funct3: bv32, rd: bv32, opcode: bv32)
    requires funct6 < 0x40 && imm < 64 && rs1 < 32 && funct3 < 8 && rd < 32 && opcode < 0x80
    ensures RawI(PackI2(funct6, imm, rs1, funct3, rd, opcode)) == (funct6 << 6) | imm
    ensures Opcode(PackI2(funct6, imm, rs1, funct3, rd, opcode)) == opcode
  {
  }

  lemma LowOfShift(funct6: bv32, imm: bv32)
    requires (funct6 == 0 || funct6 == 0x10) && imm < 64
    ensures (funct6 << 6) | imm < 0x800
    ensures Masked((funct6 << 6) | imm, 0xFFF) == (funct6 << 6) | imm
  {
  }

  /* The opcode column, format by format. */

  lemma OpcodesOfFormats(op: Mnemonic)
    ensures FormatOf(op) == Some(I1) ==> OpcodeOf(op) in {0x13 as bv32, 3, 0x67, 0x1B}
    ensures FormatOf(op) == Some(I1) ==> (OpcodeOf(op) == 0x1B <==> op == InI1(kaddiw))
    ensures FormatOf(op) == Some(FdI) ==> OpcodeOf(op) == 7
    ensures FormatOf(op) == Some(S) ==> OpcodeOf(op) == 0x23
    ensures FormatOf(op) == Some(FdS) ==> OpcodeOf(op) == 0x27
  {
  }

  lemma OpcodesOfJumps(op: Mnemonic)
    ensures FormatOf(op) == Some(B) ==> OpcodeOf(op) == 0x63
    ensures FormatOf(op) == Some(U) ==> OpcodeOf(op) in {0x37 as bv32, 0x17}
    ensures FormatOf(op) == Some(J) ==> OpcodeOf(op) == 0x6F
  {
  }

  /**
   For a shift by a constant the generator also returns the function bits above the six of the shift
   amount, and for a word shift it returns nothing of either.
   */
  lemma ImmOfShift(name: I2Name, x: Fields)
    requires WellFormedFields(I2, x)
    ensures ImmWord(Word(I2, InI2(name), x)) ==
      match name { case kslli | ksrli => x.imm case ksrai => x.imm | 0x400 case _ => 0 }
  {
    hide ImmWord, PackI2;
    ShiftBits(x.imm);
    ImmOfPackI2(Funct6I2(name), x.imm, x.rs1, Funct3I2(name), x.rd, OpcodeI2(name));
  }

  lemma ShiftBits(imm: bv32)
    ensures (0 << 6) | imm == imm
    ensures (0x10 << 6) | imm == imm | 0x400
  {
  }

  /**
   The generator applied to an encoded instruction returns its immediate, in every format that has a
   sign-extended or upper immediate, except that opcode 0x1B (`addiw`) always gives 0.
   */
  lemma ImmRoundTrip(i: Insn)
    requires WellFormedInsn(i)
    requires FormatOf(i.op).value in {I1, FdI, S, FdS, B, U, J}
    ensures ImmGenerator(Encode(i)) == (if i.op == InI1(kaddiw) then 0 else Int32(i.fields.imm))
    ensures ImmGenerator(Encode(i)) == Int32(i.fields.imm) <==> i.op != InI1(kaddiw) || i.fields.imm == 0
  {
    var f, x := FormatOf(i.op).value, i.fields;
    OpcodesOfFormats(i.op);
    OpcodesOfJumps(i.op);
    FromIntInt(x.imm);
    match f
    case I1 | FdI => ImmOfPackI(x.imm, x.rs1, Funct3Of(i.op), x.rd, OpcodeOf(i.op));
    case S | FdS => ImmOfPackS(x.imm, x.rs2, x.rs1, Funct3Of(i.op), OpcodeOf(i.op));
    case B => ImmOfPackB(x.imm, x.rs2, x.rs1, Funct3Of(i.op));
    case U => ImmOfPackU(x.imm, x.rd, OpcodeOf(i.op)); LowIsWhole(x.imm);
    case J => ImmOfPackJ(x.imm, x.rd);
    case _ =>
  }

  /*
   * Every word.
   */

  lemma SameRaw(w: bv32)
    ensures RawI(w) == w >> 20 && RawU(w) == w >> 12
    ensures RawI(w) < 0x1000
  {
  }

  lemma SameRawS(w: bv32)
    ensures RawS(w) == RawImmS(w) && RawS(w) < 0x1000
  {
  }

  lemma SameRawB(w: bv32)
    ensures RawB(w) == RawImmB(w) && RawB(w) < 0x2000
  {
  }

  lemma SameRawJ(w: bv32)
    ensures RawJ(w) == RawImmJ(w) && RawJ(w) < 0x20_0000
  {
  }

  lemma ExtendsUp12(x: bv32)
    requires x < 0x800
    ensures XorSub(x, 0x800) == SignExtend(x, 0x800)
  {
  }

  lemma ExtendsDown12(x: bv32)
    requires 0x800 <= x && x < 0x1000
    ensures XorSub(x, 0x800) == SignExtend(x, 0x800)
  {
  }

  lemma SameExtension12(x: bv32)
    ensures x < 0x1000 ==> XorSub(x, 0x800) == SignExtend(x, 0x800)
  {
    hide XorSub, SignExtend;
    if x < 0x800 { ExtendsUp12(x); } else if x < 0x1000 { ExtendsDown12(x); }
  }

  lemma ExtendsUp13(x: bv32)
    requires x < 0x1000
    ensures XorSub(x, 0x1000) == SignExtend(x, 0x1000)
  {
  }

  lemma ExtendsDown13(x: bv32)
    requires 0x1000 <= x && x < 0x2000
    ensures XorSub(x, 0x1000) == SignExtend(x, 0x1000)
  {
  }

  lemma SameExtension13(x: bv32)
    ensures x < 0x2000 ==> XorSub(x, 0x1000) == SignExtend(x, 0x1000)
  {
    hide XorSub, SignExtend;
    if x < 0x1000 { ExtendsUp13(x); } else if x < 0x2000 { ExtendsDown13(x); }
  }

  lemma ExtendsUp21(x: bv32)
    requires x < 0x10_0000
    ensures XorSub(x, 0x10_0000) == SignExtend(x, 0x10_0000)
  {
  }

  lemma ExtendsDown21(x: bv32)
    requires 0x10_0000 <= x && x < 0x20_0000
    ensures XorSub(x, 0x10_0000) == SignExtend(x, 0x10_0000)
  {
  }

  lemma SameExtension21(x: bv32)
    ensures x < 0x20_0000 ==> XorSub(x, 0x10_0000) == SignExtend(x, 0x10_0000)
  {
    hide XorSub, SignExtend;
    if x < 0x10_0000 { ExtendsUp21(x); } else if x < 0x20_0000 { ExtendsDown21(x); }
  }

  lemma Masks()
    ensures SignMask(12) == 0x800 && SignMask(13) == 0x1000 && SignMask(21) == 0x10_0000
  {
  }

  /** The opcodes whose words have an immediate of these formats, loads, jumps and fences among them. */
  predicate IsOpcodeI(opcode: bv32) { opcode == 0x13 || opcode == 3 || opcode == 0x67 || opcode == 0xF || opcode == 7 }

  /**
   On every word, encoded or not, the generator gives the sign-extended field that the word's opcode has in the
   decoder's layout, the unsigned upper field for the two upper opcodes, and 0 for every other opcode.
   */
  lemma ImmOfEveryWord(w: bv32)
    ensures IsOpcodeI(Opcode(w)) ==> ImmWord(w) == ImmI(w)
    ensures Opcode(w) == 0x23 || Opcode(w) == 0x27 ==> ImmWord(w) == ImmS(w)
    ensures Opcode(w) == 0x63 ==> ImmWord(w) == ImmB(w)
    ensures Opcode(w) == 0x37 || Opcode(w) == 0x17 ==> ImmWord(w) == ImmU(w)
    ensures Opcode(w) == 0x6F ==> ImmWord(w) == ImmJ(w)
    ensures !IsOpcodeI(Opcode(w)) && Opcode(w) !in {0x23, 0x27, 0x63, 0x37, 0x17, 0x6F} ==> ImmWord(w) == 0
  {
    hide RawI, RawS, RawB, RawJ, RawU, XorSub, SignMask, SignExtend, RawImmS, RawImmB, RawImmJ;
    SameRaw(w);
    SameRawS(w);
    SameRawB(w);
    SameRawJ(w);
    Masks();
    SameExtension12(RawI(w));
    SameExtension12(RawS(w));
    SameExtension13(RawB(w));
    SameExtension21(RawJ(w));
  }
}
