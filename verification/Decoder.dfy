/**
 A decoder for every word the code generator can produce from a well-formed unit, and hence the
 injectivity of the encoder across all seventeen formats.

 The decoder is not in the source; it is the partner that shows the encoder loses nothing.
 */
module Decoder {
  import opened Words
  import opened Text
  import opened Instructions
  import opened Units
  import opened Encoder

  datatype Insn = Insn(op: Mnemonic, fields: Fields)

  predicate IsRegister(r: bv32) { r < 32 }

  /** The two's-complement range [-lim, lim). */
  predicate InSigned(x: bv32, lim: bv32) { x < lim || Not(x) < lim }

  /** The immediates that a format's field can hold. */
  predicate ImmFits(f: Format, imm: bv32) {
    match f
    case I1 | S | FdI | FdS => InSigned(imm, 0x800)
    case I2 => imm < 64
    case B => InSigned(imm, 0x1000) && !Odd(imm)
    case U => imm <= 0xF_FFFF
    case J => InSigned(imm, 0x10_0000) && !Odd(imm)
    case CsrI => imm < 32
    case _ => imm == 0
  }

  /** Operands the format has are in range; operands it does not have are 0. */
  predicate WellFormedFields(f: Format, x: Fields) {
    && (if UsesRd(f) then IsRegister(x.rd) else x.rd == 0)
    && (if UsesRs1(f) then IsRegister(x.rs1) else x.rs1 == 0)
    && (if UsesRs2(f) then IsRegister(x.rs2) else x.rs2 == 0)
    && (if UsesRs3(f) then IsRegister(x.rs3) else x.rs3 == 0)
    && ImmFits(f, x.imm)
    && (if UsesCsr(f) then x.csr < 0x1000 else x.csr == 0)
    && (if UsesRm(f) then x.rm < 8 else x.rm == 0)
  }

  predicate WellFormedInsn(i: Insn) {
    FormatOf(i.op).Some? && WellFormedFields(FormatOf(i.op).value, i.fields)
  }

  function Encode(i: Insn): bv32
    requires FormatOf(i.op).Some?
  {
    Word(FormatOf(i.op).value, i.op, i.fields)
  }

  /*
   * Taking a word apart.
   */

  function Opcode(w: bv32): bv32 { w & 0x7F }

  function RdField(w: bv32): bv32 { (w >> 7) & 0x1F }

  function Funct3(w: bv32): bv32 { (w >> 12) & 7 }

  function Rs1Field(w: bv32): bv32 { (w >> 15) & 0x1F }

  function Rs2Field(w: bv32): bv32 { (w >> 20) & 0x1F }

  function Rs3Field(w: bv32): bv32 { w >> 27 }

  function Funct7(w: bv32): bv32 { w >> 25 }

  /** The word whose bits from the sign bit `sign` upwards are all that bit of `x`. */
  function SignExtend(x: bv32, sign: bv32): bv32 { if x & sign == 0 then x else x | -sign }

  function RawImmS(w: bv32): bv32 { ((w >> 25) << 5) | ((w >> 7) & 0x1F) }

  function RawImmB(w: bv32): bv32 {
    ((w >> 31) << 12) | (((w >> 7) & 1) << 11) | (((w >> 25) & 0x3F) << 5) | (((w >> 8) & 0xF) << 1)
  }

  function RawImmJ(w: bv32): bv32 {
    ((w >> 31) << 20) | (w & 0xF_F000) | (((w >> 20) & 1) << 11) | (((w >> 21) & 0x3FF) << 1)
  }

  function ImmI(w: bv32): bv32 { SignExtend(w >> 20, 0x800) }

  function ImmI2(w: bv32): bv32 { (w >> 20) & 0x3F }

  function ImmS(w: bv32): bv32 { SignExtend(RawImmS(w), 0x800) }

  function ImmB(w: bv32): bv32 { SignExtend(RawImmB(w), 0x1000) }

  function ImmU(w: bv32): bv32 { w >> 12 }

  function ImmJ(w: bv32): bv32 { SignExtend(RawImmJ(w), 0x10_0000) }

  function Csr(w: bv32): bv32 { w >> 20 }

  function ImmField(f: Format, w: bv32): bv32 {
    match f
    case I1 | FdI => ImmI(w)
    case I2 => ImmI2(w)
    case S | FdS => ImmS(w)
    case B => ImmB(w)
    case U => ImmU(w)
    case J => ImmJ(w)
    case CsrI => Rs1Field(w)
    case _ => 0
  }

  function FieldsOf(f: Format, w: bv32): Fields {
    Fields(
      if UsesRd(f) then RdField(w) else 0,
      if UsesRs1(f) then Rs1Field(w) else 0,
      if UsesRs2(f) then Rs2Field(w) else 0,
      if UsesRs3(f) then Rs3Field(w) else 0,
      ImmField(f, w),
      if UsesCsr(f) then Csr(w) else 0,
      if UsesRm(f) then Funct3(w) else 0)
  }

  /** Which mnemonic a word's opcode and function fields stand for. */
  function MnemonicOf(opcode: bv32, funct3: bv32, funct7: bv32, funct5: bv32): Option<Mnemonic> {
    if opcode == 0x33 then IntegerOf(funct3, funct7)
    else if opcode == 0x3B then IntegerWordOf(funct3, funct7)
    else if opcode == 0x13 then ImmediateOf(funct3, funct7)
    else if opcode == 0x1B then ImmediateWordOf(funct3, funct7)
    else if opcode == 3 then LoadOf(funct3)
    else if opcode == 0x67 then
      if funct3 == 0 then Some(InI1(kjalr)) else None
    else if opcode == 0x73 then SystemOf(funct3)
    else if opcode == 0x23 then StoreOf(funct3)
    else if opcode == 0x63 then BranchOf(funct3)
    else if opcode == 0x37 then Some(InU(klui))
    else if opcode == 0x17 then Some(InU(kauipc))
    else if opcode == 0x6F then Some(InJ(kjal))
    else if opcode == 0x53 then FloatOf(funct3, funct7, funct5)
    else if opcode == 0x43 then
      if (funct7 & 3) == 0 then Some(InFdR4(kfmadd_s)) else if (funct7 & 3) == 1 then Some(InFdR4(kfmadd_d)) else None
    else if opcode == 0x47 then
      if (funct7 & 3) == 0 then Some(InFdR4(kfmsub_s)) else if (funct7 & 3) == 1 then Some(InFdR4(kfmsub_d)) else None
    else if opcode == 0x4B then
      if (funct7 & 3) == 0 then Some(InFdR4(kfnmsub_s)) else if (funct7 & 3) == 1 then Some(InFdR4(kfnmsub_d)) else None
    else if opcode == 0x4F then
      if (funct7 & 3) == 0 then Some(InFdR4(kfnmadd_s)) else if (funct7 & 3) == 1 then Some(InFdR4(kfnmadd_d)) else None
    else if opcode == 7 then
      if funct3 == 2 then Some(InFdI(kflw)) else if funct3 == 3 then Some(InFdI(kfld)) else None
    else if opcode == 0x27 then
      if funct3 == 2 then Some(InFdS(kfsw)) else if funct3 == 3 then Some(InFdS(kfsd)) else None
    else None
  }

  function IntegerOf(funct3: bv32, funct7: bv32): Option<Mnemonic> {
    if funct3 == 0 && funct7 == 0 then Some(InR(kadd))
    else if funct3 == 0 && funct7 == 0x20 then Some(InR(ksub))
    else if funct3 == 4 && funct7 == 0 then Some(InR(kxor))
    else if funct3 == 6 && funct7 == 0 then Some(InR(kor))
    else if funct3 == 7 && funct7 == 0 then Some(InR(kand))
    else if funct3 == 1 && funct7 == 0 then Some(InR(ksll))
    else if funct3 == 5 && funct7 == 0 then Some(InR(ksrl))
    else if funct3 == 5 && funct7 == 0x20 then Some(InR(ksra))
    else if funct3 == 2 && funct7 == 0 then Some(InR(kslt))
    else if funct3 == 3 && funct7 == 0 then Some(InR(ksltu))
    else if funct3 == 0 && funct7 == 1 then Some(InR(kmul))
    else if funct3 == 1 && funct7 == 1 then Some(InR(kmulh))
    else if funct3 == 2 && funct7 == 1 then Some(InR(kmulhsu))
    else if funct3 == 3 && funct7 == 1 then Some(InR(kmulhu))
    else if funct3 == 4 && funct7 == 1 then Some(InR(kdiv))
    else if funct3 == 5 && funct7 == 1 then Some(InR(kdivu))
    else if funct3 == 6 && funct7 == 1 then Some(InR(krem))
    else if funct3 == 7 && funct7 == 1 then Some(InR(kremu))
    else None
  }

  function IntegerWordOf(funct3: bv32, funct7: bv32): Option<Mnemonic> {
    if funct3 == 0 && funct7 == 0 then Some(InR(kaddw))
    else if funct3 == 0 && funct7 == 0x20 then Some(InR(ksubw))
    else if funct3 == 1 && funct7 == 0 then Some(InR(ksllw))
    else if funct3 == 5 && funct7 == 0 then Some(InR(ksrlw))
    else if funct3 == 5 && funct7 == 0x20 then Some(InR(ksraw))
    else if funct3 == 0 && funct7 == 1 then Some(InR(kmulw))
    else if funct3 == 4 && funct7 == 1 then Some(InR(kdivw))
    else if funct3 == 5 && funct7 == 1 then Some(InR(kdivuw))
    else if funct3 == 6 && funct7 == 1 then Some(InR(kremw))
    else if funct3 == 7 && funct7 == 1 then Some(InR(kremuw))
    else None
  }

  function ImmediateOf(funct3: bv32, funct7: bv32): Option<Mnemonic> {
    if funct3 == 0 then Some(InI1(kaddi))
    else if funct3 == 4 then Some(InI1(kxori))
    else if funct3 == 6 then Some(InI1(kori))
    else if funct3 == 7 then Some(InI1(kandi))
    else if funct3 == 3 then Some(InI1(ksltiu))
    else if funct3 == 2 then Some(InI1(kslti))
    else if funct3 == 1 && (funct7 >> 1) == 0 then Some(InI2(kslli))
    else if funct3 == 5 && (funct7 >> 1) == 0 then Some(InI2(ksrli))
    else if funct3 == 5 && (funct7 >> 1) == 0x10 then Some(InI2(ksrai))
    else None
  }

  function ImmediateWordOf(funct3: bv32, funct7: bv32): Option<Mnemonic> {
    if funct3 == 0 then Some(InI1(kaddiw))
    else if funct3 == 1 && (funct7 >> 1) == 0 then Some(InI2(kslliw))
    else if funct3 == 5 && (funct7 >> 1) == 0 then Some(InI2(ksrliw))
    else if funct3 == 5 && (funct7 >> 1) == 0x10 then Some(InI2(ksraiw))
    else None
  }

  function LoadOf(funct3: bv32): Option<Mnemonic> {
    if funct3 == 0 then Some(InI1(klb))
    else if funct3 == 1 then Some(InI1(klh))
    else if funct3 == 2 then Some(InI1(klw))
    else if funct3 == 3 then Some(InI1(kld))
    else if funct3 == 4 then Some(InI1(klbu))
    else if funct3 == 5 then Some(InI1(klhu))
    else if funct3 == 6 then Some(InI1(klwu))
    else None
  }

  function SystemOf(funct3: bv32): Option<Mnemonic> {
    if funct3 == 0 then Some(InI3(kecall))
    else if funct3 == 1 then Some(InCsrR(kcsrrw))
    else if funct3 == 2 then Some(InCsrR(kcsrrs))
    else if funct3 == 3 then Some(InCsrR(kcsrrc))
    else if funct3 == 5 then Some(InCsrI(kcsrrwi))
    else if funct3 == 6 then Some(InCsrI(kcsrrsi))
    else if funct3 == 7 then Some(InCsrI(kcsrrci))
    else None
  }

  function StoreOf(funct3: bv32): Option<Mnemonic> {
    if funct3 == 0 then Some(InS(ksb))
    else if funct3 == 1 then Some(InS(ksh))
    else if funct3 == 2 then Some(InS(ksw))
    else if funct3 == 3 then Some(InS(ksd))
    else None
  }

  function BranchOf(funct3: bv32): Option<Mnemonic> {
    if funct3 == 0 then Some(InB(kbeq))
    else if funct3 == 1 then Some(InB(kbne))
    else if funct3 == 4 then Some(InB(kblt))
    else if funct3 == 5 then Some(InB(kbge))
    else if funct3 == 6 then Some(InB(kbltu))
    else if funct3 == 7 then Some(InB(kbgeu))
    else None
  }

  function FloatOf(funct3: bv32, funct7: bv32, funct5: bv32): Option<Mnemonic> {
    if funct7 == 0x10 then
      if funct3 == 0 then Some(InFdR(kfsgnj_s))
      else if funct3 == 1 then Some(InFdR(kfsgnjn_s))
      else if funct3 == 2 then Some(InFdR(kfsgnjx_s))
      else None
    else if funct7 == 0x14 then
      if funct3 == 0 then Some(InFdR(kfmin_s))
      else if funct3 == 1 then Some(InFdR(kfmax_s))
      else None
    else if funct7 == 0x50 then
      if funct3 == 2 then Some(InFdR(kfeq_s))
      else if funct3 == 1 then Some(InFdR(kflt_s))
      else if funct3 == 0 then Some(InFdR(kfle_s))
      else None
    else if funct7 == 0x51 then
      if funct3 == 2 then Some(InFdR(kfeq_d))
      else if funct3 == 1 then Some(InFdR(kflt_d))
      else if funct3 == 0 then Some(InFdR(kfle_d))
      else None
    else if funct7 == 0x11 then
      if funct3 == 0 then Some(InFdR(kfsgnj_d))
      else if funct3 == 1 then Some(InFdR(kfsgnjn_d))
      else if funct3 == 2 then Some(InFdR(kfsgnjx_d))
      else None
    else if funct7 == 0x15 then
      if funct3 == 0 then Some(InFdR(kfmin_d))
      else if funct3 == 1 then Some(InFdR(kfmax_d))
      else None
    else if funct7 == 0 then Some(InFdR1(kfadd_s))
    else if funct7 == 4 then Some(InFdR1(kfsub_s))
    else if funct7 == 8 then Some(InFdR1(kfmul_s))
    else if funct7 == 0xC then Some(InFdR1(kfdiv_s))
    else if funct7 == 1 then Some(InFdR1(kfadd_d))
    else if funct7 == 5 then Some(InFdR1(kfsub_d))
    else if funct7 == 9 then Some(InFdR1(kfmul_d))
    else if funct7 == 0xD then Some(InFdR1(kfdiv_d))
    else if funct7 == 0x2C then
      if funct5 == 0 then Some(InFdR2(kfsqrt_s))
      else None
    else if funct7 == 0x60 then
      if funct5 == 0 then Some(InFdR2(kfcvt_w_s))
      else if funct5 == 1 then Some(InFdR2(kfcvt_wu_s))
      else if funct5 == 2 then Some(InFdR2(kfcvt_l_s))
      else if funct5 == 3 then Some(InFdR2(kfcvt_lu_s))
      else None
    else if funct7 == 0x68 then
      if funct5 == 0 then Some(InFdR2(kfcvt_s_w))
      else if funct5 == 1 then Some(InFdR2(kfcvt_s_wu))
      else if funct5 == 2 then Some(InFdR2(kfcvt_s_l))
      else if funct5 == 3 then Some(InFdR2(kfcvt_s_lu))
      else None
    else if funct7 == 0x2D then
      if funct5 == 0 then Some(InFdR2(kfsqrt_d))
      else None
    else if funct7 == 0x61 then
      if funct5 == 0 then Some(InFdR2(kfcvt_w_d))
      else if funct5 == 1 then Some(InFdR2(kfcvt_wu_d))
      else if funct5 == 2 then Some(InFdR2(kfcvt_l_d))
      else if funct5 == 3 then Some(InFdR2(kfcvt_lu_d))
      else None
    else if funct7 == 0x69 then
      if funct5 == 0 then Some(InFdR2(kfcvt_d_w))
      else if funct5 == 1 then Some(InFdR2(kfcvt_d_wu))
      else if funct5 == 2 then Some(InFdR2(kfcvt_d_l))
      else if funct5 == 3 then Some(InFdR2(kfcvt_d_lu))
      else None
    else if funct7 == 0x20 then
      if funct5 == 1 then Some(InFdR2(kfcvt_s_d))
      else None
    else if funct7 == 0x21 then
      if funct5 == 0 then Some(InFdR2(kfcvt_d_s))
      else None
    else if funct7 == 0x78 then
      if funct3 == 0 && funct5 == 0 then Some(InFdR3(kfmv_w_x))
      else None
    else if funct7 == 0x70 then
      if funct3 == 0 && funct5 == 0 then Some(InFdR3(kfmv_x_w))
      else if funct3 == 1 && funct5 == 0 then Some(InFdR3(kfclass_s))
      else None
    else if funct7 == 0x79 then
      if funct3 == 0 && funct5 == 0 then Some(InFdR3(kfmv_d_x))
      else None
    else if funct7 == 0x71 then
      if funct3 == 0 && funct5 == 0 then Some(InFdR3(kfmv_x_d))
      else if funct3 == 1 && funct5 == 0 then Some(InFdR3(kfclass_d))
      else None
    else None
  }

  function Decode(w: bv32): Option<Insn> {
    match MnemonicOf(Opcode(w), Funct3(w), Funct7(w), Rs2Field(w))
    case None => None
    case Some(op) =>
      match FormatOf(op)
      case None => None
      case Some(f) => Some(Insn(op, FieldsOf(f, w)))
  }

  /*
   * Decoding undoes encoding.
   */

  lemma Pack7Fields(hi: bv32, rs2: bv32, rs1: bv32, mid: bv32, rd: bv32, opcode: bv32)
    requires hi < 0x80 && rs2 < 32 && rs1 < 32 && mid < 8 && rd < 32 && opcode < 0x80
    ensures var w := Pack7(hi, rs2, rs1, mid, rd, opcode);
      && Opcode(w) == opcode && RdField(w) == rd && Funct3(w) == mid
      && Rs1Field(w) == rs1 && Rs2Field(w) == rs2 && Funct7(w) == hi
  {
  }

  lemma Pack12Fields(hi: bv32, rs1: bv32, mid: bv32, rd: bv32, opcode: bv32)
    requires rs1 < 32 && mid < 8 && rd < 32 && opcode < 0x80
    ensures var w := Pack12(hi, rs1, mid, rd, opcode);
      && Opcode(w) == opcode && RdField(w) == rd && Funct3(w) == mid && Rs1Field(w) == rs1
      && w >> 20 == Masked(hi, 0xFFF)
  {
  }

  lemma PackI2Fields(funct6: bv32, imm: bv32, rs1: bv32, funct3: bv32, rd: bv32, opcode: bv32)
    requires funct6 < 0x40 && imm < 64 && rs1 < 32 && funct3 < 8 && rd < 32 && opcode < 0x80
    ensures var w := PackI2(funct6, imm, rs1, funct3, rd, opcode);
      && Opcode(w) == opcode && RdField(w) == rd && Funct3(w) == funct3 && Rs1Field(w) == rs1
      && ImmI2(w) == imm && Funct7(w) >> 1 == funct6
  {
  }

  lemma PackSFields(imm: bv32, rs2: bv32, rs1: bv32, funct3: bv32, opcode: bv32)
    requires rs2 < 32 && rs1 < 32 && funct3 < 8 && opcode < 0x80
    ensures var w := PackS(imm, rs2, rs1, funct3, opcode);
      && Opcode(w) == opcode && Funct3(w) == funct3 && Rs1Field(w) == rs1 && Rs2Field(w) == rs2
      && RawImmS(w) == Masked(imm, 0xFFF)
  {
  }

  lemma PackBFields(imm: bv32, rs2: bv32, rs1: bv32, funct3: bv32, opcode: bv32)
    requires rs2 < 32 && rs1 < 32 && funct3 < 8 && opcode < 0x80
    ensures var w := PackB(imm, rs2, rs1, funct3, opcode);
      && Opcode(w) == opcode && Funct3(w) == funct3 && Rs1Field(w) == rs1 && Rs2Field(w) == rs2
      && RawImmB(w) == Masked(imm, 0x1FFE)
  {
  }

  lemma PackUFields(imm: bv32, rd: bv32, opcode: bv32)
    requires rd < 32 && opcode < 0x80
    ensures var w := PackU(imm, rd, opcode);
      && Opcode(w) == opcode && RdField(w) == rd && ImmU(w) == Masked(imm, 0xF_FFFF)
  {
  }

  lemma PackJFields(imm: bv32, rd: bv32, opcode: bv32)
    requires rd < 32 && opcode < 0x80
    ensures var w := PackJ(imm, rd, opcode);
      && Opcode(w) == opcode && RdField(w) == rd && RawImmJ(w) == Masked(imm, 0x1F_FFFE)
  {
  }

  lemma PackR4Fields(rs3: bv32, funct2: bv32, rs2: bv32, rs1: bv32, rm: bv32, rd: bv32, opcode: bv32)
    requires rs3 < 32 && funct2 < 4 && rs2 < 32 && rs1 < 32 && rm < 8 && rd < 32 && opcode < 0x80
    ensures var w := PackR4(rs3, funct2, rs2, rs1, rm, rd, opcode);
      && Opcode(w) == opcode && RdField(w) == rd && Funct3(w) == rm && Rs1Field(w) == rs1
      && Rs2Field(w) == rs2 && Rs3Field(w) == rs3 && Funct7(w) & 3 == funct2
  {
  }

  /*
   * An immediate in range is the sign extension of the bits its field keeps.
   */

  lemma SignExtendLow12(imm: bv32)
    requires InSigned(imm, 0x800)
    ensures SignExtend(Masked(imm, 0xFFF), 0x800) == imm
  {
    if imm < 0x800 { NonNegative12(imm); } else { Negative12(imm); }
  }

  lemma NonNegative12(imm: bv32)
    requires imm < 0x800
    ensures SignExtend(Masked(imm, 0xFFF), 0x800) == imm
  {
  }

  lemma Negative12(imm: bv32)
    requires Not(imm) < 0x800
    ensures SignExtend(Masked(imm, 0xFFF), 0x800) == imm
  {
  }

  lemma SignExtendLow13(imm: bv32)
    requires InSigned(imm, 0x1000) && !Odd(imm)
    ensures SignExtend(Masked(imm, 0x1FFE), 0x1000) == imm
  {
    if imm < 0x1000 { NonNegative13(imm); } else { Negative13(imm); }
  }

  lemma NonNegative13(imm: bv32)
    requires imm < 0x1000 && !Odd(imm)
    ensures SignExtend(Masked(imm, 0x1FFE), 0x1000) == imm
  {
  }

  lemma Negative13(imm: bv32)
    requires Not(imm) < 0x1000 && !Odd(imm)
    ensures SignExtend(Masked(imm, 0x1FFE), 0x1000) == imm
  {
  }

  lemma SignExtendLow21(imm: bv32)
    requires InSigned(imm, 0x10_0000) && !Odd(imm)
    ensures SignExtend(Masked(imm, 0x1F_FFFE), 0x10_0000) == imm
  {
    if imm < 0x10_0000 { NonNegative21(imm); } else { Negative21(imm); }
  }

  lemma NonNegative21(imm: bv32)
    requires imm < 0x10_0000 && !Odd(imm)
    ensures SignExtend(Masked(imm, 0x1F_FFFE), 0x10_0000) == imm
  {
  }

  lemma Negative21(imm: bv32)
    requires Not(imm) < 0x10_0000 && !Odd(imm)
    ensures SignExtend(Masked(imm, 0x1F_FFFE), 0x10_0000) == imm
  {
  }

  lemma LowIsWhole(x: bv32)
    ensures x < 0x1000 ==> Masked(x, 0xFFF) == x
    ensures x < 32 ==> Masked(x, 0x1F) == x
    ensures x < 8 ==> Masked(x, 7) == x
    ensures x <= 0xF_FFFF ==> Masked(x, 0xF_FFFF) == x
  {
  }

  /*
   * One lemma per format: its word keeps the operands, and its opcode and function fields tell the
   * mnemonic. They say the same thing of seventeen packings; WordDecodes gathers them.
   */

  /** Word `w` of format `f` decodes to mnemonic `op` and operands `x`. */
  predicate Decodes(w: bv32, f: Format, op: Mnemonic, x: Fields) {
    MnemonicOf(Opcode(w), Funct3(w), Funct7(w), Rs2Field(w)) == Some(op) && FieldsOf(f, w) == x
  }

  lemma MnemonicR(name: RName, funct3: bv32, funct7: bv32, funct5: bv32)
    requires funct3 == Funct3R(name) && funct7 == Funct7R(name)
    ensures MnemonicOf(OpcodeR(name), funct3, funct7, funct5) == Some(InR(name))
  {
  }

  lemma MnemonicI1(name: I1Name, funct3: bv32, funct7: bv32, funct5: bv32)
    requires funct3 == Funct3I1(name)
    ensures MnemonicOf(OpcodeI1(name), funct3, funct7, funct5) == Some(InI1(name))
  {
  }

  lemma MnemonicI2(name: I2Name, funct3: bv32, funct7: bv32, funct5: bv32)
    requires funct3 == Funct3I2(name) && funct7 >> 1 == Funct6I2(name)
    ensures MnemonicOf(OpcodeI2(name), funct3, funct7, funct5) == Some(InI2(name))
  {
  }

  lemma MnemonicI3(name: I3Name, funct3: bv32, funct7: bv32, funct5: bv32)
    requires funct3 == 0
    ensures MnemonicOf(0x73, funct3, funct7, funct5) == Some(InI3(name))
  {
  }

  lemma MnemonicS(name: SName, funct3: bv32, funct7: bv32, funct5: bv32)
    requires funct3 == Funct3S(name)
    ensures MnemonicOf(0x23, funct3, funct7, funct5) == Some(InS(name))
  {
  }

  lemma MnemonicB(name: BName, funct3: bv32, funct7: bv32, funct5: bv32)
    requires funct3 == Funct3B(name)
    ensures MnemonicOf(0x63, funct3, funct7, funct5) == Some(InB(name))
  {
  }

  lemma MnemonicU(name: UName, funct3: bv32, funct7: bv32, funct5: bv32)
    ensures MnemonicOf(OpcodeU(name), funct3, funct7, funct5) == Some(InU(name))
  {
  }

  lemma MnemonicJ(name: JName, funct3: bv32, funct7: bv32, funct5: bv32)
    ensures MnemonicOf(0x6F, funct3, funct7, funct5) == Some(InJ(name))
  {
  }

  lemma MnemonicCsrR(name: CsrRName, funct3: bv32, funct7: bv32, funct5: bv32)
    requires funct3 == Funct3CsrR(name)
    ensures MnemonicOf(0x73, funct3, funct7, funct5) == Some(InCsrR(name))
  {
  }

  lemma MnemonicCsrI(name: CsrIName, funct3: bv32, funct7: bv32, funct5: bv32)
    requires funct3 == Funct3CsrI(name)
    ensures MnemonicOf(0x73, funct3, funct7, funct5) == Some(InCsrI(name))
  {
  }

  lemma MnemonicFdR(name: FdRName, funct3: bv32, funct7: bv32, funct5: bv32)
    requires funct3 == Funct3FdR(name) && funct7 == Funct7FdR(name)
    ensures MnemonicOf(0x53, funct3, funct7, funct5) == Some(InFdR(name))
  {
  }

  lemma MnemonicFdR1(name: FdR1Name, funct3: bv32, funct7: bv32, funct5: bv32)
    requires funct7 == Funct7FdR1(name)
    ensures MnemonicOf(0x53, funct3, funct7, funct5) == Some(InFdR1(name))
  {
  }

  lemma MnemonicFdR2(name: FdR2Name, funct3: bv32, funct7: bv32, funct5: bv32)
    requires funct7 == Funct7FdR2(name) && funct5 == Funct5FdR2(name)
    ensures MnemonicOf(0x53, funct3, funct7, funct5) == Some(InFdR2(name))
  {
  }

  lemma MnemonicFdR3(name: FdR3Name, funct3: bv32, funct7: bv32, funct5: bv32)
    requires funct3 == Funct3FdR3(name) && funct7 == Funct7FdR3(name) && funct5 == 0
    ensures MnemonicOf(0x53, funct3, funct7, funct5) == Some(InFdR3(name))
  {
  }

  lemma MnemonicFdR4(name: FdR4Name, funct3: bv32, funct7: bv32, funct5: bv32)
    requires funct7 & 3 == Funct2FdR4(name)
    ensures MnemonicOf(OpcodeFdR4(name), funct3, funct7, funct5) == Some(InFdR4(name))
  {
  }

  lemma MnemonicFdI(name: FdIName, funct3: bv32, funct7: bv32, funct5: bv32)
    requires funct3 == Funct3FdI(name)
    ensures MnemonicOf(7, funct3, funct7, funct5) == Some(InFdI(name))
  {
  }

  lemma MnemonicFdS(name: FdSName, funct3: bv32, funct7: bv32, funct5: bv32)
    requires funct3 == Funct3FdS(name)
    ensures MnemonicOf(0x27, funct3, funct7, funct5) == Some(InFdS(name))
  {
  }

  lemma DecodesR(op: Mnemonic, x: Fields)
    requires FormatOf(op) == Some(R) && WellFormedFields(R, x)
    ensures Decodes(Word(R, op, x), R, op, x)
  {
    hide MnemonicOf, Pack7, Opcode, Funct3, Funct7, RdField, Rs1Field, Rs2Field;
    Pack7Fields(Funct7Of(op), x.rs2, x.rs1, Funct3Of(op), x.rd, OpcodeOf(op));
    var w := Word(R, op, x);
    MnemonicR(op.r, Funct3(w), Funct7(w), Rs2Field(w));
  }

  lemma DecodesI1(op: Mnemonic, x: Fields)
    requires FormatOf(op) == Some(I1) && WellFormedFields(I1, x)
    ensures Decodes(Word(I1, op, x), I1, op, x)
  {
    hide MnemonicOf, Pack12, Opcode, Funct3, Funct7, RdField, Rs1Field, Rs2Field;
    SignExtendLow12(x.imm);
    Pack12Fields(x.imm, x.rs1, Funct3Of(op), x.rd, OpcodeOf(op));
    var w := Word(I1, op, x);
    MnemonicI1(op.i1, Funct3(w), Funct7(w), Rs2Field(w));
  }

  lemma DecodesI2(op: Mnemonic, x: Fields)
    requires FormatOf(op) == Some(I2) && WellFormedFields(I2, x)
    ensures Decodes(Word(I2, op, x), I2, op, x)
  {
    hide MnemonicOf, PackI2, Opcode, Funct3, Funct7, RdField, Rs1Field, Rs2Field;
    PackI2Fields(Funct6Of(op), x.imm, x.rs1, Funct3Of(op), x.rd, OpcodeOf(op));
    var w := Word(I2, op, x);
    MnemonicI2(op.i2, Funct3(w), Funct7(w), Rs2Field(w));
  }

  lemma DecodesI3(op: Mnemonic, x: Fields)
    requires FormatOf(op) == Some(I3) && WellFormedFields(I3, x)
    ensures Decodes(Word(I3, op, x), I3, op, x)
  {
    hide MnemonicOf, Pack12, Opcode, Funct3, Funct7, RdField, Rs1Field, Rs2Field;
    Pack12Fields(0, 0, Funct3Of(op), 0, OpcodeOf(op));
    var w := Word(I3, op, x);
    MnemonicI3(op.i3, Funct3(w), Funct7(w), Rs2Field(w));
  }

  lemma DecodesS(op: Mnemonic, x: Fields)
    requires FormatOf(op) == Some(S) && WellFormedFields(S, x)
    ensures Decodes(Word(S, op, x), S, op, x)
  {
    hide MnemonicOf, PackS, Opcode, Funct3, Funct7, RdField, Rs1Field, Rs2Field;
    SignExtendLow12(x.imm);
    PackSFields(x.imm, x.rs2, x.rs1, Funct3Of(op), OpcodeOf(op));
    var w := Word(S, op, x);
    MnemonicS(op.s, Funct3(w), Funct7(w), Rs2Field(w));
  }

  lemma DecodesB(op: Mnemonic, x: Fields)
    requires FormatOf(op) == Some(B) && WellFormedFields(B, x)
    ensures Decodes(Word(B, op, x), B, op, x)
  {
    hide MnemonicOf, PackB, Opcode, Funct3, Funct7, RdField, Rs1Field, Rs2Field;
    SignExtendLow13(x.imm);
    PackBFields(x.imm, x.rs2, x.rs1, Funct3Of(op), OpcodeOf(op));
    var w := Word(B, op, x);
    MnemonicB(op.b, Funct3(w), Funct7(w), Rs2Field(w));
  }

  lemma DecodesU(op: Mnemonic, x: Fields)
    requires FormatOf(op) == Some(U) && WellFormedFields(U, x)
    ensures Decodes(Word(U, op, x), U, op, x)
  {
    hide MnemonicOf, PackU, Opcode, Funct3, Funct7, RdField, Rs1Field, Rs2Field;
    LowIsWhole(x.imm);
    PackUFields(x.imm, x.rd, OpcodeOf(op));
    var w := Word(U, op, x);
    MnemonicU(op.u, Funct3(w), Funct7(w), Rs2Field(w));
  }

  lemma DecodesJ(op: Mnemonic, x: Fields)
    requires FormatOf(op) == Some(J) && WellFormedFields(J, x)
    ensures Decodes(Word(J, op, x), J, op, x)
  {
    hide MnemonicOf, PackJ, Opcode, Funct3, Funct7, RdField, Rs1Field, Rs2Field;
    SignExtendLow21(x.imm);
    PackJFields(x.imm, x.rd, OpcodeOf(op));
    var w := Word(J, op, x);
    MnemonicJ(op.j, Funct3(w), Funct7(w), Rs2Field(w));
  }

  lemma DecodesCsrR(op: Mnemonic, x: Fields)
    requires FormatOf(op) == Some(CsrR) && WellFormedFields(CsrR, x)
    ensures Decodes(Word(CsrR, op, x), CsrR, op, x)
  {
    hide MnemonicOf, Pack12, Opcode, Funct3, Funct7, RdField, Rs1Field, Rs2Field;
    LowIsWhole(x.csr);
    Pack12Fields(x.csr, x.rs1, Funct3Of(op), x.rd, OpcodeOf(op));
    var w := Word(CsrR, op, x);
    MnemonicCsrR(op.csrR, Funct3(w), Funct7(w), Rs2Field(w));
  }

  lemma DecodesCsrI(op: Mnemonic, x: Fields)
    requires FormatOf(op) == Some(CsrI) && WellFormedFields(CsrI, x)
    ensures Decodes(Word(CsrI, op, x), CsrI, op, x)
  {
    hide MnemonicOf, Pack12, Opcode, Funct3, Funct7, RdField, Rs1Field, Rs2Field;
    LowIsWhole(x.csr);
    LowIsWhole(x.imm);
    Pack12Fields(x.csr, x.imm, Funct3Of(op), x.rd, OpcodeOf(op));
    var w := Word(CsrI, op, x);
    MnemonicCsrI(op.csrI, Funct3(w), Funct7(w), Rs2Field(w));
  }

  lemma DecodesFdR(op: Mnemonic, x: Fields)
    requires FormatOf(op) == Some(FdR) && WellFormedFields(FdR, x)
    ensures Decodes(Word(FdR, op, x), FdR, op, x)
  {
    hide MnemonicOf, Pack7, Opcode, Funct3, Funct7, RdField, Rs1Field, Rs2Field;
    Pack7Fields(Funct7Of(op), x.rs2, x.rs1, Funct3Of(op), x.rd, OpcodeOf(op));
    var w := Word(FdR, op, x);
    MnemonicFdR(op.fdR, Funct3(w), Funct7(w), Rs2Field(w));
  }

  lemma DecodesFdR1(op: Mnemonic, x: Fields)
    requires FormatOf(op) == Some(FdR1) && WellFormedFields(FdR1, x)
    ensures Decodes(Word(FdR1, op, x), FdR1, op, x)
  {
    hide MnemonicOf, Pack7, Opcode, Funct3, Funct7, RdField, Rs1Field, Rs2Field;
    LowIsWhole(x.rm);
    Pack7Fields(Funct7Of(op), x.rs2, x.rs1, x.rm, x.rd, OpcodeOf(op));
    var w := Word(FdR1, op, x);
    MnemonicFdR1(op.fdR1, Funct3(w), Funct7(w), Rs2Field(w));
  }

  lemma DecodesFdR2(op: Mnemonic, x: Fields)
    requires FormatOf(op) == Some(FdR2) && WellFormedFields(FdR2, x)
    ensures Decodes(Word(FdR2, op, x), FdR2, op, x)
  {
    hide MnemonicOf, Pack7, Opcode, Funct3, Funct7, RdField, Rs1Field, Rs2Field;
    LowIsWhole(x.rm);
    Pack7Fields(Funct7Of(op), Funct5Of(op), x.rs1, x.rm, x.rd, OpcodeOf(op));
    var w := Word(FdR2, op, x);
    MnemonicFdR2(op.fdR2, Funct3(w), Funct7(w), Rs2Field(w));
  }

  lemma DecodesFdR3(op: Mnemonic, x: Fields)
    requires FormatOf(op) == Some(FdR3) && WellFormedFields(FdR3, x)
    ensures Decodes(Word(FdR3, op, x), FdR3, op, x)
  {
    hide MnemonicOf, Pack7, Opcode, Funct3, Funct7, RdField, Rs1Field, Rs2Field;
    Pack7Fields(Funct7Of(op), Funct5Of(op), x.rs1, Funct3Of(op), x.rd, OpcodeOf(op));
    var w := Word(FdR3, op, x);
    MnemonicFdR3(op.fdR3, Funct3(w), Funct7(w), Rs2Field(w));
  }

  lemma DecodesFdR4(op: Mnemonic, x: Fields)
    requires FormatOf(op) == Some(FdR4) && WellFormedFields(FdR4, x)
    ensures Decodes(Word(FdR4, op, x), FdR4, op, x)
  {
    hide MnemonicOf, PackR4, Opcode, Funct3, Funct7, RdField, Rs1Field, Rs2Field;
    LowIsWhole(x.rm);
    PackR4Fields(x.rs3, Funct2Of(op), x.rs2, x.rs1, x.rm, x.rd, OpcodeOf(op));
    var w := Word(FdR4, op, x);
    MnemonicFdR4(op.fdR4, Funct3(w), Funct7(w), Rs2Field(w));
  }

  lemma DecodesFdI(op: Mnemonic, x: Fields)
    requires FormatOf(op) == Some(FdI) && WellFormedFields(FdI, x)
    ensures Decodes(Word(FdI, op, x), FdI, op, x)
  {
    hide MnemonicOf, Pack12, Opcode, Funct3, Funct7, RdField, Rs1Field, Rs2Field;
    SignExtendLow12(x.imm);
    Pack12Fields(x.imm, x.rs1, Funct3Of(op), x.rd, OpcodeOf(op));
    var w := Word(FdI, op, x);
    MnemonicFdI(op.fdI, Funct3(w), Funct7(w), Rs2Field(w));
  }

  lemma DecodesFdS(op: Mnemonic, x: Fields)
    requires FormatOf(op) == Some(FdS) && WellFormedFields(FdS, x)
    ensures Decodes(Word(FdS, op, x), FdS, op, x)
  {
    hide MnemonicOf, PackS, Opcode, Funct3, Funct7, RdField, Rs1Field, Rs2Field;
    SignExtendLow12(x.imm);
    PackSFields(x.imm, x.rs2, x.rs1, Funct3Of(op), OpcodeOf(op));
    var w := Word(FdS, op, x);
    MnemonicFdS(op.fdS, Funct3(w), Funct7(w), Rs2Field(w));
  }

  lemma WordDecodes(f: Format, op: Mnemonic, x: Fields)
    requires FormatOf(op) == Some(f) && WellFormedFields(f, x)
    ensures Decodes(Word(f, op, x), f, op, x)
  {
    hide Decodes, Word, WellFormedFields;
    match f
    case R => DecodesR(op, x);
    case I1 => DecodesI1(op, x);
    case I2 => DecodesI2(op, x);
    case I3 => DecodesI3(op, x);
    case S => DecodesS(op, x);
    case B => DecodesB(op, x);
    case U => DecodesU(op, x);
    case J => DecodesJ(op, x);
    case CsrR => DecodesCsrR(op, x);
    case CsrI => DecodesCsrI(op, x);
    case FdR => DecodesFdR(op, x);
    case FdR1 => DecodesFdR1(op, x);
    case FdR2 => DecodesFdR2(op, x);
    case FdR3 => DecodesFdR3(op, x);
    case FdR4 => DecodesFdR4(op, x);
    case FdI => DecodesFdI(op, x);
    case FdS => DecodesFdS(op, x);
  }

  /** Every well-formed instruction is recovered from its word: mnemonic and all operands. */
  lemma DecodeEncode(i: Insn)
    requires WellFormedInsn(i)
    ensures Decode(Encode(i)) == Some(i)
  {
    WordDecodes(FormatOf(i.op).value, i.op, i.fields);
  }

  /** No two distinct well-formed instructions share a word. */
  lemma EncodeInjective(i: Insn, j: Insn)
    requires WellFormedInsn(i) && WellFormedInsn(j) && Encode(i) == Encode(j)
    ensures i == j
  {
    DecodeEncode(i);
    DecodeEncode(j);
  }

  /*
   * From the texts of a unit.
   */

  /** The letters that the register names of a unit start with; the code generator ignores them. */
  datatype Letters = Letters(rd: char, rs1: char, rs2: char, rs3: char)

  function RegisterText(letter: char, r: bv32): string { [letter] + ToText(Nat32(r)) }

  /** The texts that the assembler stores for an instruction: the operands its format has. */
  function UnitOf(i: Insn, c: Letters, line: nat): Unit
    requires FormatOf(i.op).Some?
  {
    var f, x := FormatOf(i.op).value, i.fields;
    Unit(
      i.op,
      if UsesRd(f) then RegisterText(c.rd, x.rd) else "",
      if UsesRs1(f) then RegisterText(c.rs1, x.rs1) else "",
      if UsesRs2(f) then RegisterText(c.rs2, x.rs2) else "",
      if UsesRs3(f) then RegisterText(c.rs3, x.rs3) else "",
      x.csr,
      if UsesImm(f) then ToText(Int32(x.imm)) else "",
      x.rm, "", line)
  }

  lemma NumberOfText(n: int)
    requires IsInt32(n)
    ensures Number(ToText(n)) == Ok(FromInt32(n))
  {
    StoiToText(n);
  }

  lemma RegisterIndexOfText(letter: char, r: bv32)
    requires IsRegister(r)
    ensures RegisterIndex(RegisterText(letter, r)) == Ok(r)
  {
    Powers();
    NatBelow(r, 5, 32);
    FromNatNat(r);
    assert RegisterText(letter, r)[1..] == ToText(Nat32(r));
    NumberOfText(Nat32(r));
  }

  lemma ImmOfText(imm: bv32)
    ensures Number(ToText(Int32(imm))) == Ok(imm)
  {
    FromIntInt(imm);
    NumberOfText(Int32(imm));
  }

  lemma ReadFieldsOfUnit(f: Format, i: Insn, c: Letters, line: nat)
    requires FormatOf(i.op) == Some(f) && WellFormedFields(f, i.fields)
    ensures ReadFields(f, UnitOf(i, c, line)) == Ok(i.fields)
  {
    var x := i.fields;
    if UsesRd(f) { RegisterIndexOfText(c.rd, x.rd); }
    if UsesRs1(f) { RegisterIndexOfText(c.rs1, x.rs1); }
    if UsesRs2(f) { RegisterIndexOfText(c.rs2, x.rs2); }
    if UsesRs3(f) { RegisterIndexOfText(c.rs3, x.rs3); }
    ImmOfText(x.imm);
  }

  /** A well-formed unit generates the encoding of its operands, and decoding that word recovers them all. */
  lemma GenerateThenDecode(i: Insn, c: Letters, line: nat)
    requires WellFormedInsn(i)
    ensures Generate(UnitOf(i, c, line)) == Ok(Encode(i))
    ensures Decode(Encode(i)) == Some(i)
  {
    ReadFieldsOfUnit(FormatOf(i.op).value, i, c, line);
    DecodeEncode(i);
  }

  /**
   Whatever letters their registers are written with and whatever their lines, two units share a word exactly
   when they are the same instruction, across all seventeen formats.
   */
  lemma GenerateInjective(i: Insn, c: Letters, line: nat, j: Insn, d: Letters, other: nat)
    requires WellFormedInsn(i) && WellFormedInsn(j)
    ensures Generate(UnitOf(i, c, line)) == Generate(UnitOf(j, d, other)) <==> i == j
  {
    GenerateThenDecode(i, c, line);
    GenerateThenDecode(j, d, other);
  }
}
