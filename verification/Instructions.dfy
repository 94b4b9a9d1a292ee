/**
 The instruction tables of src/common/instructions.cpp: mnemonics, format membership, per-format
 encodings, operand syntaxes, and the extension each floating-point mnemonic is listed under.

 A mnemonic is one constructor of an enumeration; the texts themselves only matter to the lexer. The
 seventeen membership sets are disjoint, so a mnemonic is listed under the one format that has it.
 */
module Instructions {
  import opened Text

  datatype Format =
    R | I1 | I2 | I3 | S | B | U | J | CsrR | CsrI | FdR | FdR1 | FdR2 | FdR3 | FdR4 | FdI | FdS

  datatype RName = kadd | ksub | kand | kor | kxor | ksll | ksrl | ksra | kslt | ksltu | kaddw | ksubw
    | ksllw | ksrlw | ksraw | kmul | kmulh | kmulhsu | kmulhu | kdiv | kdivu | krem | kremu | kmulw
    | kdivw | kdivuw | kremw | kremuw

  datatype I1Name = kaddi | kxori | kori | kandi | kslti | ksltiu | kaddiw | klb | klh | klw | kld
    | klbu | klhu | klwu | kjalr

  datatype I2Name = kslli | ksrli | ksrai | kslliw | ksrliw | ksraiw

  datatype I3Name = kecall

  datatype SName = ksb | ksh | ksw | ksd

  datatype BName = kbeq | kbne | kblt | kbge | kbltu | kbgeu

  datatype UName = klui | kauipc

  datatype JName = kjal

  datatype CsrRName = kcsrrw | kcsrrs | kcsrrc

  datatype CsrIName = kcsrrwi | kcsrrsi | kcsrrci

  datatype FdRName = kfsgnj_s | kfsgnjn_s | kfsgnjx_s | kfmin_s | kfmax_s | kfeq_s | kflt_s | kfle_s
    | kfsgnj_d | kfsgnjn_d | kfsgnjx_d | kfmin_d | kfmax_d | kfeq_d | kflt_d | kfle_d

  datatype FdR1Name = kfadd_s | kfsub_s | kfmul_s | kfdiv_s | kfadd_d | kfsub_d | kfmul_d | kfdiv_d

  datatype FdR2Name = kfsqrt_s | kfcvt_w_s | kfcvt_wu_s | kfcvt_s_w | kfcvt_s_wu | kfcvt_l_s
    | kfcvt_lu_s | kfcvt_s_l | kfcvt_s_lu | kfsqrt_d | kfcvt_s_d | kfcvt_d_s | kfcvt_w_d | kfcvt_wu_d
    | kfcvt_d_w | kfcvt_d_wu | kfcvt_l_d | kfcvt_lu_d | kfcvt_d_l | kfcvt_d_lu

  datatype FdR3Name = kfmv_x_w | kfclass_s | kfmv_w_x | kfclass_d | kfmv_x_d | kfmv_d_x

  datatype FdR4Name = kfmadd_s | kfmsub_s | kfnmsub_s | kfnmadd_s | kfmadd_d | kfmsub_d | kfnmsub_d
    | kfnmadd_d

  datatype FdIName = kflw | kfld

  datatype FdSName = kfsw | kfsd

  /** In no format: the fences and the pseudo-instructions. */
  datatype OtherName = kla | knop | kli | kmv | knot | kneg | knegw | ksextw | kseqz | ksnez | ksltz
    | ksgtz | kbeqz | kbnez | kblez | kbgez | kbltz | kbgtz | kbgt | kble | kbgtu | kbleu | kj | kjr
    | kret | kcall | ktail | kfence | kfence_i

  datatype Mnemonic =
    | InR(r: RName) | InI1(i1: I1Name) | InI2(i2: I2Name) | InI3(i3: I3Name) | InS(s: SName)
    | InB(b: BName) | InU(u: UName) | InJ(j: JName) | InCsrR(csrR: CsrRName) | InCsrI(csrI: CsrIName)
    | InFdR(fdR: FdRName) | InFdR1(fdR1: FdR1Name) | InFdR2(fdR2: FdR2Name) | InFdR3(fdR3: FdR3Name)
    | InFdR4(fdR4: FdR4Name) | InFdI(fdI: FdIName) | InFdS(fdS: FdSName) | InNone(other: OtherName)

  function FormatOf(op: Mnemonic): Option<Format> {
    match op
    case InR(_) => Some(R)
    case InI1(_) => Some(I1)
    case InI2(_) => Some(I2)
    case InI3(_) => Some(I3)
    case InS(_) => Some(S)
    case InB(_) => Some(B)
    case InU(_) => Some(U)
    case InJ(_) => Some(J)
    case InCsrR(_) => Some(CsrR)
    case InCsrI(_) => Some(CsrI)
    case InFdR(_) => Some(FdR)
    case InFdR1(_) => Some(FdR1)
    case InFdR2(_) => Some(FdR2)
    case InFdR3(_) => Some(FdR3)
    case InFdR4(_) => Some(FdR4)
    case InFdI(_) => Some(FdI)
    case InFdS(_) => Some(FdS)
    case InNone(_) => None
  }

  predicate IsIType(op: Mnemonic) { op.InI1? || op.InI2? || op.InI3? }

  predicate IsMExtension(op: Mnemonic) {
    match op
    case InR(name) =>
      (match name
       case kmul | kmulh | kmulhsu | kmulhu | kdiv | kdivu | krem | kremu | kmulw | kdivw | kdivuw
         | kremw | kremuw => true
       case _ => false)
    case _ => false
  }

  /*
   * The seventeen encoding tables, by column. A column is 0 for the formats whose table lacks it.
   */

  function OpcodeR(name: RName): (field: bv32)
    ensures field < 0x80
  {
    match name
    case kaddw | ksubw | ksllw | ksrlw | ksraw | kmulw | kdivw | kdivuw | kremw | kremuw => 0x3B
    case _ => 0x33
  }

  function OpcodeI1(name: I1Name): (field: bv32)
    ensures field < 0x80
  {
    match name
    case kaddi | kxori | kori | kandi | kslti | ksltiu => 0x13
    case kaddiw => 0x1B
    case kjalr => 0x67
    case _ => 3
  }

  function OpcodeI2(name: I2Name): (field: bv32)
    ensures field < 0x80
  {
    match name
    case kslli | ksrli | ksrai => 0x13
    case _ => 0x1B
  }

  function OpcodeU(name: UName): (field: bv32)
    ensures field < 0x80
  {
    match name
    case klui => 0x37
    case _ => 0x17
  }

  function OpcodeFdR4(name: FdR4Name): (field: bv32)
    ensures field < 0x80
  {
    match name
    case kfmadd_s | kfmadd_d => 0x43
    case kfmsub_s | kfmsub_d => 0x47
    case kfnmsub_s | kfnmsub_d => 0x4B
    case _ => 0x4F
  }

  function OpcodeOf(op: Mnemonic): (field: bv32)
    ensures field < 0x80
  {
    match op
    case InR(name) => OpcodeR(name)
    case InI1(name) => OpcodeI1(name)
    case InI2(name) => OpcodeI2(name)
    case InI3(_) | InCsrR(_) | InCsrI(_) => 0x73
    case InS(_) => 0x23
    case InB(_) => 0x63
    case InU(name) => OpcodeU(name)
    case InJ(_) => 0x6F
    case InFdR(_) | InFdR1(_) | InFdR2(_) | InFdR3(_) => 0x53
    case InFdR4(name) => OpcodeFdR4(name)
    case InFdI(_) => 7
    case InFdS(_) => 0x27
    case _ => 0
  }

  function Funct3R(name: RName): (field: bv32)
    ensures field < 8
  {
    match name
    case kadd | ksub | kaddw | ksubw | kmul | kmulw => 0
    case kand | kremu | kremuw => 7
    case kor | krem | kremw => 6
    case kxor | kdiv | kdivw => 4
    case ksll | ksllw | kmulh => 1
    case kslt | kmulhsu => 2
    case ksltu | kmulhu => 3
    case _ => 5
  }

  function Funct3I1(name: I1Name): (field: bv32)
    ensures field < 8
  {
    match name
    case kxori | klbu => 4
    case kori | klwu => 6
    case kandi => 7
    case kslti | klw => 2
    case ksltiu | kld => 3
    case klh => 1
    case klhu => 5
    case _ => 0
  }

  function Funct3I2(name: I2Name): (field: bv32)
    ensures field < 8
  {
    match name
    case kslli | kslliw => 1
    case _ => 5
  }

  function Funct3S(name: SName): (field: bv32)
    ensures field < 8
  {
    match name
    case ksb => 0
    case ksh => 1
    case ksw => 2
    case _ => 3
  }

  function Funct3B(name: BName): (field: bv32)
    ensures field < 8
  {
    match name
    case kbeq => 0
    case kbne => 1
    case kblt => 4
    case kbge => 5
    case kbltu => 6
    case _ => 7
  }

  function Funct3CsrR(name: CsrRName): (field: bv32)
    ensures field < 8
  {
    match name
    case kcsrrw => 1
    case kcsrrs => 2
    case _ => 3
  }

  function Funct3CsrI(name: CsrIName): (field: bv32)
    ensures field < 8
  {
    match name
    case kcsrrwi => 5
    case kcsrrsi => 6
    case _ => 7
  }

  function Funct3FdR(name: FdRName): (field: bv32)
    ensures field < 8
  {
    match name
    case kfsgnj_s | kfmin_s | kfle_s | kfsgnj_d | kfmin_d | kfle_d => 0
    case kfsgnjx_s | kfeq_s | kfsgnjx_d | kfeq_d => 2
    case _ => 1
  }

  function Funct3FdR3(name: FdR3Name): (field: bv32)
    ensures field < 8
  {
    match name
    case kfclass_s | kfclass_d => 1
    case _ => 0
  }

  function Funct3FdI(name: FdIName): (field: bv32)
    ensures field < 8
  {
    match name
    case kflw => 2
    case _ => 3
  }

  function Funct3FdS(name: FdSName): (field: bv32)
    ensures field < 8
  {
    match name
    case kfsw => 2
    case _ => 3
  }

  function Funct3Of(op: Mnemonic): (field: bv32)
    ensures field < 8
  {
    match op
    case InR(name) => Funct3R(name)
    case InI1(name) => Funct3I1(name)
    case InI2(name) => Funct3I2(name)
    case InS(name) => Funct3S(name)
    case InB(name) => Funct3B(name)
    case InCsrR(name) => Funct3CsrR(name)
    case InCsrI(name) => Funct3CsrI(name)
    case InFdR(name) => Funct3FdR(name)
    case InFdR3(name) => Funct3FdR3(name)
    case InFdI(name) => Funct3FdI(name)
    case InFdS(name) => Funct3FdS(name)
    case _ => 0
  }

  function Funct7R(name: RName): (field: bv32)
    ensures field < 0x80
  {
    match name
    case kadd | kand | kor | kxor | ksll | ksrl | kslt | ksltu | kaddw | ksllw | ksrlw => 0
    case ksub | ksra | ksubw | ksraw => 0x20
    case _ => 1
  }

  function Funct7FdR(name: FdRName): (field: bv32)
    ensures field < 0x80
  {
    match name
    case kfsgnj_s | kfsgnjn_s | kfsgnjx_s => 0x10
    case kfmin_s | kfmax_s => 0x14
    case kfeq_s | kflt_s | kfle_s => 0x50
    case kfsgnj_d | kfsgnjn_d | kfsgnjx_d => 0x11
    case kfmin_d | kfmax_d => 0x15
    case _ => 0x51
  }

  function Funct7FdR1(name: FdR1Name): (field: bv32)
    ensures field < 0x80
  {
    match name
    case kfadd_s => 0
    case kfsub_s => 4
    case kfmul_s => 8
    case kfdiv_s => 0xC
    case kfadd_d => 1
    case kfsub_d => 5
    case kfmul_d => 9
    case _ => 0xD
  }

  function Funct7FdR2(name: FdR2Name): (field: bv32)
    ensures field < 0x80
  {
    match name
    case kfsqrt_s => 0x2C
    case kfcvt_w_s | kfcvt_wu_s | kfcvt_l_s | kfcvt_lu_s => 0x60
    case kfcvt_s_w | kfcvt_s_wu | kfcvt_s_l | kfcvt_s_lu => 0x68
    case kfsqrt_d => 0x2D
    case kfcvt_s_d => 0x20
    case kfcvt_d_s => 0x21
    case kfcvt_w_d | kfcvt_wu_d | kfcvt_l_d | kfcvt_lu_d => 0x61
    case _ => 0x69
  }

  function Funct7FdR3(name: FdR3Name): (field: bv32)
    ensures field < 0x80
  {
    match name
    case kfmv_x_w | kfclass_s => 0x70
    case kfmv_w_x => 0x78
    case kfmv_d_x => 0x79
    case _ => 0x71
  }

  function Funct7Of(op: Mnemonic): (field: bv32)
    ensures field < 0x80
  {
    match op
    case InR(name) => Funct7R(name)
    case InFdR(name) => Funct7FdR(name)
    case InFdR1(name) => Funct7FdR1(name)
    case InFdR2(name) => Funct7FdR2(name)
    case InFdR3(name) => Funct7FdR3(name)
    case _ => 0
  }

  function Funct6I2(name: I2Name): (field: bv32)
    ensures field < 0x40
  {
    match name
    case ksrai | ksraiw => 0x10
    case _ => 0
  }

  function Funct6Of(op: Mnemonic): (field: bv32)
    ensures field < 0x40
  {
    match op
    case InI2(name) => Funct6I2(name)
    case _ => 0
  }

  function Funct5FdR2(name: FdR2Name): (field: bv32)
    ensures field < 0x20
  {
    match name
    case kfcvt_wu_s | kfcvt_s_wu | kfcvt_s_d | kfcvt_wu_d | kfcvt_d_wu => 1
    case kfcvt_l_s | kfcvt_s_l | kfcvt_l_d | kfcvt_d_l => 2
    case kfcvt_lu_s | kfcvt_s_lu | kfcvt_lu_d | kfcvt_d_lu => 3
    case _ => 0
  }

  function Funct5Of(op: Mnemonic): (field: bv32)
    ensures field < 0x20
  {
    match op
    case InFdR2(name) => Funct5FdR2(name)
    case _ => 0
  }

  function Funct2FdR4(name: FdR4Name): (field: bv32)
    ensures field < 4
  {
    match name
    case kfmadd_s | kfmsub_s | kfnmsub_s | kfnmadd_s => 0
    case _ => 1
  }

  function Funct2Of(op: Mnemonic): (field: bv32)
    ensures field < 4
  {
    match op
    case InFdR4(name) => Funct2FdR4(name)
    case _ => 0
  }

  /** The M extension is what the register format encodes with a function field of 1. */
  lemma MExtensionIsEncoded(op: Mnemonic)
    ensures IsMExtension(op) <==> op.InR? && Funct7Of(op) == 1
  {
  }

  /*
   * Operand syntaxes.
   */

  datatype SyntaxType =
    | O_GPR_C_GPR_C_GPR | O_GPR_C_GPR_C_I | O_GPR_C_I | O_GPR_C_GPR_C_IL | O_GPR_C_GPR_C_DL | O_GPR_C_IL
    | O_GPR_C_DL | O_GPR_C_I_LP_GPR_RP | O | PSEUDO | O_GPR_C_CSR_C_GPR | O_GPR_C_CSR_C_I
    | O_FPR_C_FPR_C_FPR_C_FPR | O_FPR_C_FPR_C_FPR_C_FPR_C_RM | O_FPR_C_FPR_C_FPR | O_FPR_C_FPR_C_FPR_C_RM
    | O_FPR_C_FPR | O_FPR_C_FPR_C_RM | O_FPR_C_GPR | O_FPR_C_GPR_C_RM | O_GPR_C_FPR | O_GPR_C_FPR_C_RM
    | O_GPR_C_FPR_C_FPR | O_FPR_C_I_LP_GPR_RP

  function SyntaxesR(name: RName): seq<SyntaxType> {
    match name
    case kaddw | ksubw | ksllw | ksrlw | ksraw => []
    case _ => [O_GPR_C_GPR_C_GPR]
  }

  function SyntaxesI1(name: I1Name): seq<SyntaxType> {
    match name
    case kaddiw => []
    case klb | klh | klw | kld => [O_GPR_C_I_LP_GPR_RP, O_GPR_C_DL]
    case klbu | klhu | klwu | kjalr => [O_GPR_C_I_LP_GPR_RP]
    case _ => [O_GPR_C_GPR_C_I]
  }

  function SyntaxesI2(name: I2Name): seq<SyntaxType> {
    match name
    case kslli | ksrli | ksrai => [O_GPR_C_GPR_C_I]
    case _ => []
  }

  function SyntaxesFdR(name: FdRName): seq<SyntaxType> {
    match name
    case kfeq_s | kflt_s | kfle_s | kfeq_d | kflt_d | kfle_d => [O_GPR_C_FPR_C_FPR]
    case _ => [O_FPR_C_FPR_C_FPR]
  }

  function SyntaxesFdR2(name: FdR2Name): seq<SyntaxType> {
    match name
    case kfsqrt_s | kfsqrt_d => [O_FPR_C_FPR, O_FPR_C_FPR_C_RM]
    case kfcvt_w_s | kfcvt_wu_s | kfcvt_l_s | kfcvt_lu_s => [O_GPR_C_FPR, O_GPR_C_FPR_C_RM]
    case kfcvt_s_d | kfcvt_d_s => [O_FPR_C_FPR, O_GPR_C_FPR_C_RM]
    case kfcvt_w_d | kfcvt_wu_d | kfcvt_l_d | kfcvt_lu_d => [O_GPR_C_FPR, O_FPR_C_GPR_C_RM]
    case kfcvt_d_w | kfcvt_d_wu => [O_FPR_C_GPR, O_GPR_C_FPR_C_RM]
    case _ => [O_FPR_C_GPR, O_FPR_C_GPR_C_RM]
  }

  function SyntaxesFdR3(name: FdR3Name): seq<SyntaxType> {
    match name
    case kfmv_w_x | kfmv_d_x => [O_FPR_C_GPR]
    case _ => [O_GPR_C_FPR]
  }

  function SyntaxesOther(name: OtherName): seq<SyntaxType> {
    match name
    case kfence | kfence_i => [O]
    case _ => [PSEUDO]
  }

  /** The operand shapes tried for a mnemonic, in order; a mnemonic missing from the table has none. */
  function Syntaxes(op: Mnemonic): seq<SyntaxType> {
    match op
    case InR(name) => SyntaxesR(name)
    case InI1(name) => SyntaxesI1(name)
    case InI2(name) => SyntaxesI2(name)
    case InI3(_) => [O]
    case InS(_) => [O_GPR_C_I_LP_GPR_RP]
    case InB(_) => [O_GPR_C_GPR_C_I, O_GPR_C_GPR_C_IL]
    case InU(_) => [O_GPR_C_I]
    case InJ(_) => [O_GPR_C_I, O_GPR_C_IL]
    case InCsrR(_) => [O_GPR_C_CSR_C_GPR]
    case InCsrI(_) => [O_GPR_C_CSR_C_I]
    case InFdR(name) => SyntaxesFdR(name)
    case InFdR1(_) => [O_FPR_C_FPR_C_FPR, O_FPR_C_FPR_C_FPR_C_RM]
    case InFdR2(name) => SyntaxesFdR2(name)
    case InFdR3(name) => SyntaxesFdR3(name)
    case InFdR4(_) => [O_FPR_C_FPR_C_FPR_C_FPR, O_FPR_C_FPR_C_FPR_C_FPR_C_RM]
    case InFdI(_) | InFdS(_) => [O_FPR_C_I_LP_GPR_RP]
    case InNone(name) => SyntaxesOther(name)
  }

  /*
   * Floating point.
   */

  datatype Precision = NotFloat | Single | Double

  function PrecisionFdR(name: FdRName): Precision {
    match name
    case kfsgnj_s | kfsgnjn_s | kfsgnjx_s | kfmin_s | kfmax_s | kfeq_s | kflt_s | kfle_s => Single
    case _ => Double
  }

  function PrecisionFdR1(name: FdR1Name): Precision {
    match name
    case kfadd_s | kfsub_s | kfmul_s | kfdiv_s => Single
    case _ => Double
  }

  function PrecisionFdR2(name: FdR2Name): Precision {
    match name
    case kfsqrt_s | kfcvt_w_s | kfcvt_wu_s | kfcvt_s_w | kfcvt_s_wu | kfcvt_l_s | kfcvt_lu_s | kfcvt_s_l
      | kfcvt_s_lu => Single
    case _ => Double
  }

  function PrecisionFdR3(name: FdR3Name): Precision {
    match name
    case kfmv_x_w | kfclass_s | kfmv_w_x => Single
    case _ => Double
  }

  function PrecisionFdR4(name: FdR4Name): Precision {
    match name
    case kfmadd_s | kfmsub_s | kfnmsub_s | kfnmadd_s => Single
    case _ => Double
  }

  function PrecisionFdI(name: FdIName): Precision {
    match name
    case kflw => Single
    case _ => Double
  }

  function PrecisionFdS(name: FdSName): Precision {
    match name
    case kfsw => Single
    case _ => Double
  }

  /** The extension (RV64F or RV64D) a mnemonic is listed under. */
  function PrecisionOf(op: Mnemonic): Precision {
    match op
    case InFdR(name) => PrecisionFdR(name)
    case InFdR1(name) => PrecisionFdR1(name)
    case InFdR2(name) => PrecisionFdR2(name)
    case InFdR3(name) => PrecisionFdR3(name)
    case InFdR4(name) => PrecisionFdR4(name)
    case InFdI(name) => PrecisionFdI(name)
    case InFdS(name) => PrecisionFdS(name)
    case _ => NotFloat
  }
}
