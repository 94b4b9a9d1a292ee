/**
 From an instruction's line to its word and back: the word generated for a line decodes to the line's
 mnemonic, with each operand token in the role that the assembly syntax gives it.
 */
module LineRoundTrip {
  import opened Words
  import opened Text
  import opened Instructions
  import opened Units
  import opened Encoder
  import opened Decoder
  import opened Tokens
  import opened ParserState
  import opened Operands
  import opened OperandTheorems

  /** The operands of an instruction by their roles. */
  datatype Roles = Roles(rd: Kind, rs1: Kind, rs2: Kind, rs3: Kind, imm: int, csr: bv32, rm: bv32)

  const NONE := Roles(Invalid, Invalid, Invalid, Invalid, 0, 0, 0)

  /** Loads and stores write the offset before the base register; stores and branches have no destination; a line without a rounding mode gets the dynamic one, 7. */
  function RolesIn(syntax: SyntaxType, op: Mnemonic, a1: Kind, a3: Kind, a5: Kind, a7: Kind, a9: Kind): Roles {
    match syntax
    case O_GPR_C_GPR_C_GPR | O_GPR_C_FPR_C_FPR => NONE.(rd := a1, rs1 := a3, rs2 := a5)
    case O_GPR_C_GPR_C_I =>
      if op.InB? then NONE.(rs1 := a1, rs2 := a3, imm := NumberIn(a5))
      else NONE.(rd := a1, rs1 := a3, imm := NumberIn(a5))
    case O_GPR_C_I => NONE.(rd := a1, imm := NumberIn(a3))
    case O_GPR_C_I_LP_GPR_RP | O_FPR_C_I_LP_GPR_RP =>
      if op.InS? || op.InFdS? then NONE.(rs2 := a1, imm := NumberIn(a3), rs1 := a5)
      else NONE.(rd := a1, imm := NumberIn(a3), rs1 := a5)
    case O_GPR_C_CSR_C_GPR => NONE.(rd := a1, csr := CsrIn(a3), rs1 := a5)
    case O_GPR_C_CSR_C_I => NONE.(rd := a1, csr := CsrIn(a3), imm := NumberIn(a5))
    case O_FPR_C_FPR_C_FPR_C_FPR => NONE.(rd := a1, rs1 := a3, rs2 := a5, rs3 := a7, rm := 7)
    case O_FPR_C_FPR_C_FPR_C_FPR_C_RM => NONE.(rd := a1, rs1 := a3, rs2 := a5, rs3 := a7, rm := ModeIn(a9))
    case O_FPR_C_FPR_C_FPR => NONE.(rd := a1, rs1 := a3, rs2 := a5, rm := 7)
    case O_FPR_C_FPR_C_FPR_C_RM => NONE.(rd := a1, rs1 := a3, rs2 := a5, rm := ModeIn(a7))
    case O_FPR_C_FPR | O_FPR_C_GPR | O_GPR_C_FPR => NONE.(rd := a1, rs1 := a3, rm := 7)
    case O_FPR_C_FPR_C_RM | O_FPR_C_GPR_C_RM | O_GPR_C_FPR_C_RM => NONE.(rd := a1, rs1 := a3, rm := ModeIn(a5))
    case _ => NONE
  }

  function RolesAt(env: Env, s: State, syntax: SyntaxType, op: Mnemonic): Roles {
    RolesIn(syntax, op, Peek(env, s, 1).kind, Peek(env, s, 3).kind, Peek(env, s, 5).kind, Peek(env, s, 7).kind, Peek(env, s, 9).kind)
  }

  /** The number of a register, whichever file it is in. */
  function RegisterNumberOf(kind: Kind): nat {
    match kind
    case GpRegister(x) => x
    case FpRegister(f) => f
    case _ => 0
  }

  function RegisterBits(kind: Kind): bv32 { FromInt32(RegisterNumberOf(kind)) }

  /** The fields that a format keeps of these operands. */
  function FieldsFor(f: Format, r: Roles): Fields {
    Fields(
      if UsesRd(f) then RegisterBits(r.rd) else 0,
      if UsesRs1(f) then RegisterBits(r.rs1) else 0,
      if UsesRs2(f) then RegisterBits(r.rs2) else 0,
      if UsesRs3(f) then RegisterBits(r.rs3) else 0,
      if UsesImm(f) then FromInt32(r.imm) else 0,
      if UsesCsr(f) then r.csr else 0,
      if UsesRm(f) then r.rm else 0)
  }

  /** The word of the unit decodes to this mnemonic and these operands. */
  predicate DecodesTo(u: Unit, op: Mnemonic, r: Roles)
    requires FormatOf(op).Some?
  {
    Generate(u).Ok? && Decode(Generate(u).value) == Some(Insn(op, FieldsFor(FormatOf(op).value, r)))
  }

  predicate RegisterWritten(text: string, kind: Kind) {
    IsRegisterKind(kind) && text == Clip(RegisterName(kind), REG_CAPACITY)
  }

  /** The immediates that a format's line accepts. */
  predicate LineRange(f: Format, n: int) {
    match f
    case I1 | S | FdI | FdS => -2048 <= n <= 2047
    case I2 | CsrI => 0 <= n <= 31
    case B => -4096 <= n <= 4095 && n % 2 == 0
    case U => 0 <= n <= 1048575
    case J => -1048576 <= n <= 1048575 && n % 2 == 0
    case _ => true
  }

  /** The unit holds the operands that its format needs, as text. */
  predicate Texts(u: Unit, f: Format, r: Roles) {
    && (UsesRd(f) ==> RegisterWritten(u.rd, r.rd)) && (UsesRs1(f) ==> RegisterWritten(u.rs1, r.rs1))
    && (UsesRs2(f) ==> RegisterWritten(u.rs2, r.rs2)) && (UsesRs3(f) ==> RegisterWritten(u.rs3, r.rs3))
    && (UsesImm(f) ==> u.imm == Clip(ToText(r.imm), IMM_CAPACITY))
    && (UsesCsr(f) ==> u.csr == r.csr < 0x1000) && (UsesRm(f) ==> u.rm == r.rm < 8)
  }

  predicate Written(u: Unit, f: Format, r: Roles) {
    Texts(u, f, r) && (UsesImm(f) ==> LineRange(f, r.imm))
  }

  /** Sign injections, minima, maxima and moves are given a rounding mode that their words have no room for. */
  function UnusedMode(op: Mnemonic): bv32 {
    match op
    case InFdR(name) =>
      (match name
       case kfeq_s | kflt_s | kfle_s | kfeq_d | kflt_d | kfle_d => 0
       case _ => DYNAMIC)
    case InFdR3(_) => DYNAMIC
    case _ => 0
  }

  /** Apart from that, the unit holds nothing that its format does not need. */
  predicate Bare(u: Unit, f: Format) {
    && (UsesRd(f) || u.rd == "") && (UsesRs1(f) || u.rs1 == "") && (UsesRs2(f) || u.rs2 == "")
    && (UsesRs3(f) || u.rs3 == "") && (UsesImm(f) || u.imm == "") && (UsesCsr(f) || u.csr == 0)
    && (UsesRm(f) || u.rm == UnusedMode(u.op))
  }

  lemma RegisterReadsBack(text: string, kind: Kind)
    requires RegisterWritten(text, kind)
    ensures RegisterIndex(text) == Ok(RegisterBits(kind)) && RegisterBits(kind) < 32
  {
    var r := RegisterNumberOf(kind);
    SmallNumber(r);
    ToTextHasNoNul(r);
    ClipIsIdentity(RegisterName(kind), REG_CAPACITY);
    assert RegisterName(kind)[1..] == ToText(r);
    NumberOfText(r);
    Powers();
    FromNatBelow(r, 5, 32);
  }

  lemma SmallSignedFits(n: int)
    requires -2048 <= n <= 2047
    ensures InSigned(FromInt32(n), 0x800)
  {
    Powers();
    FromIntRange(n, 11, 0x800);
  }

  lemma BranchFits(n: int)
    requires -4096 <= n <= 4095 && n % 2 == 0
    ensures InSigned(FromInt32(n), 0x1000) && !Odd(FromInt32(n))
  {
    Powers();
    IntFromInt(n);
    FromIntRange(n, 12, 0x1000);
  }

  lemma JumpFits(n: int)
    requires -1048576 <= n <= 1048575 && n % 2 == 0
    ensures InSigned(FromInt32(n), 0x10_0000) && !Odd(FromInt32(n))
  {
    Powers();
    IntFromInt(n);
    FromIntRange(n, 20, 0x10_0000);
  }

  lemma UnsignedFits(n: int)
    ensures 0 <= n <= 31 ==> FromInt32(n) < 32 && FromInt32(n) < 64
    ensures 0 <= n <= 1048575 ==> FromInt32(n) <= 0xF_FFFF
  {
    hide FromNat32;
    Powers();
    if 0 <= n <= 31 { FromNatBelow(n, 5, 32); SmallerThan64(FromInt32(n)); }
    if 0 <= n <= 1048575 { FromNatBelow(n, 20, 0x10_0000); NotAbove(FromInt32(n)); }
  }

  lemma LineRangeFits(f: Format, n: int)
    requires UsesImm(f) && LineRange(f, n)
    ensures ImmFits(f, FromInt32(n)) && IsInt32(n)
  {
    hide FromInt32, InSigned, Odd;
    match f
    case I1 | S | FdI | FdS => SmallSignedFits(n);
    case B => BranchFits(n);
    case J => JumpFits(n);
    case _ => UnsignedFits(n);
  }

  lemma SmallerThan64(b: bv32)
    requires b < 32
    ensures b < 64
  {
  }

  lemma NotAbove(b: bv32)
    requires b < 0x10_0000
    ensures b <= 0xF_FFFF
  {
  }

  lemma RegistersReadBack(u: Unit, r: Roles)
    ensures RegisterWritten(u.rd, r.rd) ==> RegisterIndex(u.rd) == Ok(RegisterBits(r.rd)) && RegisterBits(r.rd) < 32
    ensures RegisterWritten(u.rs1, r.rs1) ==> RegisterIndex(u.rs1) == Ok(RegisterBits(r.rs1)) && RegisterBits(r.rs1) < 32
    ensures RegisterWritten(u.rs2, r.rs2) ==> RegisterIndex(u.rs2) == Ok(RegisterBits(r.rs2)) && RegisterBits(r.rs2) < 32
    ensures RegisterWritten(u.rs3, r.rs3) ==> RegisterIndex(u.rs3) == Ok(RegisterBits(r.rs3)) && RegisterBits(r.rs3) < 32
  {
    hide RegisterWritten, RegisterIndex, RegisterBits;
    if RegisterWritten(u.rd, r.rd) { RegisterReadsBack(u.rd, r.rd); }
    if RegisterWritten(u.rs1, r.rs1) { RegisterReadsBack(u.rs1, r.rs1); }
    if RegisterWritten(u.rs2, r.rs2) { RegisterReadsBack(u.rs2, r.rs2); }
    if RegisterWritten(u.rs3, r.rs3) { RegisterReadsBack(u.rs3, r.rs3); }
  }

  lemma ImmReadsBack(u: Unit, f: Format, n: int)
    ensures UsesImm(f) && u.imm == Clip(ToText(n), IMM_CAPACITY) && LineRange(f, n) ==>
      ImmFits(f, FromInt32(n)) && Encoder.Number(u.imm) == Ok(FromInt32(n))
  {
    hide UsesImm, Clip, ToText, LineRange, ImmFits, FromInt32, Encoder.Number;
    if UsesImm(f) && LineRange(f, n) {
      LineRangeFits(f, n);
      NumberReads(n);
    }
  }

  lemma NoImmFits(f: Format)
    ensures !UsesImm(f) ==> ImmFits(f, 0)
  {
  }

  lemma FieldsWellFormed(u: Unit, f: Format, r: Roles)
    requires Written(u, f, r)
    ensures WellFormedFields(f, FieldsFor(f, r))
  {
    hide RegisterIndex, RegisterBits, RegisterWritten, Encoder.Number, Clip, ToText, FromInt32, LineRange, ImmFits,
      UsesRd, UsesRs1, UsesRs2, UsesRs3, UsesImm, UsesCsr, UsesRm;
    RegistersReadBack(u, r);
    ImmReadsBack(u, f, r.imm);
    NoImmFits(f);
  }

  /** The operands that a format uses read as these words. */
  predicate Reads(u: Unit, f: Format, r: Roles) {
    && (UsesRd(f) ==> RegisterIndex(u.rd) == Ok(RegisterBits(r.rd)))
    && (UsesRs1(f) ==> RegisterIndex(u.rs1) == Ok(RegisterBits(r.rs1)))
    && (UsesRs2(f) ==> RegisterIndex(u.rs2) == Ok(RegisterBits(r.rs2)))
    && (UsesRs3(f) ==> RegisterIndex(u.rs3) == Ok(RegisterBits(r.rs3)))
    && (UsesImm(f) ==> Encoder.Number(u.imm) == Ok(FromInt32(r.imm)))
    && (UsesCsr(f) ==> u.csr == r.csr) && (UsesRm(f) ==> u.rm == r.rm)
  }

  lemma WrittenReads(u: Unit, f: Format, r: Roles)
    requires Written(u, f, r)
    ensures Reads(u, f, r)
  {
    hide RegisterIndex, RegisterBits, RegisterWritten, Encoder.Number, Clip, ToText, FromInt32, LineRange, ImmFits,
      UsesRd, UsesRs1, UsesRs2, UsesRs3, UsesImm, UsesCsr, UsesRm;
    RegistersReadBack(u, r);
    ImmReadsBack(u, f, r.imm);
  }

  lemma ReadFieldsAre(u: Unit, f: Format, r: Roles)
    requires Reads(u, f, r)
    ensures ReadFields(f, u) == Ok(FieldsFor(f, r))
  {
    hide RegisterIndex, RegisterBits, Encoder.Number, FromInt32,
      UsesRd, UsesRs1, UsesRs2, UsesRs3, UsesImm, UsesCsr, UsesRm;
  }

  lemma WrittenFields(u: Unit, f: Format, r: Roles)
    requires Written(u, f, r)
    ensures WellFormedFields(f, FieldsFor(f, r)) && ReadFields(f, u) == Ok(FieldsFor(f, r))
  {
    hide Written, WellFormedFields, FieldsFor, ReadFields, Reads;
    FieldsWellFormed(u, f, r);
    WrittenReads(u, f, r);
    ReadFieldsAre(u, f, r);
  }

  lemma WrittenDecodes(u: Unit, f: Format, r: Roles)
    requires FormatOf(u.op) == Some(f) && Written(u, f, r)
    ensures DecodesTo(u, u.op, r)
  {
    hide ReadFields, FieldsFor, WellFormedFields, Written, Word, Decode;
    WrittenFields(u, f, r);
    DecodeEncode(Insn(u.op, FieldsFor(f, r)));
  }

  /*
   * Syntax by syntax.
   */

  /** The registers of a shape are where it has them. */
  predicate RegistersStand(env: Env, s: State, n: nat) {
    && (n >= 1 ==> IsRegisterKind(Peek(env, s, 1).kind)) && (n >= 2 ==> IsRegisterKind(Peek(env, s, 3).kind))
    && (n >= 3 ==> IsRegisterKind(Peek(env, s, 5).kind)) && (n >= 4 ==> IsRegisterKind(Peek(env, s, 7).kind))
  }

  lemma RegistersAreThere(env: Env, s: State, tags: seq<Tag>, n: nat)
    requires FitsLine(env, s, tags) && n <= 4 && 2 * n <= |tags| + 1
    requires forall i :: 0 <= i < n ==> tags[2 * i] == Gp || tags[2 * i] == Fp
    ensures RegistersStand(env, s, n)
  {
    hide FitsLine;
    if n >= 1 { assert tags[2 * 0] == Gp || tags[2 * 0] == Fp; Tagged(env, s, tags, 0); }
    if n >= 2 { assert tags[2 * 1] == Gp || tags[2 * 1] == Fp; Tagged(env, s, tags, 2); }
    if n >= 3 { assert tags[2 * 2] == Gp || tags[2 * 2] == Fp; Tagged(env, s, tags, 4); }
    if n >= 4 { assert tags[2 * 3] == Gp || tags[2 * 3] == Fp; Tagged(env, s, tags, 6); }
  }

  /*
   * Units, written out operand by operand.
   */

  lemma RegistersWritten(op: Mnemonic, line: nat, a1: Kind, a3: Kind, a5: Kind)
    requires op.InR? && IsRegisterKind(a1) && IsRegisterKind(a3) && IsRegisterKind(a5)
    ensures Stands(WithRs2(WithRs1(WithRd(Blank(op, line), a1), a3), a5), op, NONE.(rd := a1, rs1 := a3, rs2 := a5))
  {
    hide Clip, ToText, RegisterName, DecodesTo;
    WrittenDecodes(WithRs2(WithRs1(WithRd(Blank(op, line), a1), a3), a5), R, NONE.(rd := a1, rs1 := a3, rs2 := a5));
  }

  lemma FloatWritten(op: Mnemonic, line: nat, a1: Kind, a3: Kind, a5: Kind, r: Roles)
    requires op.InFdR? && IsRegisterKind(a1) && IsRegisterKind(a3) && IsRegisterKind(a5)
    requires r == NONE.(rd := a1, rs1 := a3, rs2 := a5, rm := r.rm)
    ensures Stands(WithRs2(WithRs1(WithRd(Blank(op, line), a1), a3), a5).(rm := UnusedMode(op)), op, r)
  {
    hide Clip, ToText, RegisterName, DecodesTo, UnusedMode;
    WrittenDecodes(WithRs2(WithRs1(WithRd(Blank(op, line), a1), a3), a5).(rm := UnusedMode(op)), FdR, r);
  }

  lemma MoveWritten(op: Mnemonic, line: nat, a1: Kind, a3: Kind)
    requires op.InFdR3? && IsRegisterKind(a1) && IsRegisterKind(a3)
    ensures Stands(WithRs1(WithRd(Blank(op, line), a1), a3).(rm := DYNAMIC), op, NONE.(rd := a1, rs1 := a3, rm := DYNAMIC))
  {
    hide Clip, ToText, RegisterName, DecodesTo;
    WrittenDecodes(
      WithRs1(WithRd(Blank(op, line), a1), a3).(rm := DYNAMIC), FdR3, NONE.(rd := a1, rs1 := a3, rm := DYNAMIC));
  }

  lemma ImmediateWritten(op: Mnemonic, line: nat, a1: Kind, a3: Kind, n: int)
    requires (op.InI1? || op.InI2? || op.InFdI?) && IsRegisterKind(a1) && IsRegisterKind(a3)
    requires LineRange(FormatOf(op).value, n)
    ensures Stands(WithImm(WithRs1(WithRd(Blank(op, line), a1), a3), n), op, NONE.(rd := a1, rs1 := a3, imm := n))
  {
    hide Clip, ToText, RegisterName, DecodesTo;
    WrittenDecodes(
      WithImm(WithRs1(WithRd(Blank(op, line), a1), a3), n), FormatOf(op).value, NONE.(rd := a1, rs1 := a3, imm := n));
  }

  lemma StoreWritten(op: Mnemonic, line: nat, a1: Kind, a5: Kind, n: int)
    requires (op.InS? || op.InFdS?) && IsRegisterKind(a1) && IsRegisterKind(a5) && LineRange(S, n)
    ensures Stands(WithImm(WithRs1(WithRs2(Blank(op, line), a1), a5), n), op, NONE.(rs2 := a1, rs1 := a5, imm := n))
  {
    hide Clip, ToText, RegisterName, DecodesTo;
    WrittenDecodes(
      WithImm(WithRs1(WithRs2(Blank(op, line), a1), a5), n), FormatOf(op).value, NONE.(rs2 := a1, rs1 := a5, imm := n));
  }

  lemma UpperWritten(op: Mnemonic, line: nat, a1: Kind, n: int)
    requires (op.InU? || op.InJ?) && IsRegisterKind(a1) && LineRange(FormatOf(op).value, n)
    ensures Stands(WithImm(WithRd(Blank(op, line), a1), n), op, NONE.(rd := a1, imm := n))
  {
    hide Clip, ToText, RegisterName, DecodesTo;
    WrittenDecodes(WithImm(WithRd(Blank(op, line), a1), n), FormatOf(op).value, NONE.(rd := a1, imm := n));
  }

  lemma ConversionWritten(op: Mnemonic, line: nat, a1: Kind, a3: Kind, mode: RoundingMode)
    requires op.InFdR2? && IsRegisterKind(a1) && IsRegisterKind(a3)
    ensures Stands(WithRs1(WithRd(Blank(op, line), a1), a3).(rm := mode), op, NONE.(rd := a1, rs1 := a3, rm := mode))
  {
    hide Clip, ToText, RegisterName, DecodesTo;
    WrittenDecodes(WithRs1(WithRd(Blank(op, line), a1), a3).(rm := mode), FdR2, NONE.(rd := a1, rs1 := a3, rm := mode));
  }

  lemma RoundedWritten(op: Mnemonic, line: nat, a1: Kind, a3: Kind, a5: Kind, mode: RoundingMode)
    requires op.InFdR1? && IsRegisterKind(a1) && IsRegisterKind(a3) && IsRegisterKind(a5)
    ensures Stands(
      WithRs2(WithRs1(WithRd(Blank(op, line), a1), a3), a5).(rm := mode), op,
      NONE.(rd := a1, rs1 := a3, rs2 := a5, rm := mode))
  {
    hide Clip, ToText, RegisterName, DecodesTo;
    WrittenDecodes(
      WithRs2(WithRs1(WithRd(Blank(op, line), a1), a3), a5).(rm := mode), FdR1,
      NONE.(rd := a1, rs1 := a3, rs2 := a5, rm := mode));
  }

  lemma FusedWritten(op: Mnemonic, line: nat, a1: Kind, a3: Kind, a5: Kind, a7: Kind, mode: RoundingMode)
    requires op.InFdR4? && IsRegisterKind(a1) && IsRegisterKind(a3) && IsRegisterKind(a5) && IsRegisterKind(a7)
    ensures Stands(
      WithRs3(WithRs2(WithRs1(WithRd(Blank(op, line), a1), a3), a5), a7).(rm := mode), op,
      NONE.(rd := a1, rs1 := a3, rs2 := a5, rs3 := a7, rm := mode))
  {
    hide Clip, ToText, RegisterName, DecodesTo;
    WrittenDecodes(
      WithRs3(WithRs2(WithRs1(WithRd(Blank(op, line), a1), a3), a5), a7).(rm := mode), FdR4,
      NONE.(rd := a1, rs1 := a3, rs2 := a5, rs3 := a7, rm := mode));
  }

  lemma CsrWritten(op: Mnemonic, line: nat, a1: Kind, csr: CsrAddress, a5: Kind)
    requires op.InCsrR? && IsRegisterKind(a1) && IsRegisterKind(a5)
    ensures Stands(
      WithRs1(WithRd(Blank(op, line), a1).(csr := csr), a5), op, NONE.(rd := a1, csr := csr, rs1 := a5))
  {
    hide Clip, ToText, RegisterName, DecodesTo;
    WrittenDecodes(
      WithRs1(WithRd(Blank(op, line), a1).(csr := csr), a5), CsrR, NONE.(rd := a1, csr := csr, rs1 := a5));
  }

  lemma CsrImmediateWritten(op: Mnemonic, line: nat, a1: Kind, csr: CsrAddress, n: int)
    requires op.InCsrI? && IsRegisterKind(a1) && LineRange(CsrI, n)
    ensures Stands(
      WithImm(WithRd(Blank(op, line), a1).(csr := csr), n), op, NONE.(rd := a1, csr := csr, imm := n))
  {
    hide Clip, ToText, RegisterName, DecodesTo;
    WrittenDecodes(
      WithImm(WithRd(Blank(op, line), a1).(csr := csr), n), CsrI, NONE.(rd := a1, csr := csr, imm := n));
  }

  lemma BranchWritten(op: Mnemonic, line: nat, a1: Kind, a3: Kind, n: int)
    requires op.InB? && IsRegisterKind(a1) && IsRegisterKind(a3) && LineRange(B, n)
    ensures Stands(
      WithImm(WithRs2(WithRs1(Blank(op, line), a1), a3), n), op, NONE.(rs1 := a1, rs2 := a3, imm := n))
  {
    hide Clip, ToText, RegisterName, DecodesTo;
    WrittenDecodes(
      WithImm(WithRs2(WithRs1(Blank(op, line), a1), a3), n), B, NONE.(rs1 := a1, rs2 := a3, imm := n));
  }

  lemma NoMode(op: Mnemonic, line: nat, a1: Kind, a3: Kind, a5: Kind)
    ensures var u := WithRs2(WithRs1(WithRd(Blank(op, line), a1), a3), a5); u.(rm := 0) == u
  {
    hide Clip, RegisterName;
  }

  lemma FourIsEven(n: int)
    ensures n % 4 == 0 ==> n % 2 == 0
  {
    assert n == 2 * (2 * (n / 4)) + n % 4;
  }

  lemma SmallFields(kind: Kind)
    ensures CsrIn(kind) < 0x1000 && ModeIn(kind) < 8 && DYNAMIC < 8
  {
  }

  /** The unit is the instruction with these operands, and its word decodes to it. */
  predicate Stands(u: Unit, op: Mnemonic, r: Roles)
    requires FormatOf(op).Some?
  {
    u.op == op && Written(u, FormatOf(op).value, r) && Bare(u, FormatOf(op).value) && DecodesTo(u, op, r)
  }

  /** What a line's operands yield, when they are accepted, is the line, and decodes to it. */
  predicate LineDecodes(env: Env, s: State, syntax: SyntaxType, op: Mnemonic)
    requires FormatOf(op).Some?
  {
    var p := Build(env, s, syntax, op);
    p.Parsed? ==>
      |p.units| == 1 && p.units[0].1 && Stands(p.units[0].0, op, RolesAt(env, s, syntax, op))
  }

  lemma RegisterLine(env: Env, s: State, syntax: SyntaxType, op: Mnemonic)
    requires op.InR? && Applies(env, s, syntax, op)
    ensures LineDecodes(env, s, syntax, op)
  {
    hide Clip, ToText, RegisterName, FitsLine, Stands, Syntaxes, WithRd, WithRs1, WithRs2, WithRs3, WithImm;
    var line := Current(env, s).line;
    var a1, a3, a5 := Peek(env, s, 1).kind, Peek(env, s, 3).kind, Peek(env, s, 5).kind;
    ThreeRegisterSyntaxes(syntax, op);
    RegistersAreThere(env, s, Shape(syntax, op).value, 3);
    RegistersWritten(op, line, a1, a3, a5);
  }

  lemma FloatLine(env: Env, s: State, syntax: SyntaxType, op: Mnemonic)
    requires op.InFdR? && Applies(env, s, syntax, op)
    ensures LineDecodes(env, s, syntax, op)
  {
    hide Clip, ToText, RegisterName, FitsLine, Stands, Syntaxes, WithRd, WithRs1, WithRs2, WithRs3, WithImm;
    var line := Current(env, s).line;
    var a1, a3, a5 := Peek(env, s, 1).kind, Peek(env, s, 3).kind, Peek(env, s, 5).kind;
    ThreeRegisterSyntaxes(syntax, op);
    RegistersAreThere(env, s, Shape(syntax, op).value, 3);
    FloatWritten(op, line, a1, a3, a5, RolesAt(env, s, syntax, op));
    NoMode(op, line, a1, a3, a5);
  }

  lemma RoundedLine(env: Env, s: State, syntax: SyntaxType, op: Mnemonic)
    requires op.InFdR1? && Applies(env, s, syntax, op)
    ensures LineDecodes(env, s, syntax, op)
  {
    hide Clip, ToText, RegisterName, FitsLine, Stands, Syntaxes, WithRd, WithRs1, WithRs2, WithRs3, WithImm;
    var line := Current(env, s).line;
    var a1, a3, a5 := Peek(env, s, 1).kind, Peek(env, s, 3).kind, Peek(env, s, 5).kind;
    ThreeRegisterSyntaxes(syntax, op);
    RegistersAreThere(env, s, Shape(syntax, op).value, 3);
    SmallFields(Peek(env, s, 7).kind);
    RoundedWritten(op, line, a1, a3, a5, if syntax == O_FPR_C_FPR_C_FPR then DYNAMIC else ModeIn(Peek(env, s, 7).kind));
  }

  lemma ThreeRegisterSyntaxes(syntax: SyntaxType, op: Mnemonic)
    requires syntax in Syntaxes(op)
    ensures op.InR? ==> syntax == O_GPR_C_GPR_C_GPR
    ensures op.InFdR? ==> syntax == (if UnusedMode(op) == DYNAMIC then O_FPR_C_FPR_C_FPR else O_GPR_C_FPR_C_FPR)
    ensures op.InFdR? ==> UnusedMode(op) == DYNAMIC || UnusedMode(op) == 0
    ensures op.InFdR1? ==> syntax == O_FPR_C_FPR_C_FPR || syntax == O_FPR_C_FPR_C_FPR_C_RM
  {
  }

  lemma FusedLine(env: Env, s: State, syntax: SyntaxType, op: Mnemonic)
    requires op.InFdR4? && Applies(env, s, syntax, op)
    ensures LineDecodes(env, s, syntax, op)
  {
    hide Clip, ToText, RegisterName, FitsLine, Stands, Syntaxes, WithRd, WithRs1, WithRs2, WithRs3, WithImm;
    var line := Current(env, s).line;
    var a1, a3, a5 := Peek(env, s, 1).kind, Peek(env, s, 3).kind, Peek(env, s, 5).kind;
    FusedSyntaxes(syntax, op);
    RegistersAreThere(env, s, Shape(syntax, op).value, 4);
    SmallFields(Peek(env, s, 9).kind);
    FusedWritten(
      op, line, a1, a3, a5, Peek(env, s, 7).kind,
      if syntax == O_FPR_C_FPR_C_FPR_C_FPR then DYNAMIC else ModeIn(Peek(env, s, 9).kind));
  }

  lemma FusedSyntaxes(syntax: SyntaxType, op: Mnemonic)
    requires op.InFdR4? && syntax in Syntaxes(op)
    ensures syntax == O_FPR_C_FPR_C_FPR_C_FPR || syntax == O_FPR_C_FPR_C_FPR_C_FPR_C_RM
  {
  }

  predicate IsRounded(syntax: SyntaxType) {
    syntax == O_FPR_C_FPR_C_RM || syntax == O_FPR_C_GPR_C_RM || syntax == O_GPR_C_FPR_C_RM
  }

  lemma PlainConversion(env: Env, s: State, syntax: SyntaxType, op: Mnemonic)
    requires op.InFdR2? && IsConversion(syntax) && !IsRounded(syntax) && Applies(env, s, syntax, op)
    ensures LineDecodes(env, s, syntax, op)
  {
    hide Clip, ToText, RegisterName, FitsLine, Stands, Syntaxes, WithRd, WithRs1, WithRs2, WithRs3, WithImm;
    var line := Current(env, s).line;
    var a1, a3, a5 := Peek(env, s, 1).kind, Peek(env, s, 3).kind, Peek(env, s, 5).kind;
    RegistersAreThere(env, s, Shape(syntax, op).value, 2);
    SmallFields(a5);
    ConversionWritten(op, line, a1, a3, DYNAMIC);
  }

  lemma RoundedConversion(env: Env, s: State, syntax: SyntaxType, op: Mnemonic)
    requires op.InFdR2? && IsRounded(syntax) && Applies(env, s, syntax, op)
    ensures LineDecodes(env, s, syntax, op)
  {
    hide Clip, ToText, RegisterName, FitsLine, Stands, Syntaxes, WithRd, WithRs1, WithRs2, WithRs3, WithImm;
    var line := Current(env, s).line;
    var a1, a3, a5 := Peek(env, s, 1).kind, Peek(env, s, 3).kind, Peek(env, s, 5).kind;
    RegistersAreThere(env, s, Shape(syntax, op).value, 2);
    SmallFields(a5);
    ConversionWritten(op, line, a1, a3, ModeIn(a5));
  }

  lemma ConversionLine(env: Env, s: State, syntax: SyntaxType, op: Mnemonic)
    requires op.InFdR2? && Applies(env, s, syntax, op)
    ensures LineDecodes(env, s, syntax, op)
  {
    hide LineDecodes, Syntaxes, FitsLine;
    ConversionSyntaxes(op, syntax);
    if IsRounded(syntax) { RoundedConversion(env, s, syntax, op); } else { PlainConversion(env, s, syntax, op); }
  }

  lemma MoveLine(env: Env, s: State, syntax: SyntaxType, op: Mnemonic)
    requires op.InFdR3? && Applies(env, s, syntax, op)
    ensures LineDecodes(env, s, syntax, op)
  {
    hide Clip, ToText, RegisterName, FitsLine, Stands, Syntaxes, WithRd, WithRs1, WithRs2, WithRs3, WithImm;
    var line := Current(env, s).line;
    var a1, a3, a5 := Peek(env, s, 1).kind, Peek(env, s, 3).kind, Peek(env, s, 5).kind;
    MoveSyntaxes(syntax, op);
    RegistersAreThere(env, s, Shape(syntax, op).value, 2);
    MoveWritten(op, line, a1, a3);
  }

  lemma MoveSyntaxes(syntax: SyntaxType, op: Mnemonic)
    requires op.InFdR3? && syntax in Syntaxes(op)
    ensures syntax == O_GPR_C_FPR || syntax == O_FPR_C_GPR
  {
  }

  lemma ImmediateLine(env: Env, s: State, syntax: SyntaxType, op: Mnemonic)
    requires op.InI1? && syntax == O_GPR_C_GPR_C_I && Applies(env, s, syntax, op)
    ensures LineDecodes(env, s, syntax, op)
  {
    hide Clip, ToText, RegisterName, FitsLine, Stands, Syntaxes, WithRd, WithRs1, WithRs2, WithRs3, WithImm;
    var line := Current(env, s).line;
    var a1, a3, a5 := Peek(env, s, 1).kind, Peek(env, s, 3).kind, Peek(env, s, 5).kind;
    RegistersAreThere(env, s, Shape(syntax, op).value, 2);
    if Build(env, s, syntax, op).Parsed? { ImmediateWritten(op, line, a1, a3, NumberIn(a5)); }
  }

  lemma ShiftLine(env: Env, s: State, syntax: SyntaxType, op: Mnemonic)
    requires op.InI2? && syntax == O_GPR_C_GPR_C_I && Applies(env, s, syntax, op)
    ensures LineDecodes(env, s, syntax, op)
  {
    hide Clip, ToText, RegisterName, FitsLine, Stands, Syntaxes, WithRd, WithRs1, WithRs2, WithRs3, WithImm;
    var line := Current(env, s).line;
    var a1, a3, a5 := Peek(env, s, 1).kind, Peek(env, s, 3).kind, Peek(env, s, 5).kind;
    RegistersAreThere(env, s, Shape(syntax, op).value, 2);
    if Build(env, s, syntax, op).Parsed? { ImmediateWritten(op, line, a1, a3, NumberIn(a5)); }
  }

  lemma BranchLine(env: Env, s: State, syntax: SyntaxType, op: Mnemonic)
    requires op.InB? && syntax == O_GPR_C_GPR_C_I && Applies(env, s, syntax, op)
    ensures LineDecodes(env, s, syntax, op)
  {
    hide Clip, ToText, RegisterName, FitsLine, Stands, Syntaxes, WithRd, WithRs1, WithRs2, WithRs3, WithImm;
    var line := Current(env, s).line;
    var a1, a3, a5 := Peek(env, s, 1).kind, Peek(env, s, 3).kind, Peek(env, s, 5).kind;
    RegistersAreThere(env, s, Shape(syntax, op).value, 2);
    FourIsEven(NumberIn(a5));
    if Build(env, s, syntax, op).Parsed? { BranchWritten(op, line, a1, a3, NumberIn(a5)); }
  }

  lemma OneRegisterImmediateLine(env: Env, s: State, syntax: SyntaxType, op: Mnemonic)
    requires (op.InU? || op.InJ?) && syntax == O_GPR_C_I && Applies(env, s, syntax, op)
    ensures LineDecodes(env, s, syntax, op)
  {
    hide Clip, ToText, RegisterName, FitsLine, Stands, Syntaxes, WithRd, WithRs1, WithRs2, WithRs3, WithImm;
    var line := Current(env, s).line;
    var a1, a3, a5 := Peek(env, s, 1).kind, Peek(env, s, 3).kind, Peek(env, s, 5).kind;
    RegistersAreThere(env, s, Shape(syntax, op).value, 1);
    if Build(env, s, syntax, op).Parsed? { UpperWritten(op, line, a1, NumberIn(a3)); }
  }

  lemma LoadLine(env: Env, s: State, syntax: SyntaxType, op: Mnemonic)
    requires op.InI1? && syntax == O_GPR_C_I_LP_GPR_RP && Applies(env, s, syntax, op)
    ensures LineDecodes(env, s, syntax, op)
  {
    hide Clip, ToText, RegisterName, FitsLine, Stands, Syntaxes, WithRd, WithRs1, WithRs2, WithRs3, WithImm;
    var line := Current(env, s).line;
    var a1, a3, a5 := Peek(env, s, 1).kind, Peek(env, s, 3).kind, Peek(env, s, 5).kind;
    MemorySyntaxes(syntax, op);
    RegistersAreThere(env, s, Shape(syntax, op).value, 1);
    Tagged(env, s, Shape(syntax, op).value, 4);
    if Build(env, s, syntax, op).Parsed? { ImmediateWritten(op, line, a1, a5, NumberIn(a3)); }
  }

  lemma StoreLine(env: Env, s: State, syntax: SyntaxType, op: Mnemonic)
    requires op.InS? && Applies(env, s, syntax, op)
    ensures LineDecodes(env, s, syntax, op)
  {
    hide Clip, ToText, RegisterName, FitsLine, Stands, Syntaxes, WithRd, WithRs1, WithRs2, WithRs3, WithImm;
    var line := Current(env, s).line;
    var a1, a3, a5 := Peek(env, s, 1).kind, Peek(env, s, 3).kind, Peek(env, s, 5).kind;
    MemorySyntaxes(syntax, op);
    RegistersAreThere(env, s, Shape(syntax, op).value, 1);
    Tagged(env, s, Shape(syntax, op).value, 4);
    if Build(env, s, syntax, op).Parsed? { StoreWritten(op, line, a1, a5, NumberIn(a3)); }
  }

  lemma FloatLoadLine(env: Env, s: State, syntax: SyntaxType, op: Mnemonic)
    requires op.InFdI? && Applies(env, s, syntax, op)
    ensures LineDecodes(env, s, syntax, op)
  {
    hide Clip, ToText, RegisterName, FitsLine, Stands, Syntaxes, WithRd, WithRs1, WithRs2, WithRs3, WithImm;
    var line := Current(env, s).line;
    var a1, a3, a5 := Peek(env, s, 1).kind, Peek(env, s, 3).kind, Peek(env, s, 5).kind;
    MemorySyntaxes(syntax, op);
    RegistersAreThere(env, s, Shape(syntax, op).value, 1);
    Tagged(env, s, Shape(syntax, op).value, 4);
    if Build(env, s, syntax, op).Parsed? { ImmediateWritten(op, line, a1, a5, NumberIn(a3)); }
  }

  lemma FloatStoreLine(env: Env, s: State, syntax: SyntaxType, op: Mnemonic)
    requires op.InFdS? && Applies(env, s, syntax, op)
    ensures LineDecodes(env, s, syntax, op)
  {
    hide Clip, ToText, RegisterName, FitsLine, Stands, Syntaxes, WithRd, WithRs1, WithRs2, WithRs3, WithImm;
    var line := Current(env, s).line;
    var a1, a3, a5 := Peek(env, s, 1).kind, Peek(env, s, 3).kind, Peek(env, s, 5).kind;
    MemorySyntaxes(syntax, op);
    RegistersAreThere(env, s, Shape(syntax, op).value, 1);
    Tagged(env, s, Shape(syntax, op).value, 4);
    if Build(env, s, syntax, op).Parsed? { StoreWritten(op, line, a1, a5, NumberIn(a3)); }
  }

  lemma MemorySyntaxes(syntax: SyntaxType, op: Mnemonic)
    requires syntax in Syntaxes(op)
    ensures op.InS? ==> syntax == O_GPR_C_I_LP_GPR_RP
    ensures op.InFdI? || op.InFdS? ==> syntax == O_FPR_C_I_LP_GPR_RP
  {
  }

  lemma CsrLine(env: Env, s: State, syntax: SyntaxType, op: Mnemonic)
    requires (op.InCsrR? || op.InCsrI?) && Applies(env, s, syntax, op)
    ensures LineDecodes(env, s, syntax, op)
  {
    hide Clip, ToText, RegisterName, FitsLine, Stands, Syntaxes, WithRd, WithRs1, WithRs2, WithRs3, WithImm;
    var line := Current(env, s).line;
    var a1, a3, a5 := Peek(env, s, 1).kind, Peek(env, s, 3).kind, Peek(env, s, 5).kind;
    CsrSyntaxes(syntax, op);
    RegistersAreThere(env, s, Shape(syntax, op).value, 1);
    SmallFields(a3);
    if op.InCsrR? {
      Tagged(env, s, Shape(syntax, op).value, 4);
      CsrWritten(op, line, a1, CsrIn(a3), a5);
    } else if Build(env, s, syntax, op).Parsed? {
      CsrImmediateWritten(op, line, a1, CsrIn(a3), NumberIn(a5));
    }
  }

  lemma CsrSyntaxes(syntax: SyntaxType, op: Mnemonic)
    requires syntax in Syntaxes(op)
    ensures op.InCsrR? ==> syntax == O_GPR_C_CSR_C_GPR
    ensures op.InCsrI? ==> syntax == O_GPR_C_CSR_C_I
  {
  }

  lemma BareLine(env: Env, s: State, syntax: SyntaxType, op: Mnemonic)
    requires op.InI3? && Applies(env, s, syntax, op)
    ensures LineDecodes(env, s, syntax, op)
  {
    hide Clip, ToText, FitsLine, DecodesTo;
    WrittenDecodes(Build(env, s, syntax, op).units[0].0, I3, RolesAt(env, s, syntax, op));
  }

  predicate NamesLabel(syntax: SyntaxType) {
    syntax == O_GPR_C_GPR_C_IL || syntax == O_GPR_C_IL || syntax == O_GPR_C_DL
  }

  /**
   Assembling a line and decoding its word gives the line back, for every mnemonic that has a format and
   every syntax it has, unless the line names a label.
   */
  lemma LinesDecode(env: Env, s: State, syntax: SyntaxType, op: Mnemonic)
    requires FormatOf(op).Some? && Applies(env, s, syntax, op) && !NamesLabel(syntax)
    ensures LineDecodes(env, s, syntax, op)
  {
    SyntaxOfFormat(syntax, op);
    hide LineDecodes, Applies, Syntaxes;
    match op
    case InR(_) => RegisterLine(env, s, syntax, op);
    case InI1(_) =>
      if syntax == O_GPR_C_GPR_C_I { ImmediateLine(env, s, syntax, op); }
      else { LoadLine(env, s, syntax, op); }
    case InI2(_) => ShiftLine(env, s, syntax, op);
    case InI3(_) => BareLine(env, s, syntax, op);
    case InS(_) => StoreLine(env, s, syntax, op);
    case InB(_) => BranchLine(env, s, syntax, op);
    case InU(_) => OneRegisterImmediateLine(env, s, syntax, op);
    case InJ(_) => OneRegisterImmediateLine(env, s, syntax, op);
    case InCsrR(_) => CsrLine(env, s, syntax, op);
    case InCsrI(_) => CsrLine(env, s, syntax, op);
    case InFdR(_) => FloatLine(env, s, syntax, op);
    case InFdR1(_) => RoundedLine(env, s, syntax, op);
    case InFdR2(_) => ConversionLine(env, s, syntax, op);
    case InFdR3(_) => MoveLine(env, s, syntax, op);
    case InFdR4(_) => FusedLine(env, s, syntax, op);
    case InFdI(_) => FloatLoadLine(env, s, syntax, op);
    case InFdS(_) => FloatStoreLine(env, s, syntax, op);
    case InNone(_) =>
  }

  lemma SyntaxOfFormat(syntax: SyntaxType, op: Mnemonic)
    requires syntax in Syntaxes(op) && !NamesLabel(syntax)
    ensures op.InI1? ==> syntax == O_GPR_C_GPR_C_I || syntax == O_GPR_C_I_LP_GPR_RP
    ensures op.InI2? || op.InB? ==> syntax == O_GPR_C_GPR_C_I
    ensures op.InU? || op.InJ? ==> syntax == O_GPR_C_I
  {
  }

  /** A line that names a label to branch or jump to keeps its registers in their roles. */
  lemma LabelLinesKeepRegisters(env: Env, s: State, syntax: SyntaxType, op: Mnemonic)
    requires (op.InB? && syntax == O_GPR_C_GPR_C_IL) || (op.InJ? && syntax == O_GPR_C_IL)
    requires Applies(env, s, syntax, op)
    ensures var p := Build(env, s, syntax, op);
      p.Parsed? ==>
        && |p.units| == 1
        && (op.InB? ==>
              && RegisterIndex(p.units[0].0.rs1) == Ok(RegisterBits(Peek(env, s, 1).kind))
              && RegisterIndex(p.units[0].0.rs2) == Ok(RegisterBits(Peek(env, s, 3).kind))
              && p.units[0].0.target == Peek(env, s, 5).value)
        && (op.InJ? ==>
              && RegisterIndex(p.units[0].0.rd) == Ok(RegisterBits(Peek(env, s, 1).kind))
              && p.units[0].0.target == Peek(env, s, 3).value)
  {
    hide Clip, ToText, RegisterName, FitsLine, RegisterIndex, RegisterBits, Syntaxes, Offset;
    RegistersAreThere(env, s, Shape(syntax, op).value, if op.InB? then 2 else 1);
    RegisterReadsBack(Clip(RegisterName(Peek(env, s, 1).kind), REG_CAPACITY), Peek(env, s, 1).kind);
    if op.InB? {
      RegisterReadsBack(Clip(RegisterName(Peek(env, s, 3).kind), REG_CAPACITY), Peek(env, s, 3).kind);
    }
  }

  lemma FixedPseudo(env: Env, s: State, op: Mnemonic)
    requires (op == InNone(knop) || op == InNone(kret)) && Applies(env, s, PSEUDO, op)
    ensures var p := Pseudo(env, s, op);
      && p.Parsed? && |p.units| == 1 && p.units[0].1
      && (op == InNone(knop) ==> Stands(p.units[0].0, InI1(kaddi), NOP))
      && (op == InNone(kret) ==> Stands(p.units[0].0, InI1(kjalr), RET))
  {
    hide Clip, ToText, RegisterName, FitsLine, Stands, WithRd, WithRs1, WithRs2, WithImm;
    var line := Current(env, s).line;
    ImmediateWritten(InI1(kaddi), line, GpRegister(0), GpRegister(0), 0);
    ImmediateWritten(InI1(kjalr), line, GpRegister(0), GpRegister(1), 0);
  }

  lemma CopyPseudo(env: Env, s: State, op: Mnemonic)
    requires (op == InNone(kmv) || op == InNone(knot)) && Applies(env, s, PSEUDO, op)
    ensures var p := Pseudo(env, s, op);
      && p.Parsed? && |p.units| == 1 && p.units[0].1
      && var a1, a3 := Peek(env, s, 1).kind, Peek(env, s, 3).kind;
         && (op == InNone(kmv) ==> Stands(p.units[0].0, InR(kadd), NONE.(rd := a1, rs1 := a3, rs2 := GpRegister(0))))
         && (op == InNone(knot) ==> Stands(p.units[0].0, InI1(kxori), NONE.(rd := a1, rs1 := a3, imm := -1)))
  {
    hide Clip, ToText, RegisterName, FitsLine, Stands, WithRd, WithRs1, WithRs2, WithImm;
    var line := Current(env, s).line;
    var a1, a3 := Peek(env, s, 1).kind, Peek(env, s, 3).kind;
    RegistersAreThere(env, s, PseudoShape(op).value, 2);
    RegistersWritten(InR(kadd), line, a1, a3, GpRegister(0));
    ImmediateWritten(InI1(kxori), line, a1, a3, -1);
  }

  const NOP := NONE.(rd := GpRegister(0), rs1 := GpRegister(0))

  const RET := NONE.(rd := GpRegister(0), rs1 := GpRegister(1))

  /** `nop`, `mv`, `not` and `ret` assemble to the instructions that they stand for. */
  lemma PseudosDecode(env: Env, s: State, op: Mnemonic)
    requires op in {InNone(knop), InNone(kmv), InNone(knot), InNone(kret)} && Applies(env, s, PSEUDO, op)
    ensures var p := Pseudo(env, s, op);
      && p.Parsed? && |p.units| == 1 && p.units[0].1
      && var u, a1, a3 := p.units[0].0, Peek(env, s, 1).kind, Peek(env, s, 3).kind;
         && (op == InNone(knop) ==> Stands(u, InI1(kaddi), NOP))
         && (op == InNone(kmv) ==> Stands(u, InR(kadd), NONE.(rd := a1, rs1 := a3, rs2 := GpRegister(0))))
         && (op == InNone(knot) ==> Stands(u, InI1(kxori), NONE.(rd := a1, rs1 := a3, imm := -1)))
         && (op == InNone(kret) ==> Stands(u, InI1(kjalr), RET))
  {
    hide Pseudo, Stands, Applies;
    if op == InNone(knop) || op == InNone(kret) { FixedPseudo(env, s, op); } else { CopyPseudo(env, s, op); }
  }
}
