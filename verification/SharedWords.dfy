/**
 When two units share a machine word. The encoder keeps the mnemonic and the operands, but not the register
 file an operand is in, nor the immediate bits that its format has no room for; so two programs can have the
 same words without having the same units, and this says exactly when.
 */
module SharedWords {
  import opened Words
  import opened Text
  import opened Instructions
  import opened Units
  import opened Encoder
  import opened Decoder
  import opened Tokens
  import opened ParserState
  import opened Operands
  import opened OperandTheorems
  import opened LineRoundTrip
  import opened LineMeaning
  import opened EndToEnd
  import opened SourceToCode
  import Assembly

  /** The operands that the format has are the same numbers, as far as its words keep them. */
  predicate SameOperands(f: Format, r: Roles, q: Roles) {
    && (UsesRd(f) ==> RegisterNumberOf(r.rd) == RegisterNumberOf(q.rd))
    && (UsesRs1(f) ==> RegisterNumberOf(r.rs1) == RegisterNumberOf(q.rs1))
    && (UsesRs2(f) ==> RegisterNumberOf(r.rs2) == RegisterNumberOf(q.rs2))
    && (UsesRs3(f) ==> RegisterNumberOf(r.rs3) == RegisterNumberOf(q.rs3))
    && (UsesImm(f) ==> KeptImm(f, r.imm) == KeptImm(f, q.imm))
    && (UsesCsr(f) ==> r.csr == q.csr) && (UsesRm(f) ==> r.rm == q.rm)
  }

  /** Each register is in the same file. */
  predicate SameFiles(f: Format, r: Roles, q: Roles) {
    && (UsesRd(f) ==> r.rd.FpRegister? == q.rd.FpRegister?) && (UsesRs1(f) ==> r.rs1.FpRegister? == q.rs1.FpRegister?)
    && (UsesRs2(f) ==> r.rs2.FpRegister? == q.rs2.FpRegister?) && (UsesRs3(f) ==> r.rs3.FpRegister? == q.rs3.FpRegister?)
  }

  /** The units differ in nothing but their lines and the labels they refer to. */
  predicate Alike(u: Unit, v: Unit) { u == v.(line := u.line, target := u.target) }

  lemma RegisterBitsDiffer(k: Kind, l: Kind)
    ensures RegisterBits(k) == RegisterBits(l) <==> RegisterNumberOf(k) == RegisterNumberOf(l)
  {
    NatFromNat(RegisterNumberOf(k));
    NatFromNat(RegisterNumberOf(l));
  }

  lemma WordsDiffer(m: int, n: int)
    requires IsInt32(m) && IsInt32(n)
    ensures FromInt32(m) == FromInt32(n) <==> m == n
  {
    IntFromInt(m);
    IntFromInt(n);
  }

  lemma KeptIsInt32(f: Format, n: int)
    requires UsesImm(f) && UnitRange(f, n)
    ensures IsInt32(KeptImm(f, n))
  {
  }

  lemma ImmediatesDiffer(f: Format, m: int, n: int)
    requires UsesImm(f) && UnitRange(f, m) && UnitRange(f, n)
    ensures FromInt32(KeptImm(f, m)) == FromInt32(KeptImm(f, n)) <==> KeptImm(f, m) == KeptImm(f, n)
  {
    hide UnitRange, KeptImm, FromInt32;
    KeptIsInt32(f, m);
    KeptIsInt32(f, n);
    WordsDiffer(KeptImm(f, m), KeptImm(f, n));
  }

  lemma FieldsDiffer(f: Format, r: Roles, q: Roles)
    requires UsesImm(f) ==> UnitRange(f, r.imm) && UnitRange(f, q.imm)
    ensures FieldsFor(f, Kept(f, r)) == FieldsFor(f, Kept(f, q)) <==> SameOperands(f, r, q)
  {
    hide UnitRange, KeptImm, FromInt32, RegisterBits, RegisterNumberOf, UsesRd, UsesRs1, UsesRs2, UsesRs3, UsesImm, UsesCsr, UsesRm;
    RegisterBitsDiffer(r.rd, q.rd);
    RegisterBitsDiffer(r.rs1, q.rs1);
    RegisterBitsDiffer(r.rs2, q.rs2);
    RegisterBitsDiffer(r.rs3, q.rs3);
    if UsesImm(f) { ImmediatesDiffer(f, r.imm, q.imm); }
  }

  /** Units share a word exactly when mnemonic and kept operands agree. */
  lemma WordsAgree(u: Unit, x: Sense, v: Unit, y: Sense)
    requires Spells(u, x) && Spells(v, y)
    ensures Generate(u) == Generate(v) <==> x.op == y.op && SameOperands(FormatOf(x.op).value, x.roles, y.roles)
  {
    hide Spells, FieldsFor, SameOperands, Word, WellFormedFields, Generate, Kept;
    SpellsMeans(u, x);
    SpellsMeans(v, y);
    if x.op == y.op { SpelledRanges(u, x); SpelledRanges(v, y); FieldsDiffer(FormatOf(x.op).value, x.roles, y.roles); }
    EncodeDiffers(
      Insn(x.op, FieldsFor(FormatOf(x.op).value, Kept(FormatOf(x.op).value, x.roles))),
      Insn(y.op, FieldsFor(FormatOf(y.op).value, Kept(FormatOf(y.op).value, y.roles))));
  }

  lemma SpelledRanges(u: Unit, x: Sense)
    requires Spells(u, x)
    ensures FormatOf(x.op).Some? && (UsesImm(FormatOf(x.op).value) ==> UnitRange(FormatOf(x.op).value, x.roles.imm))
  {
    hide Texts, Bare, UsesImm, UnitRange;
  }

  lemma EncodeDiffers(i: Insn, j: Insn)
    requires WellFormedInsn(i) && WellFormedInsn(j)
    ensures Encode(i) == Encode(j) <==> i == j
  {
    hide Word, WellFormedFields;
    if Encode(i) == Encode(j) { EncodeInjective(i, j); }
  }

  /*
   * Texts.
   */

  lemma RegisterTextsDiffer(k: Kind, l: Kind)
    requires IsRegisterKind(k) && IsRegisterKind(l)
    ensures Clip(RegisterName(k), REG_CAPACITY) == Clip(RegisterName(l), REG_CAPACITY) <==> k == l
  {
    RegisterNameFits(k);
    RegisterNameFits(l);
    ClipIsIdentity(RegisterName(k), REG_CAPACITY);
    ClipIsIdentity(RegisterName(l), REG_CAPACITY);
    if RegisterName(k) == RegisterName(l) {
      assert RegisterName(k)[1..] == ToText(RegisterNumberOf(k)) && RegisterName(l)[1..] == ToText(RegisterNumberOf(l));
      ToTextInjective(RegisterNumberOf(k), RegisterNumberOf(l));
    }
  }

  lemma RegisterNameFits(k: Kind)
    requires IsRegisterKind(k)
    ensures '\0' !in RegisterName(k) && |RegisterName(k)| <= REG_CAPACITY
  {
    SmallNumber(RegisterNumberOf(k));
    ToTextHasNoNul(RegisterNumberOf(k));
  }

  lemma SameRegister(k: Kind, l: Kind)
    requires IsRegisterKind(k) && IsRegisterKind(l) && RegisterNumberOf(k) == RegisterNumberOf(l)
    ensures k == l <==> k.FpRegister? == l.FpRegister?
  {
  }

  lemma ImmediateTextsDiffer(m: int, n: int)
    requires IsInt32(m) && IsInt32(n)
    ensures Clip(ToText(m), IMM_CAPACITY) == Clip(ToText(n), IMM_CAPACITY) <==> m == n
  {
    hide Clip, ToText;
    ImmFieldHolds(m);
    ImmFieldHolds(n);
    if ToText(m) == ToText(n) { ToTextInjective(m, n); }
  }

  /** One register operand: the texts agree exactly when the files do. */
  predicate FileDecides(used: bool, s: string, t: string, k: Kind, l: Kind) {
    used ==> (s == t <==> k.FpRegister? == l.FpRegister?)
  }

  lemma RegisterTextsAgree(used: bool, s: string, t: string, k: Kind, l: Kind)
    requires used ==> RegisterWritten(s, k) && RegisterWritten(t, l) && RegisterNumberOf(k) == RegisterNumberOf(l)
    ensures FileDecides(used, s, t, k, l)
  {
    hide RegisterNumberOf, Clip, RegisterName;
    if used { RegisterTextsDiffer(k, l); SameRegister(k, l); }
  }

  lemma RegistersAgree(u: Unit, v: Unit, f: Format, r: Roles, q: Roles)
    requires Texts(u, f, r) && Texts(v, f, q) && SameOperands(f, r, q)
    ensures FileDecides(UsesRd(f), u.rd, v.rd, r.rd, q.rd) && FileDecides(UsesRs1(f), u.rs1, v.rs1, r.rs1, q.rs1)
    ensures FileDecides(UsesRs2(f), u.rs2, v.rs2, r.rs2, q.rs2) && FileDecides(UsesRs3(f), u.rs3, v.rs3, r.rs3, q.rs3)
  {
    hide RegisterWritten, RegisterNumberOf, FileDecides, UsesRd, UsesRs1, UsesRs2, UsesRs3, UsesImm, UsesCsr, UsesRm, Clip, ToText;
    RegisterTextsAgree(UsesRd(f), u.rd, v.rd, r.rd, q.rd);
    RegisterTextsAgree(UsesRs1(f), u.rs1, v.rs1, r.rs1, q.rs1);
    RegisterTextsAgree(UsesRs2(f), u.rs2, v.rs2, r.rs2, q.rs2);
    RegisterTextsAgree(UsesRs3(f), u.rs3, v.rs3, r.rs3, q.rs3);
  }

  lemma ImmediatesAgree(u: Unit, v: Unit, f: Format, r: Roles, q: Roles)
    requires Texts(u, f, r) && Texts(v, f, q) && UsesImm(f) && UnitRange(f, r.imm) && UnitRange(f, q.imm)
    ensures u.imm == v.imm <==> r.imm == q.imm
  {
    hide RegisterWritten, Clip, ToText, UsesRd, UsesRs1, UsesRs2, UsesRs3, UsesCsr, UsesRm;
    RangeIsInt32(f, r.imm);
    RangeIsInt32(f, q.imm);
    ImmediateTextsDiffer(r.imm, q.imm);
  }

  /** Of units that share a word, those are alike whose registers are in the same files and whose immediates agree. */
  lemma AlikeIff(u: Unit, x: Sense, v: Unit, y: Sense)
    requires Spells(u, x) && Spells(v, y) && x.op == y.op && SameOperands(FormatOf(x.op).value, x.roles, y.roles)
    ensures var f := FormatOf(x.op).value;
      Alike(u, v) <==> SameFiles(f, x.roles, y.roles) && (UsesImm(f) ==> x.roles.imm == y.roles.imm)
  {
    hide UnitRange, KeptImm, RegisterWritten, RegisterNumberOf, UsesRd, UsesRs1, UsesRs2, UsesRs3, UsesImm, UsesCsr, UsesRm,
      Clip, ToText, FormatOf, UnusedMode;
    var f := FormatOf(x.op).value;
    RegistersAgree(u, v, f, x.roles, y.roles);
    if UsesImm(f) { ImmediatesAgree(u, v, f, x.roles, y.roles); }
  }

  /*
   * Which mnemonics have operands in more than one file.
   */

  /** The conversions whose two syntaxes disagree on the file of a register. */
  predicate SwapsFiles(op: Mnemonic) {
    match op
    case InFdR2(name) =>
      (match name
       case kfcvt_w_d | kfcvt_wu_d | kfcvt_l_d | kfcvt_lu_d | kfcvt_d_w | kfcvt_d_wu | kfcvt_s_d | kfcvt_d_s => true
       case _ => false)
    case _ => false
  }

  predicate RdIsFp(op: Mnemonic) {
    match op
    case InFdR(name) => UnusedMode(op) == DYNAMIC
    case InFdR1(_) | InFdR4(_) | InFdI(_) => true
    case InFdR2(name) =>
      (match name
       case kfcvt_w_s | kfcvt_wu_s | kfcvt_l_s | kfcvt_lu_s => false
       case _ => true)
    case InFdR3(name) => name == kfmv_w_x || name == kfmv_d_x
    case _ => false
  }

  predicate Rs1IsFp(op: Mnemonic) {
    match op
    case InFdR(_) | InFdR1(_) | InFdR4(_) => true
    case InFdR2(name) =>
      (match name
       case kfsqrt_s | kfsqrt_d | kfcvt_w_s | kfcvt_wu_s | kfcvt_l_s | kfcvt_lu_s => true
       case _ => false)
    case InFdR3(name) => name != kfmv_w_x && name != kfmv_d_x
    case _ => false
  }

  predicate Rs2IsFp(op: Mnemonic) { op.InFdR? || op.InFdR1? || op.InFdR4? || op.InFdS? }

  /** Each register operand of the instruction is in the file that its mnemonic has it in. */
  predicate InFiles(x: Sense) {
    && FormatOf(x.op).Some?
    && var f := FormatOf(x.op).value;
       && (UsesRd(f) ==> x.roles.rd.FpRegister? == RdIsFp(x.op)) && (UsesRs1(f) ==> x.roles.rs1.FpRegister? == Rs1IsFp(x.op))
       && (UsesRs2(f) ==> x.roles.rs2.FpRegister? == Rs2IsFp(x.op)) && (UsesRs3(f) ==> x.roles.rs3.FpRegister?)
  }

  lemma FilesAgree(x: Sense, y: Sense)
    requires x.op == y.op && InFiles(x) && InFiles(y)
    ensures SameFiles(FormatOf(x.op).value, x.roles, y.roles)
  {
  }

  /** The registers of a line are in the files that its shape says. */
  predicate InShape(env: Env, s: State, tags: seq<Tag>) {
    && (|tags| > 0 && (tags[0] == Gp || tags[0] == Fp) ==> Peek(env, s, 1).kind.FpRegister? == (tags[0] == Fp))
    && (|tags| > 2 && (tags[2] == Gp || tags[2] == Fp) ==> Peek(env, s, 3).kind.FpRegister? == (tags[2] == Fp))
    && (|tags| > 4 && (tags[4] == Gp || tags[4] == Fp) ==> Peek(env, s, 5).kind.FpRegister? == (tags[4] == Fp))
    && (|tags| > 6 && (tags[6] == Gp || tags[6] == Fp) ==> Peek(env, s, 7).kind.FpRegister? == (tags[6] == Fp))
  }

  lemma LineIsInShape(env: Env, s: State, tags: seq<Tag>)
    requires FitsLine(env, s, tags)
    ensures InShape(env, s, tags)
  {
    hide FitsLine;
    if |tags| > 0 { Tagged(env, s, tags, 0); }
    if |tags| > 2 { Tagged(env, s, tags, 2); }
    if |tags| > 4 { Tagged(env, s, tags, 4); }
    if |tags| > 6 { Tagged(env, s, tags, 6); }
  }

  /** The register places of a line that has no floating-point registers. */
  predicate NoFp(env: Env, s: State, syntax: SyntaxType) {
    && !Peek(env, s, 1).kind.FpRegister? && !Peek(env, s, 3).kind.FpRegister?
    && (syntax != O_GPR_C_I && syntax != O_GPR_C_IL ==> !Peek(env, s, 5).kind.FpRegister?)
  }

  predicate IsInteger(op: Mnemonic) {
    op.InR? || op.InI1? || op.InI2? || op.InI3? || op.InS? || op.InB? || op.InU? || op.InJ? || op.InCsrR? || op.InCsrI?
  }

  lemma IntegerSyntaxes(syntax: SyntaxType, op: Mnemonic)
    requires IsInteger(op) && syntax in Syntaxes(op) && syntax != O_GPR_C_DL && !op.InI3?
    ensures Shape(syntax, op).Some? && syntax != PSEUDO && !IsFused(syntax)
    ensures var tags := Shape(syntax, op).value;
      && |tags| >= 3 && tags[0] == Gp && tags[2] != Fp
      && (syntax == O_GPR_C_I || syntax == O_GPR_C_IL || (|tags| >= 5 && tags[4] != Fp))
  {
  }

  lemma IntegerLineNoFp(env: Env, s: State, syntax: SyntaxType, op: Mnemonic)
    requires IsInteger(op) && Applies(env, s, syntax, op) && syntax != O_GPR_C_DL && !op.InI3?
    ensures NoFp(env, s, syntax)
  {
    hide FitsLine, Syntaxes, Shape;
    IntegerSyntaxes(syntax, op);
    var tags := Shape(syntax, op).value;
    Tagged(env, s, tags, 0);
    Tagged(env, s, tags, 2);
    if |tags| >= 5 { Tagged(env, s, tags, 4); }
  }

  predicate NoFpRoles(r: Roles) {
    !r.rd.FpRegister? && !r.rs1.FpRegister? && !r.rs2.FpRegister?
  }

  lemma IntegerRoles(x: Sense)
    requires IsInteger(x.op) && NoFpRoles(x.roles)
    ensures InFiles(x)
  {
  }

  lemma DestinationIn(syntax: SyntaxType, op: Mnemonic, a1: Kind, a3: Kind, a5: Kind, a7: Kind, a9: Kind)
    ensures RolesIn(syntax, op, a1, a3, a5, a7, a9).rd in [Invalid, a1]
  {
  }

  lemma FirstSourceIn(syntax: SyntaxType, op: Mnemonic, a1: Kind, a3: Kind, a5: Kind, a7: Kind, a9: Kind)
    ensures RolesIn(syntax, op, a1, a3, a5, a7, a9).rs1 in [Invalid, a1, a3, a5]
    ensures syntax == O_GPR_C_I ==> RolesIn(syntax, op, a1, a3, a5, a7, a9).rs1 == Invalid
  {
  }

  lemma SecondSourceIn(syntax: SyntaxType, op: Mnemonic, a1: Kind, a3: Kind, a5: Kind, a7: Kind, a9: Kind)
    ensures RolesIn(syntax, op, a1, a3, a5, a7, a9).rs2 in [Invalid, a1, a3, a5]
    ensures syntax == O_GPR_C_I ==> RolesIn(syntax, op, a1, a3, a5, a7, a9).rs2 == Invalid
  {
  }

  lemma NoFpInRoles(syntax: SyntaxType, op: Mnemonic, a1: Kind, a3: Kind, a5: Kind, a7: Kind, a9: Kind)
    requires !a1.FpRegister? && !a3.FpRegister? && !IsFused(syntax)
    requires syntax != O_GPR_C_I ==> !a5.FpRegister?
    ensures NoFpRoles(RolesIn(syntax, op, a1, a3, a5, a7, a9))
  {
    hide RolesIn;
    DestinationIn(syntax, op, a1, a3, a5, a7, a9);
    FirstSourceIn(syntax, op, a1, a3, a5, a7, a9);
    SecondSourceIn(syntax, op, a1, a3, a5, a7, a9);
  }

  lemma NoFpInLine(env: Env, s: State, symbols: map<string, SymbolData>, k: nat, syntax: SyntaxType, op: Mnemonic)
    requires NoFp(env, s, syntax) && syntax != PSEUDO && syntax != O_GPR_C_DL && !IsFused(syntax)
    ensures forall x <- Meaning(env, symbols, k, s, syntax, op) :: x.op == op && NoFpRoles(x.roles)
  {
    hide Distance, FormatOf, RolesIn;
    if !NamesTarget(syntax) {
      NoFpInRoles(
        syntax, op, Peek(env, s, 1).kind, Peek(env, s, 3).kind, Peek(env, s, 5).kind, Peek(env, s, 7).kind, Peek(env, s, 9).kind);
    }
  }

  predicate IsFused(syntax: SyntaxType) { syntax == O_FPR_C_FPR_C_FPR_C_FPR || syntax == O_FPR_C_FPR_C_FPR_C_FPR_C_RM }

  lemma NoRoles(env: Env, s: State, symbols: map<string, SymbolData>, k: nat, op: Mnemonic)
    requires op.InI3?
    ensures forall x <- Meaning(env, symbols, k, s, O, op) :: InFiles(x)
  {
  }

  lemma IntegerLineFiles(env: Env, s: State, symbols: map<string, SymbolData>, k: nat, syntax: SyntaxType, op: Mnemonic)
    requires IsInteger(op) && Applies(env, s, syntax, op) && syntax != O_GPR_C_DL
    ensures forall x <- Meaning(env, symbols, k, s, syntax, op) :: InFiles(x)
  {
    hide FitsLine, Syntaxes, Shape, NoFp, NoFpRoles, InFiles, Meaning;
    if op.InI3? {
      OnlyBare(syntax, op);
      NoRoles(env, s, symbols, k, op);
    } else {
      IntegerSyntaxes(syntax, op);
      IntegerLineNoFp(env, s, syntax, op);
      NoFpInLine(env, s, symbols, k, syntax, op);
      forall x | x in Meaning(env, symbols, k, s, syntax, op) ensures InFiles(x) { IntegerRoles(x); }
    }
  }

  lemma OnlyBare(syntax: SyntaxType, op: Mnemonic)
    requires op.InI3? && syntax in Syntaxes(op)
    ensures syntax == O
  {
  }

  /** Pairs and constants are made of integer instructions on the line's register. */
  lemma PairFiles(env: Env, symbols: map<string, SymbolData>, k: nat, op: Mnemonic, register: Kind, name: string)
    requires op.InI1? && !register.FpRegister?
    ensures forall x <- PairMeaning(env, symbols, k, op, register, name) :: InFiles(x)
  {
    hide Hi20, Lo12, DataOffset;
  }

  lemma ConstantFiles(register: Kind, n: int)
    requires !register.FpRegister?
    ensures forall x <- LoadMeaning(register, n) :: InFiles(x)
  {
  }

  lemma LabelLoadFiles(env: Env, s: State, symbols: map<string, SymbolData>, k: nat, op: Mnemonic)
    requires Applies(env, s, O_GPR_C_DL, op)
    ensures forall x <- Meaning(env, symbols, k, s, O_GPR_C_DL, op) :: InFiles(x)
  {
    hide FitsLine, Syntaxes, PairMeaning, InFiles;
    LabelLoads(op);
    Tagged(env, s, Shape(O_GPR_C_DL, op).value, 0);
    PairFiles(env, symbols, k, op, Peek(env, s, 1).kind, Peek(env, s, 3).value);
  }

  lemma PseudoFiles(env: Env, s: State, symbols: map<string, SymbolData>, k: nat, op: Mnemonic)
    requires Applies(env, s, PSEUDO, op)
    ensures forall x <- Meaning(env, symbols, k, s, PSEUDO, op) :: InFiles(x)
  {
    hide FitsLine, Syntaxes, PairMeaning, LoadMeaning;
    var tags := PseudoShape(op).value;
    LineIsInShape(env, s, tags);
    var register := Peek(env, s, 1).kind;
    if op == InNone(kla) { PairFiles(env, symbols, k, InI1(kaddi), register, Peek(env, s, 3).value); }
    if op == InNone(kli) { ConstantFiles(register, NumberIn(Peek(env, s, 3).kind)); }
  }

  lemma FusedFiles(env: Env, s: State, symbols: map<string, SymbolData>, k: nat, syntax: SyntaxType, op: Mnemonic)
    requires op.InFdR4? && Applies(env, s, syntax, op)
    ensures forall x <- Meaning(env, symbols, k, s, syntax, op) :: InFiles(x)
  {
    hide FitsLine;
    LineIsInShape(env, s, Shape(syntax, op).value);
  }

  predicate IsFloat(op: Mnemonic) { op.InFdR? || op.InFdR1? || op.InFdR2? || op.InFdR3? }

  predicate HasThree(syntax: SyntaxType) {
    syntax == O_FPR_C_FPR_C_FPR || syntax == O_FPR_C_FPR_C_FPR_C_RM || syntax == O_GPR_C_FPR_C_FPR
  }

  function FileTag(fp: bool): Tag { if fp then Fp else Gp }

  lemma RoundedShape(syntax: SyntaxType, op: Mnemonic)
    requires op.InFdR2? && !SwapsFiles(op) && syntax in Syntaxes(op)
    ensures IsConversion(syntax) && Shape(syntax, op).Some?
    ensures var tags := Shape(syntax, op).value; |tags| >= 3 && tags[0] == FileTag(RdIsFp(op)) && tags[2] == FileTag(Rs1IsFp(op))
  {
  }

  lemma MoveShape(syntax: SyntaxType, op: Mnemonic)
    requires op.InFdR3? && syntax in Syntaxes(op)
    ensures IsConversion(syntax) && Shape(syntax, op).Some?
    ensures var tags := Shape(syntax, op).value; |tags| >= 3 && tags[0] == FileTag(RdIsFp(op)) && tags[2] == FileTag(Rs1IsFp(op))
  {
  }

  lemma ThreeShape(syntax: SyntaxType, op: Mnemonic)
    requires (op.InFdR? || op.InFdR1?) && syntax in Syntaxes(op)
    ensures HasThree(syntax) && Shape(syntax, op).Some?
    ensures var tags := Shape(syntax, op).value;
      |tags| >= 5 && tags[0] == FileTag(RdIsFp(op)) && Rs1IsFp(op) && tags[2] == Fp && tags[4] == Fp
  {
  }

  lemma ConversionMeaning(env: Env, s: State, symbols: map<string, SymbolData>, k: nat, syntax: SyntaxType, op: Mnemonic)
    requires IsConversion(syntax)
    ensures forall x <- Meaning(env, symbols, k, s, syntax, op) ::
      x.op == op && x.roles.rd == Peek(env, s, 1).kind && x.roles.rs1 == Peek(env, s, 3).kind
  {
    hide FormatOf;
  }

  lemma ThreeMeaning(env: Env, s: State, symbols: map<string, SymbolData>, k: nat, syntax: SyntaxType, op: Mnemonic)
    requires HasThree(syntax)
    ensures forall x <- Meaning(env, symbols, k, s, syntax, op) ::
      && x.op == op && x.roles.rd == Peek(env, s, 1).kind && x.roles.rs1 == Peek(env, s, 3).kind
      && x.roles.rs2 == Peek(env, s, 5).kind
  {
    hide FormatOf;
  }

  lemma FloatRoles(x: Sense)
    requires IsFloat(x.op) && x.roles.rd.FpRegister? == RdIsFp(x.op) && x.roles.rs1.FpRegister? == Rs1IsFp(x.op)
    requires x.op.InFdR? || x.op.InFdR1? ==> x.roles.rs2.FpRegister?
    ensures InFiles(x)
  {
  }

  lemma FilesInLine(env: Env, s: State, syntax: SyntaxType, op: Mnemonic)
    requires IsFloat(op) && !SwapsFiles(op) && Applies(env, s, syntax, op)
    ensures HasThree(syntax) || IsConversion(syntax)
    ensures Peek(env, s, 1).kind.FpRegister? == RdIsFp(op) && Peek(env, s, 3).kind.FpRegister? == Rs1IsFp(op)
    ensures op.InFdR? || op.InFdR1? ==> HasThree(syntax) && Peek(env, s, 5).kind.FpRegister?
  {
    hide FitsLine, Syntaxes, Shape, RdIsFp, SwapsFiles;
    var tags := Shape(syntax, op).value;
    LineIsInShape(env, s, tags);
    if op.InFdR2? {
      RoundedShape(syntax, op);
    } else if op.InFdR3? {
      MoveShape(syntax, op);
    } else {
      ThreeShape(syntax, op);
    }
  }

  lemma FloatFiles(env: Env, s: State, symbols: map<string, SymbolData>, k: nat, syntax: SyntaxType, op: Mnemonic)
    requires IsFloat(op) && !SwapsFiles(op) && Applies(env, s, syntax, op)
    ensures forall x <- Meaning(env, symbols, k, s, syntax, op) :: InFiles(x)
  {
    hide FitsLine, Syntaxes, Shape, Meaning, RdIsFp, Rs1IsFp, SwapsFiles, InFiles, HasThree;
    FilesInLine(env, s, syntax, op);
    if HasThree(syntax) { ThreeMeaning(env, s, symbols, k, syntax, op); } else { ConversionMeaning(env, s, symbols, k, syntax, op); }
    forall x | x in Meaning(env, symbols, k, s, syntax, op) ensures InFiles(x) { FloatRoles(x); }
  }

  lemma FloatMemoryFiles(env: Env, s: State, symbols: map<string, SymbolData>, k: nat, syntax: SyntaxType, op: Mnemonic)
    requires (op.InFdI? || op.InFdS?) && Applies(env, s, syntax, op)
    ensures forall x <- Meaning(env, symbols, k, s, syntax, op) :: InFiles(x)
  {
    hide FitsLine;
    LineIsInShape(env, s, Shape(syntax, op).value);
  }

  /** Every mnemonic but eight has its register operands in one file. */
  lemma LineFiles(env: Env, s: State, symbols: map<string, SymbolData>, k: nat, syntax: SyntaxType, op: Mnemonic)
    requires Applies(env, s, syntax, op) && !SwapsFiles(op)
    ensures forall x <- Meaning(env, symbols, k, s, syntax, op) :: InFiles(x)
  {
    hide Meaning, InFiles, FitsLine, Syntaxes, Shape, SwapsFiles;
    if syntax == O_GPR_C_DL { LabelLoadFiles(env, s, symbols, k, op); }
    else if syntax == PSEUDO { PseudoFiles(env, s, symbols, k, op); }
    else if IsInteger(op) { IntegerLineFiles(env, s, symbols, k, syntax, op); }
    else if op.InFdR4? { FusedFiles(env, s, symbols, k, syntax, op); }
    else if op.InFdI? || op.InFdS? { FloatMemoryFiles(env, s, symbols, k, syntax, op); }
    else if op.InNone? { FenceFiles(env, s, symbols, k, syntax, op); }
    else { FloatFiles(env, s, symbols, k, syntax, op); }
  }

  lemma FenceFiles(env: Env, s: State, symbols: map<string, SymbolData>, k: nat, syntax: SyntaxType, op: Mnemonic)
    requires op.InNone? && syntax != PSEUDO && syntax in Syntaxes(op)
    ensures Meaning(env, symbols, k, s, syntax, op) == []
  {
  }

  /*
   * Programs.
   */

  /** The pseudo-instructions and label loads expand to mnemonics that keep to one file. */
  lemma ExpansionsKeepFiles(env: Env, s: State, symbols: map<string, SymbolData>, k: nat, syntax: SyntaxType, op: Mnemonic)
    requires Applies(env, s, syntax, op) && SwapsFiles(op)
    ensures forall x <- Meaning(env, symbols, k, s, syntax, op) :: x.op == op
  {
    hide FitsLine;
  }

  lemma LineSenses(env: Env, s: State, symbols: map<string, SymbolData>, k: nat, syntax: SyntaxType, op: Mnemonic)
    requires Applies(env, s, syntax, op)
    ensures forall x <- Meaning(env, symbols, k, s, syntax, op) :: SwapsFiles(x.op) || InFiles(x)
  {
    hide Applies, Meaning, InFiles, SwapsFiles;
    if SwapsFiles(op) {
      ExpansionsKeepFiles(env, s, symbols, k, syntax, op);
    } else {
      LineFiles(env, s, symbols, k, syntax, op);
    }
  }

  /** The unit spells the instruction, whose registers are in its files if it has such. */
  predicate Sensible(u: Unit, x: Sense) { Spells(u, x) && (SwapsFiles(x.op) || InFiles(x)) }

  /** Every instruction of a program that has code spells something. */
  lemma UnitSpells(env: Env, i: nat) returns (x: Sense)
    requires HasCode(env) && i < |Code(env)|
    ensures Sensible(Assembly.Parse(env).code[i].0, x)
  {
    hide Assembly.Parse, Code, LineMeaningAt, Spells, InFiles, SwapsFiles, FormatOf, Applies;
    HasFormat(env, i);
    var b, p, syntax := UnitHasBlock(env, i);
    SensesAt(env, b, p, syntax);
    var xs := LineMeaningAt(env, b, p, syntax);
    x := xs[i - b];
    assert x in xs;
  }

  lemma SensesAt(env: Env, b: nat, p: nat, syntax: SyntaxType)
    requires Accepted(env) && IsMnemonic(env, p) && Applies(env, StateAt(p), syntax, env.tokens[p].kind.op)
    ensures forall x <- LineMeaningAt(env, b, p, syntax) :: SwapsFiles(x.op) || InFiles(x)
  {
    hide Assembly.Parse, Meaning, SwapsFiles, InFiles, Applies;
    LineSenses(env, StateAt(p), Assembly.Parse(env).symbols, b, syntax, env.tokens[p].kind.op);
  }

  /** What it takes for two units to share a word, and for units that do to be alike. */
  predicate ShareIff(u: Unit, x: Sense, v: Unit, y: Sense) {
    && FormatOf(x.op).Some?
    && var f := FormatOf(x.op).value;
       && (Generate(u) == Generate(v) <==> x.op == y.op && SameOperands(f, x.roles, y.roles))
       && (Generate(u) == Generate(v) ==>
             (Alike(u, v) <==> SameFiles(f, x.roles, y.roles) && (UsesImm(f) ==> x.roles.imm == y.roles.imm)))
       && (Generate(u) == Generate(v) && !SwapsFiles(x.op) ==> SameFiles(f, x.roles, y.roles))
  }

  /**
   Units share a word exactly when they have the same mnemonic and the same operands as far as its format keeps
   them. They are then alike, but for the line and the label, exactly when each register is in the same file
   and the immediates are the same; and the files can only differ for eight conversions.
   */
  lemma UnitsShareIff(u: Unit, x: Sense, v: Unit, y: Sense)
    requires Sensible(u, x) && Sensible(v, y)
    ensures ShareIff(u, x, v, y)
  {
    hide Spells, InFiles, SwapsFiles, SameOperands, SameFiles, Generate, Alike;
    SpelledRanges(u, x);
    WordsAgree(u, x, v, y);
    if Generate(u) == Generate(v) {
      AlikeIff(u, x, v, y);
      if !SwapsFiles(x.op) { FilesAgree(x, y); }
    }
  }

  /** The same of any two instructions of any two programs. */
  lemma ProgramsShareIff(env: Env, i: nat, other: Env, k: nat)
    requires HasCode(env) && i < |Code(env)| && HasCode(other) && k < |Code(other)|
    ensures var u, v := Assembly.Parse(env).code[i].0, Assembly.Parse(other).code[k].0;
      && Generate(u) == Ok(Code(env)[i]) && Generate(v) == Ok(Code(other)[k])
      && exists x: Sense, y: Sense :: Sensible(u, x) && Sensible(v, y) && ShareIff(u, x, v, y)
  {
    hide Assembly.Parse, Code, Sensible, ShareIff, Generate;
    CodeIs(env, i);
    CodeIs(other, k);
    var x := UnitSpells(env, i);
    var y := UnitSpells(other, k);
    UnitsShareIff(Assembly.Parse(env).code[i].0, x, Assembly.Parse(other).code[k].0, y);
  }
}
