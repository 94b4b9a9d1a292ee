/**
 What the operand parsers yield: units of the current line that refer to no label, aim at a label already
 defined, or are open branches and jumps; and whose operands the code generator can read.
 */
module OperandTheorems {
  import opened Words
  import opened Text
  import opened Instructions
  import opened Units
  import opened Encoder
  import opened Decoder
  import opened Tokens
  import opened ParserState
  import opened Operands
  import opened TextPass

  /*
   * What a parsed instruction is.
   */

  /** The unit, as instruction `index`, holds the distance to its label, which is a text label in reach. */
  predicate AimsAt(symbols: map<string, SymbolData>, u: Unit, index: int) {
    && u.target in symbols && !symbols[u.target].isData && (u.op.InB? || u.op.InJ?)
    && var offset := Offset(symbols[u.target].address, index);
       InReach(u, offset) && u.imm == Clip(ToText(offset), IMM_CAPACITY)
  }

  /** A complete unit refers to no label or aims at it; an open one is a branch or a jump. */
  predicate UnitOk(symbols: map<string, SymbolData>, u: Unit, resolved: bool, index: int) {
    if resolved then u.target == "" || AimsAt(symbols, u, index) else u.op.InB? || u.op.InJ?
  }

  predicate UnitsOk(symbols: map<string, SymbolData>, units: seq<(Unit, bool)>, line: nat, index: int) {
    && 1 <= |units| <= 2
    && (forall k :: 0 <= k < |units| ==>
          units[k].0.line == line && UnitOk(symbols, units[k].0, units[k].1, index + k))
  }

  predicate ParsedOk(s: State, p: Parsed, line: nat) {
    p.Parsed? ==> UnitsOk(s.symbols, p.units, line, s.instructionIndex)
  }

  lemma OneOk(s: State, u: Unit)
    requires u.target == ""
    ensures ParsedOk(s, One(u), u.line)
  {
  }

  lemma JumpToOk(s: State, u: Unit, name: string, limit: int)
    requires u.target == ""
    requires (u.op.InB? && limit == 4096) || (u.op.InJ? && limit == 1048576)
    ensures ParsedOk(s, JumpTo(s, u, name, limit), u.line)
  {
    hide Clip, ToText, Offset;
  }

  lemma AddressPairOk(env: Env, s: State, op: Mnemonic, register: Kind, name: string)
    ensures ParsedOk(s, AddressPair(env, s, op, register, name), Current(env, s).line)
  {
    hide Clip, ToText, Hi20, Lo12, DataOffset;
  }

  lemma LoadImmediateOk(s: State, register: Kind, n: int, line: nat)
    ensures ParsedOk(s, LoadImmediate(register, n, line), line)
  {
    hide Clip, ToText, RegisterName;
  }

  lemma PseudoOk(env: Env, s: State, op: Mnemonic)
    ensures ParsedOk(s, Pseudo(env, s, op), Current(env, s).line)
  {
    hide AddressPair, LoadImmediate, ParsedOk;
    var line := Current(env, s).line;
    var a1, a3 := Peek(env, s, 1), Peek(env, s, 3);
    match op
    case InNone(kla) => AddressPairOk(env, s, InI1(kaddi), a1.kind, a3.value);
    case InNone(knop) => OneOk(s, WithImm(WithRs1(WithRd(Blank(InI1(kaddi), line), GpRegister(0)), GpRegister(0)), 0));
    case InNone(kli) => LoadImmediateOk(s, a1.kind, NumberIn(a3.kind), line);
    case InNone(kmv) => OneOk(s, WithRs2(WithRs1(WithRd(Blank(InR(kadd), line), a1.kind), a3.kind), GpRegister(0)));
    case InNone(knot) => OneOk(s, WithImm(WithRs1(WithRd(Blank(InI1(kxori), line), a1.kind), a3.kind), -1));
    case InNone(kret) => OneOk(s, WithImm(WithRs1(WithRd(Blank(InI1(kjalr), line), GpRegister(0)), GpRegister(1)), 0));
    case _ => NothingOk(s, line);
  }

  lemma NothingOk(s: State, line: nat)
    ensures ParsedOk(s, NoMatch, line) && ParsedOk(s, Refused, line)
  {
  }

  lemma RegisterImmediatesOk(env: Env, s: State, syntax: SyntaxType, op: Mnemonic)
    requires syntax in [O_GPR_C_GPR_C_I, O_GPR_C_I, O_GPR_C_CSR_C_I]
    ensures ParsedOk(s, Build(env, s, syntax, op), Current(env, s).line)
  {
    hide Clip, ToText, RegisterName;
  }

  lemma MemoryFormsOk(env: Env, s: State, syntax: SyntaxType, op: Mnemonic)
    requires syntax in [O_GPR_C_I_LP_GPR_RP, O_FPR_C_I_LP_GPR_RP]
    ensures ParsedOk(s, Build(env, s, syntax, op), Current(env, s).line)
  {
    hide Clip, ToText, RegisterName;
  }

  lemma ImmediateFormsOk(env: Env, s: State, syntax: SyntaxType, op: Mnemonic)
    requires syntax in [O_GPR_C_GPR_C_I, O_GPR_C_I, O_GPR_C_I_LP_GPR_RP, O_GPR_C_CSR_C_I, O_FPR_C_I_LP_GPR_RP]
    ensures ParsedOk(s, Build(env, s, syntax, op), Current(env, s).line)
  {
    hide Build, ParsedOk;
    if syntax in [O_GPR_C_I_LP_GPR_RP, O_FPR_C_I_LP_GPR_RP] {
      MemoryFormsOk(env, s, syntax, op);
    } else {
      RegisterImmediatesOk(env, s, syntax, op);
    }
  }

  lemma LabelFormsOk(env: Env, s: State, syntax: SyntaxType, op: Mnemonic)
    requires syntax in [O_GPR_C_GPR_C_IL, O_GPR_C_IL, O_GPR_C_DL]
    ensures ParsedOk(s, Build(env, s, syntax, op), Current(env, s).line)
  {
    hide Clip, ToText, RegisterName, JumpTo, AddressPair;
    var u := Blank(op, Current(env, s).line);
    var a1, a3 := Peek(env, s, 1).kind, Peek(env, s, 3).kind;
    if syntax == O_GPR_C_GPR_C_IL {
      if op.InB? { JumpToOk(s, WithRs2(WithRs1(u, a1), a3), Peek(env, s, 5).value, 4096); }
    } else if syntax == O_GPR_C_IL {
      if op.InJ? { JumpToOk(s, WithRd(u, a1), Peek(env, s, 3).value, 1048576); }
    } else {
      AddressPairOk(env, s, op, a1, Peek(env, s, 3).value);
    }
  }

  lemma RegisterFormsOk(env: Env, s: State, syntax: SyntaxType, op: Mnemonic)
    requires syntax !in [O_GPR_C_GPR_C_I, O_GPR_C_I, O_GPR_C_I_LP_GPR_RP, O_GPR_C_CSR_C_I, O_FPR_C_I_LP_GPR_RP]
    requires syntax !in [O_GPR_C_GPR_C_IL, O_GPR_C_IL, O_GPR_C_DL, PSEUDO]
    ensures ParsedOk(s, Build(env, s, syntax, op), Current(env, s).line)
  {
    hide Clip, ToText, RegisterName;
  }

  lemma BuildOk(env: Env, s: State, syntax: SyntaxType, op: Mnemonic)
    ensures ParsedOk(s, Build(env, s, syntax, op), Current(env, s).line)
  {
    hide ParsedOk;
    if syntax in [O_GPR_C_GPR_C_I, O_GPR_C_I, O_GPR_C_I_LP_GPR_RP, O_GPR_C_CSR_C_I, O_FPR_C_I_LP_GPR_RP] {
      ImmediateFormsOk(env, s, syntax, op);
    } else if syntax in [O_GPR_C_GPR_C_IL, O_GPR_C_IL, O_GPR_C_DL] {
      LabelFormsOk(env, s, syntax, op);
    } else if syntax == PSEUDO {
      PseudoOk(env, s, op);
    } else {
      RegisterFormsOk(env, s, syntax, op);
    }
  }

  lemma {:induction false} ParseAnyOk(env: Env, s: State, syntaxes: seq<SyntaxType>, op: Mnemonic)
    ensures ParsedOk(s, ParseAny(env, s, syntaxes, op), Current(env, s).line)
  {
    if syntaxes == [] {
    } else {
      BuildOk(env, s, syntaxes[0], op);
      ParseAnyOk(env, s, syntaxes[1..], op);
    }
  }

  /*
   * What the code generator makes of them.
   */

  predicate RegisterReads(text: string) { RegisterIndex(text).Ok? && RegisterIndex(text).value < 32 }

  predicate ImmReads(text: string) { Encoder.Number(text).Ok? }

  /** Every operand that the unit's format needs is there and can be read, except an immediate still to come. */
  predicate Readable(u: Unit, resolved: bool) {
    match FormatOf(u.op)
    case None => true
    case Some(f) =>
      && (UsesRd(f) ==> RegisterReads(u.rd)) && (UsesRs1(f) ==> RegisterReads(u.rs1))
      && (UsesRs2(f) ==> RegisterReads(u.rs2)) && (UsesRs3(f) ==> RegisterReads(u.rs3))
      && (UsesImm(f) && resolved ==> ImmReads(u.imm))
  }

  predicate ParsedReads(p: Parsed) {
    p.Parsed? ==> forall k :: 0 <= k < |p.units| ==> Readable(p.units[k].0, p.units[k].1)
  }

  /** A unit has a word exactly when its operands are complete and its mnemonic has a format. */
  lemma ReadableGenerates(u: Unit)
    requires Readable(u, true)
    ensures Generate(u).Ok? <==> FormatOf(u.op).Some?
    ensures FormatOf(u.op).Some? ==>
      var f := FormatOf(u.op).value;
      ReadFields(f, u).Ok? && Generate(u) == Ok(Word(f, u.op, ReadFields(f, u).value))
  {
    hide Word, ReadFields;
    if FormatOf(u.op).Some? { ReadableFields(FormatOf(u.op).value, u); }
  }

  lemma ReadableFields(f: Format, u: Unit)
    requires FormatOf(u.op) == Some(f) && Readable(u, true)
    ensures ReadFields(f, u).Ok?
    ensures UsesImm(f) ==> Encoder.Number(u.imm) == Ok(ReadFields(f, u).value.imm)
    ensures UsesRd(f) ==> RegisterIndex(u.rd) == Ok(ReadFields(f, u).value.rd)
    ensures UsesRs1(f) ==> RegisterIndex(u.rs1) == Ok(ReadFields(f, u).value.rs1)
    ensures UsesRs2(f) ==> RegisterIndex(u.rs2) == Ok(ReadFields(f, u).value.rs2)
  {
    hide RegisterIndex, Encoder.Number, FormatOf, UsesRd, UsesRs1, UsesRs2, UsesRs3, UsesImm, UsesCsr, UsesRm;
  }

  predicate IsRegisterKind(kind: Kind) { kind.GpRegister? || kind.FpRegister? }

  lemma RegisterNameReads(kind: Kind)
    requires IsRegisterKind(kind)
    ensures RegisterReads(Clip(RegisterName(kind), REG_CAPACITY))
  {
    var r := if kind.GpRegister? then kind.x else kind.f;
    var name := RegisterName(kind);
    SmallNumber(r);
    ToTextHasNoNul(r);
    ClipIsIdentity(name, REG_CAPACITY);
    assert name[1..] == ToText(r);
    NumberOfText(r);
    Powers();
    FromNatBelow(r, 5, 32);
  }

  lemma SmallNumber(r: nat)
    requires r < 32
    ensures |ToText(r)| <= 2
  {
    assert Pow10(2) == 100;
    DigitsLength(r, 2);
  }

  lemma NumberReads(n: int)
    requires IsInt32(n)
    ensures Encoder.Number(Clip(ToText(n), IMM_CAPACITY)) == Ok(FromInt32(n))
  {
    ImmFieldHolds(n);
    NumberOfText(n);
  }

  lemma Tagged(env: Env, s: State, tags: seq<Tag>, i: nat)
    requires FitsLine(env, s, tags) && i < |tags|
    ensures HasTag(Peek(env, s, i + 1).kind, tags[i])
  {
  }

  /** Registers stand at the first, third, ... place of every shape that has them. */
  lemma RegisterAt(env: Env, s: State, tags: seq<Tag>, i: nat)
    requires FitsLine(env, s, tags) && i < |tags| && (tags[i] == Gp || tags[i] == Fp)
    ensures RegisterReads(Clip(RegisterName(Peek(env, s, i + 1).kind), REG_CAPACITY))
  {
    Tagged(env, s, tags, i);
    RegisterNameReads(Peek(env, s, i + 1).kind);
  }

  /** The register operands of a shape, in the order of their places. */
  predicate Registers(env: Env, s: State, n: nat) {
    && (n >= 1 ==> RegisterReads(Clip(RegisterName(Peek(env, s, 1).kind), REG_CAPACITY)))
    && (n >= 2 ==> RegisterReads(Clip(RegisterName(Peek(env, s, 3).kind), REG_CAPACITY)))
    && (n >= 3 ==> RegisterReads(Clip(RegisterName(Peek(env, s, 5).kind), REG_CAPACITY)))
    && (n >= 4 ==> RegisterReads(Clip(RegisterName(Peek(env, s, 7).kind), REG_CAPACITY)))
  }

  lemma RegistersRead(env: Env, s: State, tags: seq<Tag>, n: nat)
    requires FitsLine(env, s, tags) && n <= 4 && 2 * n <= |tags| + 1
    requires forall i :: 0 <= i < n ==> tags[2 * i] == Gp || tags[2 * i] == Fp
    ensures Registers(env, s, n)
  {
    hide FitsLine, RegisterReads, Clip, RegisterName;
    if n >= 1 { assert tags[2 * 0] == Gp || tags[2 * 0] == Fp; RegisterAt(env, s, tags, 0); }
    if n >= 2 { assert tags[2 * 1] == Gp || tags[2 * 1] == Fp; RegisterAt(env, s, tags, 2); }
    if n >= 3 { assert tags[2 * 2] == Gp || tags[2 * 2] == Fp; RegisterAt(env, s, tags, 4); }
    if n >= 4 { assert tags[2 * 3] == Gp || tags[2 * 3] == Fp; RegisterAt(env, s, tags, 6); }
  }

  lemma ZeroReads()
    ensures RegisterReads(Clip(RegisterName(GpRegister(0)), REG_CAPACITY))
    ensures RegisterReads(Clip(RegisterName(GpRegister(1)), REG_CAPACITY))
  {
    RegisterNameReads(GpRegister(0));
    RegisterNameReads(GpRegister(1));
  }

  lemma ImmediateReads(u: Unit, n: int, min: int, max: int, multiple: bool)
    requires Readable(u, false) && IsInt32(min) && IsInt32(max)
    ensures ParsedReads(Immediate(u, n, min, max, multiple))
  {
    hide Encoder.Number, Clip, ToText, RegisterReads, FormatOf, UsesRd, UsesRs1, UsesRs2, UsesRs3, UsesImm;
    if min <= n <= max { NumberReads(n); }
  }

  lemma JumpToReads(s: State, u: Unit, name: string, limit: int)
    requires Readable(u, false) && 0 < limit <= INT32_MAX
    ensures ParsedReads(JumpTo(s, u, name, limit))
  {
    hide Encoder.Number, Clip, ToText, RegisterReads, FormatOf, UsesRd, UsesRs1, UsesRs2, UsesRs3, UsesImm, Offset;
    if name in s.symbols {
      var offset := Offset(s.symbols[name].address, s.instructionIndex);
      if -limit <= offset < limit { NumberReads(offset); }
    }
  }

  lemma PartsFit(offset: int)
    ensures IsInt32(Hi20(offset)) && IsInt32(Lo12(offset))
  {
  }

  lemma AddressPairReads(env: Env, s: State, op: Mnemonic, register: Kind, name: string)
    requires op.InI1? && RegisterReads(Clip(RegisterName(register), REG_CAPACITY))
    ensures ParsedReads(AddressPair(env, s, op, register, name))
  {
    hide Encoder.Number, Clip, ToText, RegisterReads, RegisterName, Hi20, Lo12, DataOffset;
    if name in s.symbols && s.symbols[name].isData {
      var offset := DataOffset(env, s, s.symbols[name].address);
      PartsFit(offset);
      NumberReads(Hi20(offset));
      NumberReads(Lo12(offset));
    }
  }

  lemma LoadImmediateReads(register: Kind, n: int, line: nat)
    requires RegisterReads(Clip(RegisterName(register), REG_CAPACITY))
    ensures ParsedReads(LoadImmediate(register, n, line))
  {
    hide Encoder.Number, Clip, ToText, RegisterReads, RegisterName;
    ZeroReads();
    if IsInt32(n) {
      var upper := (n + 0x800) / 0x1000;
      NumberReads(n);
      NumberReads(upper);
      NumberReads(n - upper * 0x1000);
    }
  }

  lemma PseudoReads(env: Env, s: State, op: Mnemonic)
    requires PseudoShape(op).Some? && FitsLine(env, s, PseudoShape(op).value)
    ensures ParsedReads(Pseudo(env, s, op))
  {
    hide Encoder.Number, Clip, ToText, RegisterReads, RegisterName, FitsLine, AddressPair, LoadImmediate;
    var tags := PseudoShape(op).value;
    ZeroReads();
    NumberReads(0);
    NumberReads(-1);
    match op
    case InNone(kla) =>
      RegistersRead(env, s, tags, 1);
      AddressPairReads(env, s, InI1(kaddi), Peek(env, s, 1).kind, Peek(env, s, 3).value);
    case InNone(kli) =>
      RegistersRead(env, s, tags, 1);
      LoadImmediateReads(Peek(env, s, 1).kind, NumberIn(Peek(env, s, 3).kind), Current(env, s).line);
    case InNone(kmv) => RegistersRead(env, s, tags, 2);
    case InNone(knot) => RegistersRead(env, s, tags, 2);
    case _ =>
  }

  /** The shape of a syntax fits the line, and the syntax is one the mnemonic has. */
  predicate Applies(env: Env, s: State, syntax: SyntaxType, op: Mnemonic) {
    syntax in Syntaxes(op) && Shape(syntax, op).Some? && FitsLine(env, s, Shape(syntax, op).value)
  }

  lemma RReads(env: Env, s: State, syntax: SyntaxType, op: Mnemonic)
    requires op.InR? && Applies(env, s, syntax, op)
    ensures ParsedReads(Build(env, s, syntax, op))
  {
    hide Encoder.Number, Clip, ToText, RegisterReads, RegisterName, FitsLine;
    assert syntax == O_GPR_C_GPR_C_GPR;
    RegistersRead(env, s, Shape(syntax, op).value, 3);
  }

  lemma I1Reads(env: Env, s: State, syntax: SyntaxType, op: Mnemonic)
    requires op.InI1? && Applies(env, s, syntax, op)
    ensures ParsedReads(Build(env, s, syntax, op))
  {
    hide Encoder.Number, Clip, ToText, RegisterReads, RegisterName, FitsLine, Immediate, JumpTo, AddressPair, ParsedReads;
    var u := Blank(op, Current(env, s).line);
    var a1, a3, a5 := Peek(env, s, 1).kind, Peek(env, s, 3).kind, Peek(env, s, 5).kind;
    assert syntax == O_GPR_C_GPR_C_I || syntax == O_GPR_C_I_LP_GPR_RP || syntax == O_GPR_C_DL;
    RegistersRead(env, s, Shape(syntax, op).value, if syntax == O_GPR_C_GPR_C_I then 2 else 1);
    if syntax == O_GPR_C_GPR_C_I {
      ImmediateReads(WithRs1(WithRd(u, a1), a3), NumberIn(a5), -2048, 2047, true);
    } else if syntax == O_GPR_C_I_LP_GPR_RP {
      RegisterAt(env, s, Shape(syntax, op).value, 4);
      ImmediateReads(WithRs1(WithRd(u, a1), a5), NumberIn(a3), -2048, 2047, true);
    } else {
      AddressPairReads(env, s, op, a1, Peek(env, s, 3).value);
    }
  }

  lemma I2Reads(env: Env, s: State, syntax: SyntaxType, op: Mnemonic)
    requires op.InI2? && Applies(env, s, syntax, op)
    ensures ParsedReads(Build(env, s, syntax, op))
  {
    hide Encoder.Number, Clip, ToText, RegisterReads, RegisterName, FitsLine, Immediate, JumpTo, AddressPair, ParsedReads;
    assert syntax == O_GPR_C_GPR_C_I;
    RegistersRead(env, s, Shape(syntax, op).value, 2);
    var u := WithRs1(WithRd(Blank(op, Current(env, s).line), Peek(env, s, 1).kind), Peek(env, s, 3).kind);
    ImmediateReads(u, NumberIn(Peek(env, s, 5).kind), 0, 31, true);
  }

  lemma SReads(env: Env, s: State, syntax: SyntaxType, op: Mnemonic)
    requires (op.InS? || op.InFdI? || op.InFdS?) && Applies(env, s, syntax, op)
    ensures ParsedReads(Build(env, s, syntax, op))
  {
    hide Encoder.Number, Clip, ToText, RegisterReads, RegisterName, FitsLine, Immediate, JumpTo, AddressPair, ParsedReads;
    assert syntax == O_GPR_C_I_LP_GPR_RP || syntax == O_FPR_C_I_LP_GPR_RP;
    RegistersRead(env, s, Shape(syntax, op).value, 1);
    RegisterAt(env, s, Shape(syntax, op).value, 4);
    var u := Blank(op, Current(env, s).line);
    var a1, a3, a5 := Peek(env, s, 1).kind, Peek(env, s, 3).kind, Peek(env, s, 5).kind;
    var v := if op.InFdI? then WithRs1(WithRd(u, a1), a5) else WithRs1(WithRs2(u, a1), a5);
    ImmediateReads(v, NumberIn(a3), -2048, 2047, true);
  }

  lemma BReads(env: Env, s: State, syntax: SyntaxType, op: Mnemonic)
    requires op.InB? && Applies(env, s, syntax, op)
    ensures ParsedReads(Build(env, s, syntax, op))
  {
    hide Encoder.Number, Clip, ToText, RegisterReads, RegisterName, FitsLine, Immediate, JumpTo, AddressPair, ParsedReads;
    assert syntax == O_GPR_C_GPR_C_I || syntax == O_GPR_C_GPR_C_IL;
    RegistersRead(env, s, Shape(syntax, op).value, 2);
    var u := WithRs2(WithRs1(Blank(op, Current(env, s).line), Peek(env, s, 1).kind), Peek(env, s, 3).kind);
    if syntax == O_GPR_C_GPR_C_I {
      var n := NumberIn(Peek(env, s, 5).kind);
      ImmediateReads(u, n, -4096, 4095, n % 4 == 0);
    } else {
      JumpToReads(s, u, Peek(env, s, 5).value, 4096);
    }
  }

  lemma UJReads(env: Env, s: State, syntax: SyntaxType, op: Mnemonic)
    requires (op.InU? || op.InJ?) && Applies(env, s, syntax, op)
    ensures ParsedReads(Build(env, s, syntax, op))
  {
    hide Encoder.Number, Clip, ToText, RegisterReads, RegisterName, FitsLine, Immediate, JumpTo, AddressPair, ParsedReads;
    assert syntax == O_GPR_C_I || syntax == O_GPR_C_IL;
    RegistersRead(env, s, Shape(syntax, op).value, 1);
    var u := WithRd(Blank(op, Current(env, s).line), Peek(env, s, 1).kind);
    if syntax == O_GPR_C_IL {
      JumpToReads(s, u, Peek(env, s, 3).value, 1048576);
    } else {
      var n := NumberIn(Peek(env, s, 3).kind);
      ImmediateReads(u, n, 0, 1048575, true);
      ImmediateReads(u, n, -1048576, 1048575, n % 2 == 0);
    }
  }

  lemma CsrReads(env: Env, s: State, syntax: SyntaxType, op: Mnemonic)
    requires (op.InCsrR? || op.InCsrI?) && Applies(env, s, syntax, op)
    ensures ParsedReads(Build(env, s, syntax, op))
  {
    hide Encoder.Number, Clip, ToText, RegisterReads, RegisterName, FitsLine, Immediate;
    assert syntax == (if op.InCsrR? then O_GPR_C_CSR_C_GPR else O_GPR_C_CSR_C_I);
    RegistersRead(env, s, Shape(syntax, op).value, 1);
    if op.InCsrR? {
      RegisterAt(env, s, Shape(syntax, op).value, 4);
    } else {
      var u := WithRd(Blank(op, Current(env, s).line), Peek(env, s, 1).kind).(csr := CsrIn(Peek(env, s, 3).kind));
      ImmediateReads(u, NumberIn(Peek(env, s, 5).kind), 0, 31, true);
    }
  }

  predicate IsConversion(syntax: SyntaxType) {
    || syntax == O_FPR_C_FPR || syntax == O_FPR_C_GPR || syntax == O_GPR_C_FPR
    || syntax == O_FPR_C_FPR_C_RM || syntax == O_FPR_C_GPR_C_RM || syntax == O_GPR_C_FPR_C_RM
  }

  lemma ConversionSyntaxes(op: Mnemonic, syntax: SyntaxType)
    requires (op.InFdR2? || op.InFdR3?) && syntax in Syntaxes(op)
    ensures IsConversion(syntax)
  {
  }

  lemma ConversionReads(op: Mnemonic, line: nat, a1: Kind, a3: Kind, mode: bv32)
    requires op.InFdR2? || op.InFdR3?
    requires RegisterReads(Clip(RegisterName(a1), REG_CAPACITY)) && RegisterReads(Clip(RegisterName(a3), REG_CAPACITY))
    ensures Readable(WithRs1(WithRd(Blank(op, line), a1), a3).(rm := mode), true)
  {
    hide Encoder.Number, Clip, ToText, RegisterReads, RegisterName;
  }

  lemma PlainConversionReads(env: Env, s: State, syntax: SyntaxType, op: Mnemonic)
    requires (op.InFdR2? || op.InFdR3?) && Registers(env, s, 2)
    requires syntax == O_FPR_C_FPR || syntax == O_FPR_C_GPR || syntax == O_GPR_C_FPR
    ensures ParsedReads(Build(env, s, syntax, op))
  {
    hide Clip, ToText, RegisterReads, RegisterName, Syntaxes, Readable, WithRd, WithRs1;
    ConversionReads(op, Current(env, s).line, Peek(env, s, 1).kind, Peek(env, s, 3).kind, DYNAMIC);
  }

  lemma RoundedConversionReads(env: Env, s: State, syntax: SyntaxType, op: Mnemonic)
    requires (op.InFdR2? || op.InFdR3?) && Registers(env, s, 2)
    requires syntax == O_FPR_C_FPR_C_RM || syntax == O_FPR_C_GPR_C_RM || syntax == O_GPR_C_FPR_C_RM
    ensures ParsedReads(Build(env, s, syntax, op))
  {
    hide Clip, ToText, RegisterReads, RegisterName, Syntaxes, Readable, WithRd, WithRs1;
    ConversionReads(op, Current(env, s).line, Peek(env, s, 1).kind, Peek(env, s, 3).kind, ModeIn(Peek(env, s, 5).kind));
  }

  lemma ConversionsRead(env: Env, s: State, syntax: SyntaxType, op: Mnemonic)
    requires (op.InFdR2? || op.InFdR3?) && Applies(env, s, syntax, op)
    ensures ParsedReads(Build(env, s, syntax, op))
  {
    hide FitsLine, Syntaxes, Build, Registers, ParsedReads;
    ConversionSyntaxes(op, syntax);
    RegistersRead(env, s, Shape(syntax, op).value, 2);
    if syntax == O_FPR_C_FPR || syntax == O_FPR_C_GPR || syntax == O_GPR_C_FPR {
      PlainConversionReads(env, s, syntax, op);
    } else {
      RoundedConversionReads(env, s, syntax, op);
    }
  }

  lemma FloatReads(op: Mnemonic, line: nat, a1: Kind, a3: Kind, a5: Kind, mode: bv32)
    requires op.InFdR? || op.InFdR1?
    requires RegisterReads(Clip(RegisterName(a1), REG_CAPACITY)) && RegisterReads(Clip(RegisterName(a3), REG_CAPACITY))
    requires RegisterReads(Clip(RegisterName(a5), REG_CAPACITY))
    ensures Readable(WithRs2(WithRs1(WithRd(Blank(op, line), a1), a3), a5), true)
    ensures Readable(WithRs2(WithRs1(WithRd(Blank(op, line), a1), a3), a5).(rm := mode), true)
  {
    hide Encoder.Number, Clip, ToText, RegisterReads, RegisterName;
  }

  lemma FloatSyntaxes(op: Mnemonic, syntax: SyntaxType)
    requires (op.InFdR? || op.InFdR1?) && syntax in Syntaxes(op)
    ensures syntax == O_FPR_C_FPR_C_FPR || syntax == O_GPR_C_FPR_C_FPR || syntax == O_FPR_C_FPR_C_FPR_C_RM
  {
  }

  lemma FloatsRead(env: Env, s: State, syntax: SyntaxType, op: Mnemonic)
    requires (op.InFdR? || op.InFdR1?) && Applies(env, s, syntax, op)
    ensures ParsedReads(Build(env, s, syntax, op))
  {
    hide Clip, ToText, RegisterReads, RegisterName, FitsLine, Syntaxes, Readable, WithRd, WithRs1, WithRs2;
    FloatSyntaxes(op, syntax);
    RegistersRead(env, s, Shape(syntax, op).value, 3);
    var line := Current(env, s).line;
    var a1, a3, a5 := Peek(env, s, 1).kind, Peek(env, s, 3).kind, Peek(env, s, 5).kind;
    FloatReads(op, line, a1, a3, a5, DYNAMIC);
    FloatReads(op, line, a1, a3, a5, ModeIn(Peek(env, s, 7).kind));
  }

  lemma FusedRead(env: Env, s: State, syntax: SyntaxType, op: Mnemonic)
    requires op.InFdR4? && Applies(env, s, syntax, op)
    ensures ParsedReads(Build(env, s, syntax, op))
  {
    hide Encoder.Number, Clip, ToText, RegisterReads, RegisterName, FitsLine;
    RegistersRead(env, s, Shape(syntax, op).value, 4);
  }

  lemma NoFormatReads(env: Env, s: State, syntax: SyntaxType, op: Mnemonic)
    requires (op.InI3? || op.InNone?) && Applies(env, s, syntax, op)
    ensures ParsedReads(Build(env, s, syntax, op))
  {
    hide Encoder.Number, Clip, ToText, RegisterReads, RegisterName, FitsLine;
    assert syntax == O || syntax == PSEUDO;
    if syntax == PSEUDO { PseudoReads(env, s, op); }
  }

  lemma BuildReads(env: Env, s: State, syntax: SyntaxType, op: Mnemonic)
    requires Applies(env, s, syntax, op)
    ensures ParsedReads(Build(env, s, syntax, op))
  {
    hide Applies, ParsedReads, Build;
    match op
    case InR(_) => RReads(env, s, syntax, op);
    case InI1(_) => I1Reads(env, s, syntax, op);
    case InI2(_) => I2Reads(env, s, syntax, op);
    case InI3(_) => NoFormatReads(env, s, syntax, op);
    case InS(_) => SReads(env, s, syntax, op);
    case InB(_) => BReads(env, s, syntax, op);
    case InU(_) => UJReads(env, s, syntax, op);
    case InJ(_) => UJReads(env, s, syntax, op);
    case InCsrR(_) => CsrReads(env, s, syntax, op);
    case InCsrI(_) => CsrReads(env, s, syntax, op);
    case InFdR(_) => FloatsRead(env, s, syntax, op);
    case InFdR1(_) => FloatsRead(env, s, syntax, op);
    case InFdR2(_) => ConversionsRead(env, s, syntax, op);
    case InFdR3(_) => ConversionsRead(env, s, syntax, op);
    case InFdR4(_) => FusedRead(env, s, syntax, op);
    case InFdI(_) => SReads(env, s, syntax, op);
    case InFdS(_) => SReads(env, s, syntax, op);
    case InNone(_) => NoFormatReads(env, s, syntax, op);
  }

  lemma {:induction false} ParseAnyReads(env: Env, s: State, syntaxes: seq<SyntaxType>, op: Mnemonic)
    requires forall syntax <- syntaxes :: syntax in Syntaxes(op)
    ensures ParsedReads(ParseAny(env, s, syntaxes, op))
  {
    hide Build, FitsLine, Shape, Syntaxes;
    if syntaxes == [] {
    } else {
      if Shape(syntaxes[0], op).Some? && FitsLine(env, s, Shape(syntaxes[0], op).value) {
        BuildReads(env, s, syntaxes[0], op);
      }
      ParseAnyReads(env, s, syntaxes[1..], op);
    }
  }

  /*
   * Where units come from.
   */

  /** Unit `j` of what the line yields, read by this syntax. */
  predicate Yields(env: Env, t: State, syntax: SyntaxType, op: Mnemonic, j: nat, unit: (Unit, bool)) {
    && Applies(env, t, syntax, op)
    && var p := Build(env, t, syntax, op);
       p.Parsed? && j < |p.units| && p.units[j] == unit
  }

  /** Whether a shape fits depends on nothing but the position. */
  lemma SameFit(env: Env, s: State, r: State, tags: seq<Tag>)
    requires r.pos == s.pos
    ensures FitsLine(env, s, tags) == FitsLine(env, r, tags)
  {
    forall n: nat, tag: Tag ensures TokenFits(env, s, n, tag) == TokenFits(env, r, n, tag) {
      assert Peek(env, s, n) == Peek(env, r, n);
    }
    assert Peek(env, s, |tags| + 1) == Peek(env, r, |tags| + 1);
  }

  lemma {:induction false} ParseAnyYields(env: Env, s: State, syntaxes: seq<SyntaxType>, op: Mnemonic)
    requires forall syntax <- syntaxes :: syntax in Syntaxes(op)
    requires ParseAny(env, s, syntaxes, op).Parsed?
    ensures exists syntax: SyntaxType :: Applies(env, s, syntax, op) && Build(env, s, syntax, op) == ParseAny(env, s, syntaxes, op)
  {
    hide Build, FitsLine, Shape, Syntaxes;
    var first := ParseSyntax(env, s, syntaxes[0], op);
    if first.NoMatch? {
      ParseAnyYields(env, s, syntaxes[1..], op);
    } else {
      assert Applies(env, s, syntaxes[0], op);
    }
  }
}
