/**
 The operand parsers of src/assembler/parse_formats: which token shapes a mnemonic accepts on its line,
 and the intermediate-code units that each of them yields.
 */
module Operands {
  import opened Words
  import opened Text
  import opened Instructions
  import opened Units
  import opened Tokens
  import opened ParserState

  /** No shape fits; a shape fits but an operand is refused; or the units, each with whether it is complete. */
  datatype Parsed = NoMatch | Refused | Parsed(units: seq<(Unit, bool)>)

  datatype Tag = Gp | Fp | Csr | Number | Ref | Com | Open | Close | Mode

  predicate HasTag(kind: Kind, tag: Tag) {
    match tag
    case Gp => kind.GpRegister?
    case Fp => kind.FpRegister?
    case Csr => kind.CsrRegister?
    case Number => kind.Num?
    case Ref => kind.LabelRef?
    case Com => kind.Comma?
    case Open => kind.LParen?
    case Close => kind.RParen?
    case Mode => kind.Rm?
  }

  /** The tokens that a syntax wants after the mnemonic; a pseudo-instruction has its own, if it is known. */
  function Shape(syntax: SyntaxType, op: Mnemonic): Option<seq<Tag>> {
    match syntax
    case O_GPR_C_GPR_C_GPR => Some([Gp, Com, Gp, Com, Gp])
    case O_GPR_C_GPR_C_I => Some([Gp, Com, Gp, Com, Number])
    case O_GPR_C_I => Some([Gp, Com, Number])
    case O_GPR_C_GPR_C_IL => Some([Gp, Com, Gp, Com, Ref])
    case O_GPR_C_GPR_C_DL => None
    case O_GPR_C_IL => Some([Gp, Com, Ref])
    case O_GPR_C_DL => Some([Gp, Com, Ref])
    case O_GPR_C_I_LP_GPR_RP => Some([Gp, Com, Number, Open, Gp, Close])
    case O => Some([])
    case PSEUDO => PseudoShape(op)
    case O_GPR_C_CSR_C_GPR => Some([Gp, Com, Csr, Com, Gp])
    case O_GPR_C_CSR_C_I => Some([Gp, Com, Csr, Com, Number])
    case O_FPR_C_FPR_C_FPR_C_FPR => Some([Fp, Com, Fp, Com, Fp, Com, Fp])
    case O_FPR_C_FPR_C_FPR_C_FPR_C_RM => Some([Fp, Com, Fp, Com, Fp, Com, Fp, Com, Mode])
    case O_FPR_C_FPR_C_FPR => Some([Fp, Com, Fp, Com, Fp])
    case O_FPR_C_FPR_C_FPR_C_RM => Some([Fp, Com, Fp, Com, Fp, Com, Mode])
    case O_FPR_C_FPR => Some([Fp, Com, Fp])
    case O_FPR_C_FPR_C_RM => Some([Fp, Com, Fp, Com, Mode])
    case O_FPR_C_GPR => Some([Fp, Com, Gp])
    case O_FPR_C_GPR_C_RM => Some([Fp, Com, Gp, Com, Mode])
    case O_GPR_C_FPR => Some([Gp, Com, Fp])
    case O_GPR_C_FPR_C_RM => Some([Gp, Com, Fp, Com, Mode])
    case O_GPR_C_FPR_C_FPR => Some([Gp, Com, Fp, Com, Fp])
    case O_FPR_C_I_LP_GPR_RP => Some([Fp, Com, Number, Open, Gp, Close])
  }

  function PseudoShape(op: Mnemonic): Option<seq<Tag>> {
    match op
    case InNone(kla) => Some([Gp, Com, Ref])
    case InNone(knop) => Some([])
    case InNone(kli) => Some([Gp, Com, Number])
    case InNone(kmv) => Some([Gp, Com, Gp])
    case InNone(knot) => Some([Gp, Com, Gp])
    case InNone(kret) => Some([])
    case _ => None
  }

  /** The token `n` places on is on the current line and of this tag. */
  predicate TokenFits(env: Env, s: State, n: nat, tag: Tag) {
    Peek(env, s, n).line == Current(env, s).line && HasTag(Peek(env, s, n).kind, tag)
  }

  predicate LineEndsBefore(env: Env, s: State, n: nat) {
    Peek(env, s, n).kind.Eof? || Peek(env, s, n).line != Current(env, s).line
  }

  /** The tokens after the current one are of these tags and on its line, and the line ends after them. */
  predicate FitsLine(env: Env, s: State, tags: seq<Tag>) {
    && (forall i :: 0 <= i < |tags| ==> TokenFits(env, s, i + 1, tags[i]))
    && LineEndsBefore(env, s, |tags| + 1)
  }

  /*
   * Filling in a unit. Texts go through the bounded fields.
   */

  /** `reg_alias_to_name`. */
  function RegisterName(kind: Kind): string {
    match kind
    case GpRegister(x) => ['x'] + ToText(x)
    case FpRegister(f) => ['f'] + ToText(f)
    case _ => ""
  }

  function WithRd(u: Unit, kind: Kind): Unit { u.(rd := Clip(RegisterName(kind), REG_CAPACITY)) }

  function WithRs1(u: Unit, kind: Kind): Unit { u.(rs1 := Clip(RegisterName(kind), REG_CAPACITY)) }

  function WithRs2(u: Unit, kind: Kind): Unit { u.(rs2 := Clip(RegisterName(kind), REG_CAPACITY)) }

  function WithRs3(u: Unit, kind: Kind): Unit { u.(rs3 := Clip(RegisterName(kind), REG_CAPACITY)) }

  function WithImm(u: Unit, n: int): Unit { u.(imm := Clip(ToText(n), IMM_CAPACITY)) }

  function NumberIn(kind: Kind): int { if kind.Num? then kind.n else 0 }

  function CsrIn(kind: Kind): bv32 { if kind.CsrRegister? then kind.csr else 0 }

  function ModeIn(kind: Kind): bv32 { if kind.Rm? then kind.mode else 0 }

  /** Rounding mode `dyn`, which an instruction without one gets. */
  const DYNAMIC: bv32 := 7

  function One(u: Unit): Parsed { Parsed([(u, true)]) }

  /** The unit with the immediate, if that is between the bounds and a multiple. */
  function Immediate(u: Unit, n: int, min: int, max: int, multiple: bool): Parsed {
    if min <= n <= max && multiple then One(WithImm(u, n)) else Refused
  }

  /** `static_cast<int64_t>(address - instruction_index * 4)`. */
  function Offset(address: int, index: int): int { Int64(address - 4 * index % TWO32) }

  /** A branch or jump: the offset if its label is a text label already defined, an open unit otherwise. */
  function JumpTo(s: State, u: Unit, name: string, limit: int): Parsed {
    if name in s.symbols && !s.symbols[name].isData then
      var offset := Offset(s.symbols[name].address, s.instructionIndex);
      if -limit <= offset < limit then One(WithImm(u, offset).(target := name)) else Refused
    else
      Parsed([(u.(target := name), false)])
  }

  /** Distance from the current instruction to a data label. */
  function DataOffset(env: Env, s: State, address: nat): int {
    Int64((env.dataStart + address) % TWO64) - 4 * s.instructionIndex % TWO32
  }

  /** The two parts of a 32-bit distance for `auipc` and a 12-bit immediate, as `int32_t`s. */
  function Hi20(offset: int): int { Signed32((offset + 0x800) / 0x1000) }

  function Lo12(offset: int): int { Signed32(offset - Signed32(Hi20(offset) * 0x1000)) }

  /** `auipc` into the register, then an instruction that adds the rest to it. */
  function AddressPair(env: Env, s: State, op: Mnemonic, register: Kind, name: string): Parsed {
    if name in s.symbols && s.symbols[name].isData then
      var offset := DataOffset(env, s, s.symbols[name].address);
      var line := Current(env, s).line;
      Parsed([
        (WithImm(WithRd(Blank(InU(kauipc), line), register), Hi20(offset)), true),
        (WithImm(WithRs1(WithRd(Blank(op, line), register), register), Lo12(offset)), true)])
    else Refused
  }

  /** `li`: one `addi`, or `lui` with `addi` for the low bits that are left. */
  function LoadImmediate(register: Kind, n: int, line: nat): Parsed {
    if -2048 <= n <= 2047 then
      One(WithImm(WithRs1(WithRd(Blank(InI1(kaddi), line), register), GpRegister(0)), n))
    else if IsInt32(n) then
      var upper := (n + 0x800) / 0x1000;
      var lower := n - upper * 0x1000;
      var first := WithImm(WithRd(Blank(InU(klui), line), register), upper);
      if lower == 0 then One(first)
      else Parsed([(first, true), (WithImm(WithRs1(WithRd(Blank(InI1(kaddi), line), register), register), lower), true)])
    else Refused
  }

  function Pseudo(env: Env, s: State, op: Mnemonic): Parsed {
    var line := Current(env, s).line;
    var a1, a3 := Peek(env, s, 1), Peek(env, s, 3);
    match op
    case InNone(kla) => AddressPair(env, s, InI1(kaddi), a1.kind, a3.value)
    case InNone(knop) =>
      One(WithImm(WithRs1(WithRd(Blank(InI1(kaddi), line), GpRegister(0)), GpRegister(0)), 0))
    case InNone(kli) => LoadImmediate(a1.kind, NumberIn(a3.kind), line)
    case InNone(kmv) =>
      One(WithRs2(WithRs1(WithRd(Blank(InR(kadd), line), a1.kind), a3.kind), GpRegister(0)))
    case InNone(knot) => One(WithImm(WithRs1(WithRd(Blank(InI1(kxori), line), a1.kind), a3.kind), -1))
    case InNone(kret) =>
      One(WithImm(WithRs1(WithRd(Blank(InI1(kjalr), line), GpRegister(0)), GpRegister(1)), 0))
    case _ => NoMatch
  }

  /** What a syntax makes of the operands, once its shape fits. */
  function Build(env: Env, s: State, syntax: SyntaxType, op: Mnemonic): Parsed {
    var u := Blank(op, Current(env, s).line);
    var a1, a3, a5, a7, a9 :=
      Peek(env, s, 1).kind, Peek(env, s, 3).kind, Peek(env, s, 5).kind, Peek(env, s, 7).kind, Peek(env, s, 9).kind;
    match syntax
    case O_GPR_C_GPR_C_GPR => One(WithRs2(WithRs1(WithRd(u, a1), a3), a5))
    case O_GPR_C_GPR_C_I =>
      if IsIType(op) then
        if op.InI2? then Immediate(WithRs1(WithRd(u, a1), a3), NumberIn(a5), 0, 31, true)
        else Immediate(WithRs1(WithRd(u, a1), a3), NumberIn(a5), -2048, 2047, true)
      else if op.InB? then
        Immediate(WithRs2(WithRs1(u, a1), a3), NumberIn(a5), -4096, 4095, NumberIn(a5) % 4 == 0)
      else One(u)
    case O_GPR_C_I =>
      if op.InU? then Immediate(WithRd(u, a1), NumberIn(a3), 0, 1048575, true)
      else if op.InJ? then Immediate(WithRd(u, a1), NumberIn(a3), -1048576, 1048575, NumberIn(a3) % 2 == 0)
      else One(u)
    case O_GPR_C_GPR_C_IL =>
      if op.InB? then JumpTo(s, WithRs2(WithRs1(u, a1), a3), Peek(env, s, 5).value, 4096) else One(u)
    case O_GPR_C_GPR_C_DL => NoMatch
    case O_GPR_C_IL =>
      if op.InJ? then JumpTo(s, WithRd(u, a1), Peek(env, s, 3).value, 1048576) else One(u)
    case O_GPR_C_DL => AddressPair(env, s, op, a1, Peek(env, s, 3).value)
    case O_GPR_C_I_LP_GPR_RP =>
      if IsIType(op) then Immediate(WithRs1(WithRd(u, a1), a5), NumberIn(a3), -2048, 2047, true)
      else if op.InS? then Immediate(WithRs1(WithRs2(u, a1), a5), NumberIn(a3), -2048, 2047, true)
      else One(u)
    case O => One(u)
    case PSEUDO => Pseudo(env, s, op)
    case O_GPR_C_CSR_C_GPR => One(WithRs1(WithRd(u, a1).(csr := CsrIn(a3)), a5))
    case O_GPR_C_CSR_C_I => Immediate(WithRd(u, a1).(csr := CsrIn(a3)), NumberIn(a5), 0, 31, true)
    case O_FPR_C_FPR_C_FPR_C_FPR =>
      One(WithRs3(WithRs2(WithRs1(WithRd(u, a1), a3), a5), a7).(rm := DYNAMIC))
    case O_FPR_C_FPR_C_FPR_C_FPR_C_RM =>
      One(WithRs3(WithRs2(WithRs1(WithRd(u, a1), a3), a5), a7).(rm := ModeIn(a9)))
    case O_FPR_C_FPR_C_FPR => One(WithRs2(WithRs1(WithRd(u, a1), a3), a5).(rm := DYNAMIC))
    case O_FPR_C_FPR_C_FPR_C_RM => One(WithRs2(WithRs1(WithRd(u, a1), a3), a5).(rm := ModeIn(a7)))
    case O_FPR_C_FPR | O_FPR_C_GPR | O_GPR_C_FPR => One(WithRs1(WithRd(u, a1), a3).(rm := DYNAMIC))
    case O_FPR_C_FPR_C_RM | O_FPR_C_GPR_C_RM | O_GPR_C_FPR_C_RM =>
      One(WithRs1(WithRd(u, a1), a3).(rm := ModeIn(a5)))
    case O_GPR_C_FPR_C_FPR => One(WithRs2(WithRs1(WithRd(u, a1), a3), a5))
    case O_FPR_C_I_LP_GPR_RP =>
      if op.InFdI? then Immediate(WithRs1(WithRd(u, a1), a5), NumberIn(a3), -2048, 2047, true)
      else if op.InFdS? then Immediate(WithRs1(WithRs2(u, a1), a5), NumberIn(a3), -2048, 2047, true)
      else One(u)
  }

  function ParseSyntax(env: Env, s: State, syntax: SyntaxType, op: Mnemonic): Parsed {
    match Shape(syntax, op)
    case None => NoMatch
    case Some(tags) => if FitsLine(env, s, tags) then Build(env, s, syntax, op) else NoMatch
  }

  /** The first syntax that fits decides. */
  function ParseAny(env: Env, s: State, syntaxes: seq<SyntaxType>, op: Mnemonic): Parsed {
    if syntaxes == [] then NoMatch
    else
      var first := ParseSyntax(env, s, syntaxes[0], op);
      if first.NoMatch? then ParseAny(env, s, syntaxes[1..], op) else first
  }
}
