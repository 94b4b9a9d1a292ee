/**
 The code generator of src/assembler/code_generator.cpp: an intermediate-code unit's texts are read
 into numbers, and the numbers are packed into a 32-bit word by one of seventeen formats.
 */
module Encoder {
  import opened Words
  import opened Text
  import opened Instructions
  import opened Units

  /** What generating a word can throw. */
  datatype GenerateError = BadNumber(error: NumberError) | EmptyRegister | InvalidInstructionType

  /** The operands of a unit as `uint32_t`s; an operand the format does not use is 0. */
  datatype Fields = Fields(
    rd: bv32, rs1: bv32, rs2: bv32, rs3: bv32, imm: bv32, csr: bv32, rm: bv32)

  /*
   * Which operands a format reads.
   */

  predicate UsesRd(f: Format) {
    match f
    case I3 | S | B | FdS => false
    case _ => true
  }

  predicate UsesRs1(f: Format) {
    match f
    case I3 | U | J | CsrI => false
    case _ => true
  }

  predicate UsesRs2(f: Format) {
    match f
    case R | S | B | FdR | FdR1 | FdR4 | FdS => true
    case _ => false
  }

  predicate UsesRs3(f: Format) { f.FdR4? }

  predicate UsesImm(f: Format) {
    match f
    case I1 | I2 | S | B | U | J | CsrI | FdI | FdS => true
    case _ => false
  }

  predicate UsesCsr(f: Format) {
    match f
    case CsrR | CsrI => true
    case _ => false
  }

  predicate UsesRm(f: Format) {
    match f
    case FdR1 | FdR2 | FdR4 => true
    case _ => false
  }

  /** `extractRegisterIndex`: the number after the first character of a register name. */
  function RegisterIndex(reg: string): Result<bv32, GenerateError> {
    if reg == "" then Err(EmptyRegister) else Number(reg[1..])
  }

  function Number(text: string): Result<bv32, GenerateError> {
    match Stoi(text)
    case Ok(n) => Ok(FromInt32(n))
    case Err(e) => Err(BadNumber(e))
  }

  /** The operands that format `f` reads from a unit. */
  function ReadFields(f: Format, u: Unit): Result<Fields, GenerateError> {
    var rd :- if UsesRd(f) then RegisterIndex(u.rd) else Ok(0);
    var rs1 :- if UsesRs1(f) then RegisterIndex(u.rs1) else Ok(0);
    var rs2 :- if UsesRs2(f) then RegisterIndex(u.rs2) else Ok(0);
    var rs3 :- if UsesRs3(f) then RegisterIndex(u.rs3) else Ok(0);
    var imm :- if UsesImm(f) then Number(u.imm) else Ok(0);
    Ok(Fields(rd, rs1, rs2, rs3, imm, if UsesCsr(f) then u.csr else 0, if UsesRm(f) then u.rm else 0))
  }

  /*
   * Packing.
   */

  /** A seven-bit field, two register fields, a three-bit field, a register field and the opcode. */
  function Pack7(hi: bv32, rs2: bv32, rs1: bv32, mid: bv32, rd: bv32, opcode: bv32): bv32 {
    (hi << 25) | (rs2 << 20) | (rs1 << 15) | (mid << 12) | (rd << 7) | opcode
  }

  /** A twelve-bit field in place of the first two; anything above its twelve bits is shifted out. */
  function Pack12(hi: bv32, rs1: bv32, mid: bv32, rd: bv32, opcode: bv32): bv32 {
    (hi << 20) | (rs1 << 15) | (mid << 12) | (rd << 7) | opcode
  }

  function PackI2(funct6: bv32, imm: bv32, rs1: bv32, funct3: bv32, rd: bv32, opcode: bv32): bv32 {
    (funct6 << 26) | (imm << 20) | (rs1 << 15) | (funct3 << 12) | (rd << 7) | opcode
  }

  function PackS(imm: bv32, rs2: bv32, rs1: bv32, funct3: bv32, opcode: bv32): bv32 {
    var lo := imm & 0x1F;
    var hi := (imm >> 5) & 0x7F;
    (hi << 25) | (rs2 << 20) | (rs1 << 15) | (funct3 << 12) | (lo << 7) | opcode
  }

  function PackB(imm: bv32, rs2: bv32, rs1: bv32, funct3: bv32, opcode: bv32): bv32 {
    var imm12 := (imm >> 12) & 1;
    var imm10_5 := (imm >> 5) & 0x3F;
    var imm4_1 := (imm >> 1) & 0xF;
    var imm11 := (imm >> 11) & 1;
    (imm12 << 31) | (imm10_5 << 25) | (rs2 << 20) | (rs1 << 15) | (funct3 << 12)
    | (imm4_1 << 8) | (imm11 << 7) | opcode
  }

  function PackU(imm: bv32, rd: bv32, opcode: bv32): bv32 {
    ((imm & 0xF_FFFF) << 12) | (rd << 7) | opcode
  }

  function PackJ(imm: bv32, rd: bv32, opcode: bv32): bv32 {
    ((imm & 0x10_0000) << 11) | ((imm & 0x7FE) << 20) | ((imm & 0x800) << 9) | (imm & 0xF_F000)
    | (rd << 7) | opcode
  }

  function PackR4(rs3: bv32, funct2: bv32, rs2: bv32, rs1: bv32, rm: bv32, rd: bv32, opcode: bv32): bv32 {
    (rs3 << 27) | (funct2 << 25) | (rs2 << 20) | (rs1 << 15) | (rm << 12) | (rd << 7) | opcode
  }

  function Masked(x: bv32, mask: bv32): bv32 { x & mask }

  /** The word of format `f` for mnemonic `op`: the seventeen per-format generators. */
  function Word(f: Format, op: Mnemonic, x: Fields): bv32 {
    match f
    case R => Pack7(Funct7Of(op), x.rs2, x.rs1, Funct3Of(op), x.rd, OpcodeOf(op))
    case I1 => Pack12(x.imm, x.rs1, Funct3Of(op), x.rd, OpcodeOf(op))
    case I2 => PackI2(Funct6Of(op), x.imm, x.rs1, Funct3Of(op), x.rd, OpcodeOf(op))
    case I3 => Pack12(0, 0, Funct3Of(op), 0, OpcodeOf(op))
    case S => PackS(x.imm, x.rs2, x.rs1, Funct3Of(op), OpcodeOf(op))
    case B => PackB(x.imm, x.rs2, x.rs1, Funct3Of(op), OpcodeOf(op))
    case U => PackU(x.imm, x.rd, OpcodeOf(op))
    case J => PackJ(x.imm, x.rd, OpcodeOf(op))
    case CsrR => Pack12(Masked(x.csr, 0xFFF), x.rs1, Funct3Of(op), x.rd, OpcodeOf(op))
    case CsrI => Pack12(Masked(x.csr, 0xFFF), Masked(x.imm, 0x1F), Funct3Of(op), x.rd, OpcodeOf(op))
    case FdR => Pack7(Funct7Of(op), x.rs2, x.rs1, Funct3Of(op), x.rd, OpcodeOf(op))
    case FdR1 => Pack7(Funct7Of(op), x.rs2, x.rs1, Masked(x.rm, 7), x.rd, OpcodeOf(op))
    case FdR2 => Pack7(Funct7Of(op), Funct5Of(op), x.rs1, Masked(x.rm, 7), x.rd, OpcodeOf(op))
    case FdR3 => Pack7(Funct7Of(op), Funct5Of(op), x.rs1, Funct3Of(op), x.rd, OpcodeOf(op))
    case FdR4 => PackR4(x.rs3, Funct2Of(op), x.rs2, x.rs1, Masked(x.rm, 7), x.rd, OpcodeOf(op))
    case FdI => Pack12(x.imm, x.rs1, Funct3Of(op), x.rd, OpcodeOf(op))
    case FdS => PackS(x.imm, x.rs2, x.rs1, Funct3Of(op), OpcodeOf(op))
  }

  /** The word for one unit. A mnemonic in no format has none. */
  function Generate(u: Unit): Result<bv32, GenerateError> {
    match FormatOf(u.op)
    case None => Err(InvalidInstructionType)
    case Some(f) =>
      var x :- ReadFields(f, u);
      Ok(Word(f, u.op, x))
  }

  /** The values of a list of results, or its first error. */
  function Collect<T, E>(rs: seq<Result<T, E>>): (r: Result<seq<T>, E>)
    ensures r.Ok? ==> |r.value| == |rs|
  {
    if rs == [] then Ok([])
    else
      var values :- Collect(rs[..|rs| - 1]);
      var value :- rs[|rs| - 1];
      Ok(values + [value])
  }

  function UnitResults(code: seq<(Unit, bool)>): (rs: seq<Result<bv32, GenerateError>>)
    ensures |rs| == |code|
  {
    seq(|code|, i requires 0 <= i < |code| => Generate(code[i].0))
  }

  /** The words for a whole program, or what the first unit that has no word throws. */
  function GenerateAll(code: seq<(Unit, bool)>): Result<seq<bv32>, GenerateError> {
    Collect(UnitResults(code))
  }

  /** `generateMachineCode`. */
  method GenerateMachineCode(code: seq<(Unit, bool)>) returns (r: Result<seq<bv32>, GenerateError>)
    ensures r == GenerateAll(code)
  {
    ghost var rs := UnitResults(code);
    var words := [];
    for i := 0 to |code|
      invariant Collect(rs[..i]) == Ok(words)
    {
      assert rs[..i + 1][..i] == rs[..i];
      var word := Generate(code[i].0);
      if word.Err? {
        CollectErrorStays(rs, i + 1);
        return Err(word.error);
      }
      words := words + [word.value];
    }
    assert rs[..|code|] == rs;
    return Ok(words);
  }

  lemma {:induction false} CollectErrorStays<T, E>(rs: seq<Result<T, E>>, i: nat)
    requires i <= |rs| && Collect(rs[..i]).Err?
    ensures Collect(rs) == Collect(rs[..i])
  {
    if i == |rs| {
      assert rs[..i] == rs;
    } else {
      var prefix := rs[..|rs| - 1];
      assert prefix[..i] == rs[..i];
      CollectErrorStays(prefix, i);
    }
  }

  /** All results are values exactly when collecting them succeeds, and then it collects those values. */
  lemma {:induction false} CollectAt<T, E>(rs: seq<Result<T, E>>)
    ensures Collect(rs).Ok? <==> forall i :: 0 <= i < |rs| ==> rs[i].Ok?
    ensures Collect(rs).Ok? ==> forall i :: 0 <= i < |rs| ==> rs[i] == Ok(Collect(rs).value[i])
  {
    if rs == [] {
    } else {
      var n := |rs| - 1;
      var prefix := rs[..n];
      CollectAt(prefix);
      assert forall i :: 0 <= i < n ==> prefix[i] == rs[i];
      if Collect(prefix).Err? {
        var i :| 0 <= i < n && prefix[i].Err?;
        assert rs[i].Err?;
      }
    }
  }

  /** A program has code exactly when each of its units has, and its words are its units' words in order. */
  lemma GenerateAllAt(code: seq<(Unit, bool)>)
    ensures GenerateAll(code).Ok? <==> forall r <- UnitResults(code) :: r.Ok?
    ensures GenerateAll(code).Ok? ==>
      forall i :: 0 <= i < |code| ==> UnitResults(code)[i] == Ok(GenerateAll(code).value[i])
  {
    CollectAt(UnitResults(code));
  }
}
