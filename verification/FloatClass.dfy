/**
 Telling single from double precision by looking at a word: `isFInstruction` and `isDInstruction` of
 src/common/instructions.cpp, which pick the floating-point unit that executes it.
 */
module FloatClass {
  import opened Text
  import opened Instructions
  import opened Encoder
  import opened Decoder

  predicate ClassF(opcode: bv32, funct3: bv32, funct7: bv32) {
    if opcode == 7 || opcode == 0x27 then funct3 == 2
    else if opcode == 0x53 then funct7 & 1 == 0 && funct7 != 0x20
    else false
  }

  predicate ClassD(opcode: bv32, funct3: bv32, funct7: bv32) {
    if opcode == 7 || opcode == 0x27 then funct3 == 3
    else if opcode == 0x53 then funct7 & 1 == 1 || funct7 == 0x20
    else false
  }

  predicate IsFInstruction(w: bv32) { ClassF(w & 0x7F, (w >> 12) & 7, (w >> 25) & 0x7F) }

  predicate IsDInstruction(w: bv32) { ClassD(w & 0x7F, (w >> 12) & 7, (w >> 25) & 0x7F) }

  /** No word, encoded or not, is taken for both precisions. */
  lemma ClassesAreExclusive(w: bv32)
    ensures !(IsFInstruction(w) && IsDInstruction(w))
  {
    assert forall funct3: bv32, funct7: bv32 {:trigger ClassF(w & 0x7F, funct3, funct7)} ::
      !(ClassF(w & 0x7F, funct3, funct7) && ClassD(w & 0x7F, funct3, funct7));
  }

  lemma ClassOfFields(w: bv32)
    ensures IsFInstruction(w) <==> ClassF(Opcode(w), Funct3(w), Funct7(w))
    ensures IsDInstruction(w) <==> ClassD(Opcode(w), Funct3(w), Funct7(w))
  {
    assert (w >> 25) & 0x7F == w >> 25;
  }

  lemma ClassOfMoves(op: Mnemonic)
    requires FormatOf(op) == Some(FdI) || FormatOf(op) == Some(FdS)
    ensures PrecisionOf(op) != NotFloat
    ensures ClassF(OpcodeOf(op), Funct3Of(op), 0) <==> PrecisionOf(op) == Single
    ensures ClassD(OpcodeOf(op), Funct3Of(op), 0) <==> PrecisionOf(op) == Double
  {
  }

  lemma ClassOfArithmetic(op: Mnemonic)
    requires FormatOf(op) in {Some(FdR), Some(FdR1), Some(FdR2), Some(FdR3)}
    ensures OpcodeOf(op) == 0x53 && PrecisionOf(op) != NotFloat
    ensures (Funct7Of(op) & 1 == 0 && Funct7Of(op) != 0x20) <==> PrecisionOf(op) == Single
  {
  }

  /** The fused multiply-adds have opcodes of their own, and nothing else has a floating-point opcode. */
  lemma OtherOpcodes(op: Mnemonic)
    ensures FormatOf(op).Some? && FormatOf(op).value !in {FdI, FdS, FdR, FdR1, FdR2, FdR3} ==>
      OpcodeOf(op) != 7 && OpcodeOf(op) != 0x27 && OpcodeOf(op) != 0x53
    ensures FormatOf(op).Some? && FormatOf(op).value !in {FdI, FdS, FdR, FdR1, FdR2, FdR3, FdR4} ==>
      PrecisionOf(op) == NotFloat
  {
  }

  lemma OpcodeOfWord(f: Format, op: Mnemonic, x: Fields)
    requires f !in {FdI, FdS, FdR, FdR1, FdR2, FdR3} && WellFormedFields(f, x)
    ensures Opcode(Word(f, op, x)) == OpcodeOf(op)
  {
    match f
    case R => Pack7Fields(Funct7Of(op), x.rs2, x.rs1, Funct3Of(op), x.rd, OpcodeOf(op));
    case I1 => Pack12Fields(x.imm, x.rs1, Funct3Of(op), x.rd, OpcodeOf(op));
    case I2 => PackI2Fields(Funct6Of(op), x.imm, x.rs1, Funct3Of(op), x.rd, OpcodeOf(op));
    case I3 => Pack12Fields(0, 0, Funct3Of(op), 0, OpcodeOf(op));
    case S => PackSFields(x.imm, x.rs2, x.rs1, Funct3Of(op), OpcodeOf(op));
    case B => PackBFields(x.imm, x.rs2, x.rs1, Funct3Of(op), OpcodeOf(op));
    case U => PackUFields(x.imm, x.rd, OpcodeOf(op));
    case J => PackJFields(x.imm, x.rd, OpcodeOf(op));
    case CsrR => Pack12Fields(Masked(x.csr, 0xFFF), x.rs1, Funct3Of(op), x.rd, OpcodeOf(op));
    case CsrI =>
      LowIsWhole(x.imm);
      Pack12Fields(Masked(x.csr, 0xFFF), x.imm, Funct3Of(op), x.rd, OpcodeOf(op));
    case FdR4 =>
      LowIsWhole(x.rm);
      PackR4Fields(x.rs3, Funct2Of(op), x.rs2, x.rs1, x.rm, x.rd, OpcodeOf(op));
    case _ =>
  }

  lemma FieldsOfFloatWord(f: Format, op: Mnemonic, x: Fields)
    requires f in {FdR, FdR1, FdR2, FdR3} && WellFormedFields(f, x)
    ensures Opcode(Word(f, op, x)) == OpcodeOf(op) && Funct7(Word(f, op, x)) == Funct7Of(op)
  {
    LowIsWhole(x.rm);
    match f
    case FdR => Pack7Fields(Funct7Of(op), x.rs2, x.rs1, Funct3Of(op), x.rd, OpcodeOf(op));
    case FdR1 => Pack7Fields(Funct7Of(op), x.rs2, x.rs1, x.rm, x.rd, OpcodeOf(op));
    case FdR2 => Pack7Fields(Funct7Of(op), Funct5Of(op), x.rs1, x.rm, x.rd, OpcodeOf(op));
    case FdR3 => Pack7Fields(Funct7Of(op), Funct5Of(op), x.rs1, Funct3Of(op), x.rd, OpcodeOf(op));
    case _ =>
  }

  lemma FieldsOfMoveWord(f: Format, op: Mnemonic, x: Fields)
    requires f in {FdI, FdS} && WellFormedFields(f, x)
    ensures Opcode(Word(f, op, x)) == OpcodeOf(op) && Funct3(Word(f, op, x)) == Funct3Of(op)
  {
    match f
    case FdI => Pack12Fields(x.imm, x.rs1, Funct3Of(op), x.rd, OpcodeOf(op));
    case FdS => PackSFields(x.imm, x.rs2, x.rs1, Funct3Of(op), OpcodeOf(op));
    case _ =>
  }

  lemma ClassByOpcode(opcode: bv32, funct3: bv32, funct7: bv32, other: bv32)
    ensures opcode == 7 || opcode == 0x27 ==>
      ClassF(opcode, funct3, funct7) == ClassF(opcode, funct3, other) && ClassD(opcode, funct3, funct7) == ClassD(opcode, funct3, other)
    ensures opcode != 7 && opcode != 0x27 && opcode != 0x53 ==>
      !ClassF(opcode, funct3, funct7) && !ClassD(opcode, funct3, funct7)
    ensures opcode == 0x53 ==> ClassF(opcode, funct3, funct7) == (funct7 & 1 == 0 && funct7 != 0x20)
    ensures opcode == 0x53 ==> ClassD(opcode, funct3, funct7) == !ClassF(opcode, funct3, funct7)
  {
    assert funct7 & 1 == 0 || funct7 & 1 == 1;
  }

  /**
   On every encoded instruction the predicates give the precision the mnemonic is listed under, except
   that a fused multiply-add is taken for neither.
   */
  lemma ClassMatchesTable(i: Insn)
    requires WellFormedInsn(i)
    ensures IsFInstruction(Encode(i)) <==> FormatOf(i.op) != Some(FdR4) && PrecisionOf(i.op) == Single
    ensures IsDInstruction(Encode(i)) <==> FormatOf(i.op) != Some(FdR4) && PrecisionOf(i.op) == Double
  {
    var f, w := FormatOf(i.op).value, Encode(i);
    ClassOfFields(w);
    ClassByOpcode(Opcode(w), Funct3(w), Funct7(w), 0);
    if f in {FdI, FdS} {
      FieldsOfMoveWord(f, i.op, i.fields);
      ClassOfMoves(i.op);
    } else if f in {FdR, FdR1, FdR2, FdR3} {
      FieldsOfFloatWord(f, i.op, i.fields);
      ClassOfArithmetic(i.op);
    } else {
      OpcodeOfWord(f, i.op, i.fields);
      OtherOpcodes(i.op);
    }
  }
}
