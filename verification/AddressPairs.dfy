/**
 The two-instruction sequences the assembler expands an address or a constant into, and when executing
 them gives the address or the constant. The upper instruction contributes `imm << 12`, an `int32_t`
 (src/vm/rvss/rvss_vm.cpp), and the second one adds its own immediate.
 */
module AddressPairs {
  import opened Words
  import opened Text
  import opened Instructions
  import opened Units
  import opened Encoder
  import opened Decoder
  import opened ImmGen
  import opened Tokens
  import opened ParserState
  import opened Operands
  import opened OperandTheorems
  import opened WordArithmetic

  /** What `lui` loads and `auipc` adds to its own address. */
  function UpperPart(w: bv32): int { Int32(By12(ImmWord(w))) }

  lemma UpperBits(imm: bv32)
    ensures By12(Masked(imm, 0xF_FFFF)) == By12(imm)
  {
  }

  /** Whatever integer the upper instruction was given, its part is 4096 times that, modulo 2^32. */
  lemma UpperPartOf(imm: int, rd: bv32, opcode: bv32)
    requires rd < 32 && (opcode == 0x37 || opcode == 0x17)
    ensures UpperPart(PackU(FromInt32(imm), rd, opcode)) == Signed32(imm * 0x1000)
  {
    hide ImmWord, PackU, By12, Masked, Int32, FromInt32;
    ImmOfPackU(FromInt32(imm), rd, opcode);
    UpperBits(FromInt32(imm));
    ShiftedBy12(imm);
  }

  /** The word of an `auipc` or `lui` unit. */
  lemma UpperUnit(name: UName, register: Kind, imm: int, line: nat)
    requires IsRegisterKind(register) && IsInt32(imm)
    ensures var u := WithImm(WithRd(Blank(InU(name), line), register), imm);
      Generate(u).Ok? && UpperPart(Generate(u).value) == Signed32(imm * 0x1000)
  {
    hide UpperPart, ReadFields, RegisterReads, Encoder.Number, Clip, ToText, RegisterName, PackU, FromInt32;
    var u := WithImm(WithRd(Blank(InU(name), line), register), imm);
    RegisterNameReads(register);
    NumberReads(imm);
    ReadableGenerates(u);
    UpperFields(u);
    var x := ReadFields(U, u).value;
    UpperPartOf(imm, x.rd, OpcodeU(name));
  }

  lemma UpperFields(u: Unit)
    requires Readable(u, true) && u.op.InU?
    ensures ReadFields(U, u).Ok? && ReadFields(U, u).value.rd < 32
    ensures Encoder.Number(u.imm) == Ok(ReadFields(U, u).value.imm)
  {
    hide ReadFields, RegisterIndex, Encoder.Number;
    ReadableFields(U, u);
  }

  lemma LowerFields(u: Unit)
    requires Readable(u, true) && u.op.InI1?
    ensures ReadFields(I1, u).Ok? && ReadFields(I1, u).value.rd < 32 && ReadFields(I1, u).value.rs1 < 32
    ensures Encoder.Number(u.imm) == Ok(ReadFields(I1, u).value.imm)
  {
    hide ReadFields, RegisterIndex, Encoder.Number;
    ReadableFields(I1, u);
  }

  /** The word of the second unit gives its immediate back. */
  lemma LowerUnit(name: I1Name, rd: Kind, rs1: Kind, imm: int, line: nat)
    requires IsRegisterKind(rd) && IsRegisterKind(rs1) && -2048 <= imm <= 2047 && name != kaddiw
    ensures var u := WithImm(WithRs1(WithRd(Blank(InI1(name), line), rd), rs1), imm);
      Generate(u).Ok? && ImmGenerator(Generate(u).value) == imm
  {
    hide ImmGenerator, ReadFields, RegisterReads, Encoder.Number, Clip, ToText, RegisterName, Word, FromInt32;
    var u := WithImm(WithRs1(WithRd(Blank(InI1(name), line), rd), rs1), imm);
    RegisterNameReads(rd);
    RegisterNameReads(rs1);
    NumberReads(imm);
    ReadableGenerates(u);
    LowerFields(u);
    LowerWord(name, ReadFields(I1, u).value, imm);
  }

  lemma LowerWord(name: I1Name, x: Fields, imm: int)
    requires x.rd < 32 && x.rs1 < 32 && -2048 <= imm <= 2047 && x.imm == FromInt32(imm) && name != kaddiw
    ensures ImmGenerator(Word(I1, InI1(name), x)) == imm
  {
    hide ImmWord, Pack12, InSigned, Int32, FromInt32;
    LowerRange(imm);
    ImmOfPackI(x.imm, x.rs1, Funct3I1(name), x.rd, OpcodeI1(name));
  }

  lemma LowerRange(imm: int)
    requires -2048 <= imm <= 2047
    ensures InSigned(FromInt32(imm), 0x800) && Int32(FromInt32(imm)) == imm
  {
    Powers();
    IntFromInt(imm);
    FromIntRange(imm, 11, 0x800);
  }

  /*
   * Splitting a number.
   */

  /** The nearest multiple of 4096, and the rest. */
  lemma SplitNearest(d: int)
    ensures var f := (d + 0x800) / 0x1000; d == f * 0x1000 + (d - f * 0x1000) && -2048 <= d - f * 0x1000 <= 2047
  {
  }

  lemma Signed32Multiple(n: int)
    ensures exists k: int :: Signed32(n) == n + TWO32 * k
  {
    var k := if Low(n) <= INT32_MAX then -(n / TWO32) else -(n / TWO32) - 1;
    assert Signed32(n) == n + TWO32 * k;
  }

  lemma Signed32Shift(n: int, k: int)
    ensures Signed32(n + TWO32 * k) == Signed32(n)
  {
    assert (n + TWO32 * k) / TWO32 == n / TWO32 + k;
  }

  lemma Signed32Small(n: int)
    requires IsInt32(n)
    ensures Signed32(n) == n
  {
  }

  /** The lower part is exact, and the upper part is off by a multiple of 2^32. */
  lemma PartsOf(d: int)
    ensures var f := (d + 0x800) / 0x1000;
      && Signed32(Hi20(d) * 0x1000) == Signed32(f * 0x1000)
      && Lo12(d) == d - f * 0x1000
      && -2048 <= Lo12(d) <= 2047
  {
    hide Signed32;
    var f := (d + 0x800) / 0x1000;
    SplitNearest(d);
    Signed32Multiple(f);
    var j: int :| Signed32(f) == f + TWO32 * j;
    assert Hi20(d) * 0x1000 == f * 0x1000 + TWO32 * (0x1000 * j);
    Signed32Shift(f * 0x1000, 0x1000 * j);
    Signed32Multiple(f * 0x1000);
    var k: int :| Signed32(f * 0x1000) == f * 0x1000 + TWO32 * k;
    assert d - Signed32(Hi20(d) * 0x1000) == (d - f * 0x1000) + TWO32 * (-k);
    Signed32Shift(d - f * 0x1000, -k);
    Signed32Small(d - f * 0x1000);
  }

  /** The distances that the pair covers. */
  predicate InPairRange(d: int) { -0x8000_0800 <= d < 0x7FFF_F800 }

  lemma InPairRangeIff(d: int)
    ensures var f := (d + 0x800) / 0x1000; InPairRange(d) <==> Signed32(f * 0x1000) == f * 0x1000
  {
    var f := (d + 0x800) / 0x1000;
    assert InPairRange(d) <==> -0x8_0000 <= f < 0x8_0000;
    if IsInt32(f * 0x1000) { Signed32Small(f * 0x1000); }
  }

  lemma Congruent(x: int, y: int)
    requires -TWO64 < x - y < TWO64
    ensures x % TWO64 == y % TWO64 <==> x == y
  {
    var p, q := x / TWO64, y / TWO64;
    assert x == TWO64 * p + x % TWO64 && y == TWO64 * q + y % TWO64;
    if x % TWO64 == y % TWO64 { assert x - y == TWO64 * (p - q); }
  }

  /**
   `la`, and a load from a data label: both words exist, and the upper part added to the instruction's own
   address and the lower immediate give the label's address in memory exactly when the distance is between
   -2^31 - 2^11 and 2^31 - 2^11. Nothing checks that it is.
   */
  lemma AddressPairReaches(env: Env, s: State, name: I1Name, register: Kind, target: string)
    requires target in s.symbols && s.symbols[target].isData && IsRegisterKind(register) && name != kaddiw
    ensures var p := AddressPair(env, s, InI1(name), register, target);
      && p.Parsed? && |p.units| == 2
      && Generate(p.units[0].0).Ok? && Generate(p.units[1].0).Ok?
      && var pc := 4 * s.instructionIndex % TWO32;
         var reached := pc + UpperPart(Generate(p.units[0].0).value) + ImmGenerator(Generate(p.units[1].0).value);
         (reached % TWO64 == (env.dataStart + s.symbols[target].address) % TWO64
          <==> InPairRange(DataOffset(env, s, s.symbols[target].address)))
  {
    hide UpperPart, ImmGenerator, Generate, Hi20, Lo12, Clip, ToText, RegisterName;
    var address := s.symbols[target].address;
    var d, line := DataOffset(env, s, address), Current(env, s).line;
    PartsFit(d);
    PartsOf(d);
    UpperUnit(kauipc, register, Hi20(d), line);
    LowerUnit(name, register, register, Lo12(d), line);
    DistanceReaches(env, s, address, d);
  }

  lemma DistanceReaches(env: Env, s: State, address: nat, d: int)
    requires d == DataOffset(env, s, address)
    ensures var pc, f := 4 * s.instructionIndex % TWO32, (d + 0x800) / 0x1000;
      (pc + Signed32(f * 0x1000) + (d - f * 0x1000)) % TWO64 == (env.dataStart + address) % TWO64 <==> InPairRange(d)
  {
    hide Signed32;
    var pc := 4 * s.instructionIndex % TWO32;
    var symbol := (env.dataStart + address) % TWO64;
    assert pc + d == Int64(symbol);
    assert Int64(symbol) % TWO64 == symbol % TWO64 == symbol;
    FarReaches(pc, d);
  }

  /** Reduced modulo 2^64, the sum misses only by the upper part's wrap-around. */
  lemma FarReaches(pc: int, d: int)
    requires 0 <= pc < TWO32 && -TWO63 - TWO32 < d < TWO63
    ensures var f := (d + 0x800) / 0x1000;
      (pc + Signed32(f * 0x1000) + (d - f * 0x1000)) % TWO64 == (pc + d) % TWO64 <==> InPairRange(d)
  {
    var f := (d + 0x800) / 0x1000;
    InPairRangeIff(d);
    Congruent(pc + Signed32(f * 0x1000) + (d - f * 0x1000), pc + d);
  }

  /**
   `li` of a 32-bit number outside the 12-bit range: the upper part plus what is added to it is the number
   exactly when it is below 2^31 - 2^11; above that the upper part comes out negative.
   */
  lemma LoadImmediateLoads(register: Kind, n: int, line: nat)
    requires IsRegisterKind(register) && IsInt32(n) && !(-2048 <= n <= 2047)
    ensures var p := LoadImmediate(register, n, line);
      && p.Parsed? && 1 <= |p.units| <= 2 && Generate(p.units[0].0).Ok?
      && (|p.units| == 2 ==> Generate(p.units[1].0).Ok?)
      && var rest := if |p.units| == 2 then ImmGenerator(Generate(p.units[1].0).value) else 0;
         UpperPart(Generate(p.units[0].0).value) + rest == n <==> n < 0x7FFF_F800
  {
    hide UpperPart, ImmGenerator, Generate, Clip, ToText, RegisterName;
    var upper := (n + 0x800) / 0x1000;
    SplitNearest(n);
    InPairRangeIff(n);
    UpperUnit(klui, register, upper, line);
    LowerUnit(kaddi, register, register, n - upper * 0x1000, line);
  }

  /** `li` of a number in the 12-bit range is one `addi` to the zero register, and holds the number. */
  lemma SmallImmediateLoads(register: Kind, n: int, line: nat)
    requires IsRegisterKind(register) && -2048 <= n <= 2047
    ensures var p := LoadImmediate(register, n, line);
      && p.Parsed? && |p.units| == 1
      && Generate(p.units[0].0).Ok? && ImmGenerator(Generate(p.units[0].0).value) == n
  {
    hide ImmGenerator, Generate, Clip, ToText, RegisterName;
    LowerUnit(kaddi, register, GpRegister(0), n, line);
  }
}
