/**
 What a line of the text section means: the instructions, operands in their roles, that it stands for
 when it is the `k`-th instruction of a program with these symbols. Lines that name labels and
 pseudo-instructions are included; what the words keep of an immediate is said by `Kept`.
 */
module LineMeaning {
  import opened Words
  import opened Text
  import opened Instructions
  import opened Units
  import opened Encoder
  import opened Decoder
  import opened Tokens
  import opened ParserState
  import opened Operands
  import opened OperandTheorems
  import opened LineRoundTrip
  import opened WordArithmetic
  import opened AddressPairs

  /** An instruction and its operands. */
  datatype Sense = Sense(op: Mnemonic, roles: Roles)

  /** The immediates that a unit can hold: a jump to a data label may be odd, an `auipc` may go backward. */
  predicate UnitRange(f: Format, n: int) {
    match f
    case U => IsInt32(n)
    case J => -1048576 <= n <= 1048575
    case _ => LineRange(f, n)
  }

  /** What a word has room for: the low twenty bits of an upper immediate, and no low bit of a jump. */
  function KeptImm(f: Format, n: int): int {
    match f
    case U => n % 0x10_0000
    case J => n - n % 2
    case _ => n
  }

  function Kept(f: Format, r: Roles): Roles { r.(imm := KeptImm(f, r.imm)) }

  /** The unit spells this instruction: the texts its format needs, and nothing else. */
  predicate Spells(u: Unit, x: Sense) {
    && u.op == x.op && FormatOf(x.op).Some?
    && var f := FormatOf(x.op).value;
       Texts(u, f, x.roles) && Bare(u, f) && (UsesImm(f) ==> UnitRange(f, x.roles.imm))
  }

  /** The word decodes to this instruction. */
  predicate Means(w: bv32, x: Sense) {
    && FormatOf(x.op).Some?
    && var f := FormatOf(x.op).value;
       Decode(w) == Some(Insn(x.op, FieldsFor(f, Kept(f, x.roles))))
  }

  /*
   * Units that spell an instruction.
   */

  lemma KeptInRange(f: Format, n: int)
    ensures LineRange(f, n) ==> KeptImm(f, n) == n
    ensures UnitRange(f, n) ==> LineRange(f, KeptImm(f, n))
  {
  }

  /** A line's unit spells the line. */
  lemma StandsSpells(u: Unit, op: Mnemonic, r: Roles)
    requires FormatOf(op).Some? && Stands(u, op, r)
    ensures Spells(u, Sense(op, r))
  {
    hide Texts, Bare, DecodesTo, UsesImm;
  }

  lemma AnyNumberReads(u: Unit, f: Format, n: int)
    ensures UsesImm(f) && u.imm == Clip(ToText(n), IMM_CAPACITY) && UnitRange(f, n) ==>
      Encoder.Number(u.imm) == Ok(FromInt32(n))
  {
    hide UsesImm, Clip, ToText, Encoder.Number, FromInt32;
    if UsesImm(f) && UnitRange(f, n) { RangeIsInt32(f, n); NumberReads(n); }
  }

  lemma RangeIsInt32(f: Format, n: int)
    requires UsesImm(f) && UnitRange(f, n)
    ensures IsInt32(n)
  {
  }

  lemma SpellsReads(u: Unit, x: Sense)
    requires Spells(u, x)
    ensures ReadFields(FormatOf(x.op).value, u) == Ok(FieldsFor(FormatOf(x.op).value, x.roles))
  {
    hide RegisterIndex, RegisterBits, RegisterWritten, Encoder.Number, Clip, ToText, FromInt32, UnitRange, FieldsFor,
      ReadFields, UsesRd, UsesRs1, UsesRs2, UsesRs3, UsesImm, UsesCsr, UsesRm, FormatOf, Bare;
    var f := FormatOf(x.op).value;
    RegistersReadBack(u, x.roles);
    AnyNumberReads(u, f, x.roles.imm);
    ReadFieldsAre(u, f, x.roles);
  }

  lemma KeptWritten(u: Unit, x: Sense)
    requires Spells(u, x)
    ensures var f := FormatOf(x.op).value;
      var r := Kept(f, x.roles);
      Written(if UsesImm(f) then WithImm(u, r.imm) else u, f, r)
  {
    hide RegisterWritten, Clip, ToText, UnitRange, LineRange, KeptImm, UsesRd, UsesRs1, UsesRs2, UsesRs3, UsesImm,
      UsesCsr, UsesRm, FormatOf, Bare;
    KeptInRange(FormatOf(x.op).value, x.roles.imm);
  }

  lemma LowTwenty(n: int)
    ensures FromInt32(n % 0x10_0000) == Masked(FromInt32(n), 0xF_FFFF)
  {
    hide FromNat32, Masked, Signed32;
    LowOfLow(n);
    SameWord(n);
    SameWord(Low(n));
    SameSigned(n);
    NatLowTwenty(Low(n));
  }

  lemma SameSigned(n: int)
    ensures Signed32(Low(n)) == Signed32(n)
  {
  }

  lemma NatLowTwenty(n: nat)
    ensures FromNat32(n % 0x10_0000) == Masked(FromNat32(n), 0xF_FFFF)
  {
    hide FromNat32, Masked, Or, ShiftLeft, By20;
    var a, c := n % 0x10_0000, n / 0x10_0000;
    Powers();
    SplitBits(a, 20, c);
    FromNatBelow(a, 20, 0x10_0000);
    ShiftBy20(FromNat32(c));
    HighIsMasked(FromNat32(c));
    LowOfOr(FromNat32(a), By20(FromNat32(c)));
  }

  function By20(b: bv32): bv32 { b << 20 }

  lemma LowOfLow(n: int)
    ensures Low(n) % 0x10_0000 == n % 0x10_0000
  {
    var k, q := n / TWO32, Low(n) / 0x10_0000;
    RemainderIs(n, 0x1000 * k + q, Low(n) % 0x10_0000);
  }

  lemma RemainderIs(n: int, m: int, r: int)
    requires n == 0x10_0000 * m + r && 0 <= r < 0x10_0000
    ensures n % 0x10_0000 == r
  {
  }

  lemma ShiftBy20(b: bv32)
    ensures ShiftLeft(b, 20) == By20(b)
  {
    hide ShiftLeft, By4, By12, By20;
    ShiftMore(b, 12, 4);
    ShiftMore(b, 16, 4);
    Shift12(b);
    Shift4(ShiftLeft(b, 12));
    Shift4(ShiftLeft(b, 16));
    TwelveAndEight(b);
  }

  lemma TwelveAndEight(b: bv32)
    ensures By4(By4(By12(b))) == By20(b)
  {
  }

  lemma LowOfOr(a: bv32, b: bv32)
    requires a < 0x10_0000 && Masked(b, 0xF_FFFF) == 0
    ensures Masked(Or(a, b), 0xF_FFFF) == a
  {
  }

  lemma HighIsMasked(b: bv32)
    ensures Masked(By20(b), 0xF_FFFF) == 0
  {
  }

  lemma UpperWord(imm: bv32, rd: bv32, opcode: bv32)
    ensures PackU(Masked(imm, 0xF_FFFF), rd, opcode) == PackU(imm, rd, opcode)
  {
  }

  lemma JumpWordDropsLowBit(imm: bv32, rd: bv32, opcode: bv32)
    ensures PackJ(ClearLow(imm), rd, opcode) == PackJ(imm, rd, opcode)
  {
  }

  lemma EvenBelow(n: int)
    ensures FromInt32(n - n % 2) == ClearLow(FromInt32(n))
  {
    if n % 2 == 1 {
      BeforeOdd(n);
    } else {
      var m := n / 2;
      assert n == 2 * m;
      DoubledWord(m);
      ClearJoined(FromInt32(m));
    }
  }

  lemma ClearJoined(h: bv32)
    ensures ClearLow(Join(h, false)) == Join(h, false)
  {
  }

  lemma KeptUpper(op: Mnemonic, r: Roles)
    ensures Word(U, op, FieldsFor(U, Kept(U, r))) == Word(U, op, FieldsFor(U, r))
  {
    hide FromInt32, PackU, Masked, RegisterBits, OpcodeOf;
    LowTwenty(r.imm);
    UpperWord(FromInt32(r.imm), RegisterBits(r.rd), OpcodeOf(op));
  }

  lemma KeptJump(op: Mnemonic, r: Roles)
    ensures Word(J, op, FieldsFor(J, Kept(J, r))) == Word(J, op, FieldsFor(J, r))
  {
    hide FromInt32, PackJ, ClearLow, RegisterBits, OpcodeOf;
    EvenBelow(r.imm);
    JumpWordDropsLowBit(FromInt32(r.imm), RegisterBits(r.rd), OpcodeOf(op));
  }

  /** A word is the same for the immediate it keeps. */
  lemma KeptWord(f: Format, op: Mnemonic, r: Roles)
    ensures Word(f, op, FieldsFor(f, Kept(f, r))) == Word(f, op, FieldsFor(f, r))
  {
    hide Word, FieldsFor;
    KeptUpper(op, r);
    KeptJump(op, r);
    assert f == U || f == J || Kept(f, r) == r;
  }

  /** Whatever unit spells an instruction generates a word, and the word means the instruction. */
  lemma SpellsMeans(u: Unit, x: Sense)
    requires Spells(u, x)
    ensures Generate(u).Ok? && Means(Generate(u).value, x)
    ensures var f := FormatOf(x.op).value; Generate(u) == Ok(Word(f, x.op, FieldsFor(f, Kept(f, x.roles))))
    ensures var f := FormatOf(x.op).value; WellFormedFields(f, FieldsFor(f, Kept(f, x.roles)))
  {
    hide ReadFields, FieldsFor, WellFormedFields, Texts, Word, Decode, WithImm, Kept, UsesImm;
    var f := FormatOf(x.op).value;
    var r := Kept(f, x.roles);
    SpellsReads(u, x);
    KeptWord(f, x.op, x.roles);
    KeptWritten(u, x);
    WrittenFields(if UsesImm(f) then WithImm(u, r.imm) else u, f, r);
    DecodeEncode(Insn(x.op, FieldsFor(f, r)));
  }

  /*
   * What lines mean.
   */

  /** The distance to a label from instruction `k`. */
  function Distance(symbols: map<string, SymbolData>, name: string, k: nat): int {
    if name in symbols then Offset(symbols[name].address, k) else 0
  }

  /** An `auipc` and an instruction that adds the rest of the distance to its register. */
  function PairMeaning(env: Env, symbols: map<string, SymbolData>, k: nat, op: Mnemonic, register: Kind, name: string): seq<Sense> {
    var d := if name in symbols then DataOffset(env, START.(instructionIndex := k), symbols[name].address) else 0;
    [Sense(InU(kauipc), NONE.(rd := register, imm := Hi20(d))),
     Sense(op, NONE.(rd := register, rs1 := register, imm := Lo12(d)))]
  }

  /** A small number is added to zero; a large one is split at its twelfth bit. */
  function LoadMeaning(register: Kind, n: int): seq<Sense> {
    var upper := (n + 0x800) / 0x1000;
    if -2048 <= n <= 2047 then [Sense(InI1(kaddi), NONE.(rd := register, rs1 := GpRegister(0), imm := n))]
    else
      [Sense(InU(klui), NONE.(rd := register, imm := upper))] +
      (if n == upper * 0x1000 then []
       else [Sense(InI1(kaddi), NONE.(rd := register, rs1 := register, imm := n - upper * 0x1000))])
  }

  function PseudoMeaning(env: Env, symbols: map<string, SymbolData>, k: nat, op: Mnemonic, a1: Kind, a3: Token): seq<Sense> {
    match op
    case InNone(kla) => PairMeaning(env, symbols, k, InI1(kaddi), a1, a3.value)
    case InNone(knop) => [Sense(InI1(kaddi), NOP)]
    case InNone(kli) => LoadMeaning(a1, NumberIn(a3.kind))
    case InNone(kmv) => [Sense(InR(kadd), NONE.(rd := a1, rs1 := a3.kind, rs2 := GpRegister(0)))]
    case InNone(knot) => [Sense(InI1(kxori), NONE.(rd := a1, rs1 := a3.kind, imm := -1))]
    case InNone(kret) => [Sense(InI1(kjalr), RET)]
    case _ => []
  }

  /** What the line at `s.pos` means as the `k`-th instruction; a fence means nothing. */
  function Meaning(env: Env, symbols: map<string, SymbolData>, k: nat, s: State, syntax: SyntaxType, op: Mnemonic): seq<Sense> {
    var a1, a3, a5 := Peek(env, s, 1), Peek(env, s, 3), Peek(env, s, 5);
    match syntax
    case PSEUDO => PseudoMeaning(env, symbols, k, op, a1.kind, a3)
    case O_GPR_C_GPR_C_IL => [Sense(op, NONE.(rs1 := a1.kind, rs2 := a3.kind, imm := Distance(symbols, a5.value, k)))]
    case O_GPR_C_IL => [Sense(op, NONE.(rd := a1.kind, imm := Distance(symbols, a3.value, k)))]
    case O_GPR_C_DL => PairMeaning(env, symbols, k, op, a1.kind, a3.value)
    case _ => if FormatOf(op).None? then [] else [Sense(op, RolesAt(env, s, syntax, op))]
  }

  /** The units are complete and spell these instructions, in this order. */
  predicate SpellsAll(units: seq<(Unit, bool)>, xs: seq<Sense>) {
    |units| == |xs| && forall j :: 0 <= j < |units| ==> units[j].1 && Spells(units[j].0, xs[j])
  }

  lemma UpperSpells(name: UName, register: Kind, n: int, line: nat)
    requires IsRegisterKind(register) && IsInt32(n)
    ensures Spells(WithImm(WithRd(Blank(InU(name), line), register), n), Sense(InU(name), NONE.(rd := register, imm := n)))
  {
    hide Clip, ToText, RegisterName;
  }

  lemma LowerSpells(op: Mnemonic, rd: Kind, rs1: Kind, n: int, line: nat)
    requires op.InI1? && IsRegisterKind(rd) && IsRegisterKind(rs1) && -2048 <= n <= 2047
    ensures Spells(
      WithImm(WithRs1(WithRd(Blank(op, line), rd), rs1), n), Sense(op, NONE.(rd := rd, rs1 := rs1, imm := n)))
  {
    hide Stands, Spells;
    ImmediateWritten(op, line, rd, rs1, n);
    StandsSpells(WithImm(WithRs1(WithRd(Blank(op, line), rd), rs1), n), op, NONE.(rd := rd, rs1 := rs1, imm := n));
  }

  /** `la`, and a load from a label. */
  lemma PairSpells(env: Env, s: State, symbols: map<string, SymbolData>, op: Mnemonic, register: Kind, name: string)
    requires op.InI1? && IsRegisterKind(register) && AddressPair(env, s, op, register, name).Parsed?
    requires name in symbols && name in s.symbols && symbols[name] == s.symbols[name]
    ensures SpellsAll(
      AddressPair(env, s, op, register, name).units, PairMeaning(env, symbols, s.instructionIndex, op, register, name))
  {
    hide Clip, ToText, RegisterName, Spells, Hi20, Lo12, DataOffset, WithImm, WithRd, WithRs1;
    SameDataOffset(env, s, s.symbols[name].address);
    var d, line := DataOffset(env, s, s.symbols[name].address), Current(env, s).line;
    PartsFit(d);
    PartsOf(d);
    UpperSpells(kauipc, register, Hi20(d), line);
    LowerSpells(op, register, register, Lo12(d), line);
  }

  lemma SameDataOffset(env: Env, s: State, address: nat)
    ensures DataOffset(env, START.(instructionIndex := s.instructionIndex), address) == DataOffset(env, s, address)
  {
  }

  lemma LoadSpells(register: Kind, n: int, line: nat)
    requires IsRegisterKind(register) && LoadImmediate(register, n, line).Parsed?
    ensures SpellsAll(LoadImmediate(register, n, line).units, LoadMeaning(register, n))
  {
    hide Clip, ToText, RegisterName, Spells, WithImm, WithRd, WithRs1;
    var upper := (n + 0x800) / 0x1000;
    if -2048 <= n <= 2047 {
      LowerSpells(InI1(kaddi), register, GpRegister(0), n, line);
    } else {
      UpperSpells(klui, register, upper, line);
      LowerSpells(InI1(kaddi), register, register, n - upper * 0x1000, line);
    }
  }

  lemma PseudoSpells(env: Env, s: State, symbols: map<string, SymbolData>, op: Mnemonic)
    requires Applies(env, s, PSEUDO, op) && Pseudo(env, s, op).Parsed?
    requires forall name <- s.symbols :: name in symbols && symbols[name] == s.symbols[name]
    ensures SpellsAll(Pseudo(env, s, op).units, Meaning(env, symbols, s.instructionIndex, s, PSEUDO, op))
  {
    hide Stands, Spells, FitsLine, AddressPair, LoadImmediate, PairMeaning, LoadMeaning, Clip, ToText, RegisterName, Syntaxes,
      WithImm, WithRd, WithRs1, WithRs2;
    var a1, a3 := Peek(env, s, 1).kind, Peek(env, s, 3);
    RegistersAreThere(env, s, PseudoShape(op).value, if op == InNone(kla) || op == InNone(kli) then 1 else 0);
    if op == InNone(kla) {
      KnownInPair(env, s, InI1(kaddi), a1, a3.value);
      PairSpells(env, s, symbols, InI1(kaddi), a1, a3.value);
    } else if op == InNone(kli) {
      LoadSpells(a1, NumberIn(a3.kind), Current(env, s).line);
    } else {
      OtherPseudoSpells(env, s, symbols, op);
    }
  }

  lemma KnownInPair(env: Env, s: State, op: Mnemonic, register: Kind, name: string)
    requires AddressPair(env, s, op, register, name).Parsed?
    ensures name in s.symbols && s.symbols[name].isData
  {
  }

  lemma OtherPseudoSpells(env: Env, s: State, symbols: map<string, SymbolData>, op: Mnemonic)
    requires Applies(env, s, PSEUDO, op) && Pseudo(env, s, op).Parsed? && op != InNone(kla) && op != InNone(kli)
    ensures SpellsAll(Pseudo(env, s, op).units, Meaning(env, symbols, s.instructionIndex, s, PSEUDO, op))
  {
    hide Stands, Spells, Applies, Pseudo, FitsLine, PairMeaning, LoadMeaning;
    OtherPseudos(env, s, op);
    PseudosDecode(env, s, op);
    var x := Meaning(env, symbols, s.instructionIndex, s, PSEUDO, op)[0];
    StandsSpells(Pseudo(env, s, op).units[0].0, x.op, x.roles);
  }

  lemma OtherPseudos(env: Env, s: State, op: Mnemonic)
    requires Pseudo(env, s, op).Parsed? && op != InNone(kla) && op != InNone(kli)
    ensures op in {InNone(knop), InNone(kmv), InNone(knot), InNone(kret)}
  {
  }

  /** A line that names a label to go to. */
  predicate NamesTarget(syntax: SyntaxType) { syntax == O_GPR_C_GPR_C_IL || syntax == O_GPR_C_IL }

  /** Every line that does not, whatever its syntax, spells what it means. */
  lemma LineSpells(env: Env, s: State, symbols: map<string, SymbolData>, syntax: SyntaxType, op: Mnemonic)
    requires Applies(env, s, syntax, op) && Build(env, s, syntax, op).Parsed? && !NamesTarget(syntax)
    requires FormatOf(op).Some? || syntax == PSEUDO
    requires forall name <- s.symbols :: name in symbols && symbols[name] == s.symbols[name]
    ensures SpellsAll(Build(env, s, syntax, op).units, Meaning(env, symbols, s.instructionIndex, s, syntax, op))
  {
    hide Stands, Spells, FitsLine, Syntaxes, Pseudo, AddressPair, PairMeaning, PseudoMeaning, LineDecodes;
    if syntax == PSEUDO {
      PseudoSpells(env, s, symbols, op);
    } else if syntax == O_GPR_C_DL {
      LoadLineSpells(env, s, symbols, op);
    } else {
      PlainLineSpells(env, s, symbols, syntax, op);
    }
  }

  lemma LoadLineSpells(env: Env, s: State, symbols: map<string, SymbolData>, op: Mnemonic)
    requires Applies(env, s, O_GPR_C_DL, op) && Build(env, s, O_GPR_C_DL, op).Parsed?
    requires forall name <- s.symbols :: name in symbols && symbols[name] == s.symbols[name]
    ensures SpellsAll(Build(env, s, O_GPR_C_DL, op).units, Meaning(env, symbols, s.instructionIndex, s, O_GPR_C_DL, op))
  {
    hide Stands, Spells, FitsLine, AddressPair, PairMeaning, Syntaxes;
    LabelLoads(op);
    RegistersAreThere(env, s, Shape(O_GPR_C_DL, op).value, 1);
    KnownInPair(env, s, op, Peek(env, s, 1).kind, Peek(env, s, 3).value);
    PairSpells(env, s, symbols, op, Peek(env, s, 1).kind, Peek(env, s, 3).value);
  }

  lemma LabelLoads(op: Mnemonic)
    requires O_GPR_C_DL in Syntaxes(op)
    ensures op.InI1? && op.i1 != kaddiw
  {
  }

  lemma PlainLineSpells(env: Env, s: State, symbols: map<string, SymbolData>, syntax: SyntaxType, op: Mnemonic)
    requires Applies(env, s, syntax, op) && Build(env, s, syntax, op).Parsed? && FormatOf(op).Some?
    requires !NamesLabel(syntax) && syntax != PSEUDO
    ensures SpellsAll(Build(env, s, syntax, op).units, Meaning(env, symbols, s.instructionIndex, s, syntax, op))
  {
    hide Stands, Spells, Applies, Build, RolesAt;
    LinesDecode(env, s, syntax, op);
    StandsSpells(Build(env, s, syntax, op).units[0].0, op, RolesAt(env, s, syntax, op));
  }

  /*
   * Lines that name a label to go to.
   */

  /** The name of the label. */
  function TargetOf(env: Env, s: State, syntax: SyntaxType): string {
    if syntax == O_GPR_C_GPR_C_IL then Peek(env, s, 5).value else Peek(env, s, 3).value
  }

  /** The unit without its immediate. */
  function JumpUnit(env: Env, s: State, syntax: SyntaxType, op: Mnemonic): Unit {
    var u := Blank(op, Current(env, s).line);
    (if syntax == O_GPR_C_GPR_C_IL then WithRs2(WithRs1(u, Peek(env, s, 1).kind), Peek(env, s, 3).kind)
     else WithRd(u, Peek(env, s, 1).kind)).(target := TargetOf(env, s, syntax))
  }

  /** The line's unit is open, or holds the distance to a text label that was defined before it. */
  lemma JumpLine(env: Env, s: State, syntax: SyntaxType, op: Mnemonic)
    requires Applies(env, s, syntax, op) && NamesTarget(syntax) && Build(env, s, syntax, op).Parsed?
    ensures if syntax == O_GPR_C_GPR_C_IL then op.InB? else op.InJ?
    ensures var units, u, name := Build(env, s, syntax, op).units, JumpUnit(env, s, syntax, op), TargetOf(env, s, syntax);
      && |units| == 1
      && if units[0].1 then
           && name in s.symbols && !s.symbols[name].isData
           && var offset := Offset(s.symbols[name].address, s.instructionIndex);
              && units[0].0 == WithImm(u, offset)
              && (if op.InB? then -4096 <= offset <= 4095 else -1048576 <= offset <= 1048575)
         else units[0].0 == u
  {
    hide Clip, ToText, RegisterName, FitsLine, Syntaxes, Offset;
    JumpSyntaxes(syntax, op);
  }

  lemma JumpSyntaxes(syntax: SyntaxType, op: Mnemonic)
    requires syntax in Syntaxes(op) && NamesTarget(syntax)
    ensures if syntax == O_GPR_C_GPR_C_IL then op.InB? else op.InJ?
  {
  }

  /** With the distance filled in, it spells the line. */
  lemma JumpSpells(env: Env, s: State, symbols: map<string, SymbolData>, syntax: SyntaxType, op: Mnemonic)
    requires Applies(env, s, syntax, op) && NamesTarget(syntax) && Build(env, s, syntax, op).Parsed?
    requires TargetOf(env, s, syntax) in symbols
    requires var offset := Offset(symbols[TargetOf(env, s, syntax)].address, s.instructionIndex);
      if op.InB? then -4096 <= offset <= 4095 && offset % 2 == 0 else -1048576 <= offset <= 1048575
    ensures var offset := Offset(symbols[TargetOf(env, s, syntax)].address, s.instructionIndex);
      var xs := Meaning(env, symbols, s.instructionIndex, s, syntax, op);
      |xs| == 1 && Spells(WithImm(JumpUnit(env, s, syntax, op), offset), xs[0])
  {
    hide Clip, ToText, RegisterName, FitsLine, Syntaxes, Offset, Build;
    JumpSyntaxes(syntax, op);
    RegistersAreThere(env, s, Shape(syntax, op).value, if op.InB? then 2 else 1);
  }
}
