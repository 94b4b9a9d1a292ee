/**
 Token lists on which the program does something its users would not expect: an input for each condition
 that the theorems state.
 */
module Counterexamples {
  import opened Words
  import opened Text
  import opened Instructions
  import opened Units
  import opened Encoder
  import opened Decoder
  import opened Tokens
  import opened ParserState
  import opened Operands
  import opened OperandTheorems
  import opened LineRoundTrip
  import opened LineMeaning
  import opened OneLine
  import opened EndToEnd
  import opened SourceToCode
  import opened SharedWords
  import opened LoadedPairs
  import Assembly
  import Example
  import Coverage
  import PassOne

  /*
   * Tokens.
   */

  function Tok(kind: Kind): Token { Token(kind, "", 1) }

  /** A line of a mnemonic and two operands. */
  function Two(op: Mnemonic, a: Kind, b: Kind): seq<Token> {
    [Tok(Opcode(op)), Tok(a), Tok(Comma), Tok(b), Tok(Eof)]
  }

  function Three(op: Mnemonic, a: Kind, b: Kind, c: Kind): seq<Token> {
    [Tok(Opcode(op)), Tok(a), Tok(Comma), Tok(b), Tok(Comma), Tok(c), Tok(Eof)]
  }

  function Program(tokens: seq<Token>): Env { Env(tokens, 0x1000_0000, true) }

  lemma TwoFits(op: Mnemonic, a: Kind, b: Kind, s: Tag, t: Tag)
    requires HasTag(a, s) && HasTag(b, t)
    ensures IsOneLine(Two(op, a, b), op) && FitsLine(Program(Two(op, a, b)), START, [s, Com, t])
    ensures var env := Program(Two(op, a, b));
      Current(env, START).line == 1 && Peek(env, START, 1).kind == a && Peek(env, START, 3).kind == b
  {
    NotADataWord();
  }

  lemma NotADataWord()
    ensures !IsDataWord("")
  {
  }

  lemma ThreeFits(op: Mnemonic, a: Kind, b: Kind, c: Kind, s: Tag, t: Tag, u: Tag)
    requires HasTag(a, s) && HasTag(b, t) && HasTag(c, u)
    ensures IsOneLine(Three(op, a, b, c), op) && FitsLine(Program(Three(op, a, b, c)), START, [s, Com, t, Com, u])
    ensures var env := Program(Three(op, a, b, c));
      && Current(env, START).line == 1 && Peek(env, START, 1).kind == a && Peek(env, START, 3).kind == b
      && Peek(env, START, 5).kind == c
  {
    NotADataWord();
  }

  /** The first syntax decides. */
  lemma FirstParses(env: Env, op: Mnemonic, units: seq<(Unit, bool)>)
    requires Syntaxes(op) != [] && Applies(env, START, Syntaxes(op)[0], op)
    requires Build(env, START, Syntaxes(op)[0], op) == Parsed(units)
    ensures ParseAny(env, START, Syntaxes(op), op) == Parsed(units)
  {
    hide Build, Shape, Syntaxes, FitsLine;
  }

  /** The first syntax does not fit, and the second one decides. */
  lemma SecondParses(env: Env, op: Mnemonic, units: seq<(Unit, bool)>)
    requires |Syntaxes(op)| >= 2 && !Applies(env, START, Syntaxes(op)[0], op) && Applies(env, START, Syntaxes(op)[1], op)
    requires Build(env, START, Syntaxes(op)[1], op) == Parsed(units)
    ensures ParseAny(env, START, Syntaxes(op), op) == Parsed(units)
  {
    hide Build, Shape, Syntaxes, FitsLine;
    var rest := Syntaxes(op)[1..];
    assert rest[0] == Syntaxes(op)[1];
    assert ParseAny(env, START, rest, op) == Parsed(units);
  }

  /*
   * The first pass that does not end.
   */

  const STUCK: Env := Program([Token(Label, "data", 1), Tok(Eof)])

  /** On a label named `data` the first pass never gets anywhere. */
  lemma LabelNamedData()
    ensures PassOne.EofTerminated(STUCK.tokens)
    ensures forall n: nat :: !Current(STUCK, PassOne.Iterations(STUCK, START, n)).kind.Eof?
  {
    assert PassOne.IsStuck(STUCK.tokens[0]);
    PassOne.EndsIff(STUCK);
  }

  /*
   * An accepted program without code.
   */

  const FENCE: Env := Program([Tok(Opcode(InNone(kfence))), Tok(Eof)])

  lemma FenceIsAccepted()
    ensures Accepted(FENCE) && Assembly.Parse(FENCE).code == [(Blank(InNone(kfence), 1), true)]
  {
    hide Assembly.Parse;
    var op := InNone(kfence);
    NotADataWord();
    assert Syntaxes(op) == [O] && Applies(FENCE, START, O, op);
    var units := [(Blank(op, 1), true)];
    FirstParses(FENCE, op, units);
    OneLineProgram(FENCE, op, units);
  }

  /** A fence is accepted, and the code generator throws. */
  lemma FenceHasNoCode()
    ensures Accepted(FENCE) && !HasCode(FENCE)
  {
    hide Assembly.Parse, GenerateAll;
    FenceIsAccepted();
    AcceptedHasCode(FENCE);
    assert FormatOf(Assembly.Parse(FENCE).code[0].0.op).None?;
  }

  /*
   * Constants near the largest one.
   */

  /** `li x1, n`. */
  function Constant(n: Int64Number): Env { Program(Two(InNone(kli), GpRegister(1), Num(n))) }

  function ConstantUnits(n: Int64Number): Parsed { LoadImmediate(GpRegister(1), n, 1) }

  const LARGEST: Env := Constant(0x7FFF_FFFF)

  lemma LargestIsAccepted()
    ensures Accepted(LARGEST) && HasCode(LARGEST) && 1 <= |Assembly.Parse(LARGEST).code| <= 2
    ensures Assembly.Parse(LARGEST).dataBuffer == [] && HeadsConstant(LARGEST, 0)
  {
    hide Assembly.Parse, FitsLine, GenerateAll, Two, Coverage.InText, ConstantUnits;
    var op := InNone(kli);
    ConstantAccepted(0x7FFF_FFFF);
    NoFence(op, GpRegister(1), Num(0x7FFF_FFFF));
    HasCodeIffNoFence(LARGEST);
  }

  /** An `li` of a number that fits 32 bits is accepted. */
  lemma ConstantAccepted(n: Int64Number)
    requires IsInt32(n)
    ensures var env, p := Constant(n), ConstantUnits(n);
      && PassOne.EofTerminated(env.tokens) && Accepted(env) && p.Parsed? && 1 <= |p.units| <= 2
      && Assembly.Parse(env).code == p.units && Assembly.Parse(env).dataBuffer == []
      && |Assembly.Parse(env).origins| == |p.units| && Assembly.Parse(env).origins[0] == 0
  {
    hide Assembly.Parse, FitsLine, Two, ConstantUnits;
    var op := InNone(kli);
    TwoFits(op, GpRegister(1), Num(n), Gp, Number);
    ConstantParses(n);
    OneLineProgram(Constant(n), op, ConstantUnits(n).units);
  }

  lemma ConstantUnitsAre(n: Int64Number)
    requires IsInt32(n)
    ensures var p := ConstantUnits(n); p.Parsed? && 1 <= |p.units| <= 2 && AllComplete(p.units)
  {
    hide WithImm, WithRd, WithRs1;
  }

  lemma ConstantParses(n: Int64Number)
    requires IsInt32(n)
    ensures ParseAny(Constant(n), START, Syntaxes(InNone(kli)), InNone(kli)) == ConstantUnits(n)
    ensures var p := ConstantUnits(n); p.Parsed? && 1 <= |p.units| <= 2 && AllComplete(p.units)
  {
    hide FitsLine, LoadImmediate, Two;
    var op := InNone(kli);
    ConstantUnitsAre(n);
    TwoFits(op, GpRegister(1), Num(n), Gp, Number);
    assert Syntaxes(op) == [PSEUDO] && Applies(Constant(n), START, PSEUDO, op);
    FirstParses(Constant(n), op, ConstantUnits(n).units);
  }

  lemma NoFence(op: Mnemonic, a: Kind, b: Kind)
    requires !IsFence(op) && !a.Opcode? && !b.Opcode?
    ensures forall p: nat :: !FenceAt(Two(op, a, b), p)
    ensures Two(op, a, b)[0].kind == Opcode(op) && Two(op, a, b)[3].kind == b && |Two(op, a, b)| == 5
  {
  }

  /** `li x1, 2147483647` is accepted and loads, and its instructions leave another number. */
  lemma LargestConstantIsMissed()
    ensures Loads(LARGEST, Example.FRESH) && HeadsConstant(LARGEST, 0) && 1 < |Code(LARGEST)|
    ensures ConstantAt(LARGEST, 0, 0x7FFF_FFFF) != 0x7FFF_FFFF
  {
    hide Assembly.Parse, GenerateAll, HeadsConstant, ConstantAt, Two, Code, Fetches;
    LargestIsAccepted();
    Example.SmallProgramLoads(LARGEST);
    NoFence(InNone(kli), GpRegister(1), Num(0x7FFF_FFFF));
    FirstOrigin();
    LoadedConstantLoads(LARGEST, Example.FRESH, 0);
  }

  lemma FirstOrigin()
    requires Accepted(LARGEST) && HeadsConstant(LARGEST, 0)
    ensures Assembly.Parse(LARGEST).origins[0] == 0
  {
    hide Assembly.Parse;
    NoFence(InNone(kli), GpRegister(1), Num(0x7FFF_FFFF));
  }

  /*
   * Distinct units with the same word.
   */

  function InTag(tag: Tag, n: RegisterNumber): Kind { if tag == Fp then FpRegister(n) else GpRegister(n) }

  /** The register tags of the two syntaxes of such a conversion. */
  lemma SwappingSyntaxes(op: Mnemonic)
    requires SwapsFiles(op)
    ensures |Syntaxes(op)| == 2 && IsConversion(Syntaxes(op)[0]) && IsConversion(Syntaxes(op)[1])
    ensures !IsRounded(Syntaxes(op)[0]) && IsRounded(Syntaxes(op)[1])
  {
  }

  lemma SwappingShapes(op: Mnemonic)
    requires SwapsFiles(op)
    ensures |Syntaxes(op)| == 2 && Shape(Syntaxes(op)[0], op).Some? && Shape(Syntaxes(op)[1], op).Some?
    ensures var x, y := Shape(Syntaxes(op)[0], op).value, Shape(Syntaxes(op)[1], op).value;
      && |x| == 3 && |y| == 5 && x == [x[0], Com, x[2]] && y == [y[0], Com, y[2], Com, Mode]
      && (x[0] == Gp || x[0] == Fp) && (x[2] == Gp || x[2] == Fp) && (y[0] == Gp || y[0] == Fp) && (y[2] == Gp || y[2] == Fp)
      && (x[0] != y[0] || x[2] != y[2])
  {
  }

  /** The conversion without a rounding mode, as its first syntax has it. */
  function PlainLine(op: Mnemonic, a: RegisterNumber, b: RegisterNumber): seq<Token>
    requires SwapsFiles(op)
  {
    SwappingShapes(op);
    var tags := Shape(Syntaxes(op)[0], op).value;
    Two(op, InTag(tags[0], a), InTag(tags[2], b))
  }

  /** The conversion with the dynamic rounding mode, as its second syntax has it. */
  function RoundedLine(op: Mnemonic, a: RegisterNumber, b: RegisterNumber): seq<Token>
    requires SwapsFiles(op)
  {
    SwappingShapes(op);
    var tags := Shape(Syntaxes(op)[1], op).value;
    Three(op, InTag(tags[0], a), InTag(tags[2], b), Rm(DYNAMIC))
  }

  function Conversion(op: Mnemonic, s: Tag, a: RegisterNumber, t: Tag, b: RegisterNumber): Sense {
    Sense(op, NONE.(rd := InTag(s, a), rs1 := InTag(t, b), rm := DYNAMIC))
  }

  function ConversionUnit(op: Mnemonic, s: Tag, a: RegisterNumber, t: Tag, b: RegisterNumber): Unit {
    WithRs1(WithRd(Blank(op, 1), InTag(s, a)), InTag(t, b)).(rm := DYNAMIC)
  }

  lemma ConversionSpells(op: Mnemonic, s: Tag, a: RegisterNumber, t: Tag, b: RegisterNumber)
    requires op.InFdR2?
    ensures Spells(ConversionUnit(op, s, a, t, b), Conversion(op, s, a, t, b))
  {
    hide Stands, Spells, WithRd, WithRs1;
    ConversionWritten(op, 1, InTag(s, a), InTag(t, b), DYNAMIC);
    var x := Conversion(op, s, a, t, b);
    StandsSpells(ConversionUnit(op, s, a, t, b), op, x.roles);
  }

  lemma PlainBuild(env: Env, s: State, syntax: SyntaxType, op: Mnemonic)
    requires IsConversion(syntax) && !IsRounded(syntax)
    ensures Build(env, s, syntax, op) ==
      One(WithRs1(WithRd(Blank(op, Current(env, s).line), Peek(env, s, 1).kind), Peek(env, s, 3).kind).(rm := DYNAMIC))
  {
  }

  lemma RoundedBuild(env: Env, s: State, syntax: SyntaxType, op: Mnemonic)
    requires IsRounded(syntax)
    ensures Build(env, s, syntax, op) ==
      One(WithRs1(WithRd(Blank(op, Current(env, s).line), Peek(env, s, 1).kind), Peek(env, s, 3).kind).(rm := ModeIn(Peek(env, s, 5).kind)))
  {
  }

  lemma PlainProgram(op: Mnemonic, s: Tag, a: RegisterNumber, t: Tag, b: RegisterNumber)
    requires op.InFdR2? && (s == Gp || s == Fp) && (t == Gp || t == Fp)
    requires Syntaxes(op) != [] && IsConversion(Syntaxes(op)[0]) && !IsRounded(Syntaxes(op)[0])
    requires Shape(Syntaxes(op)[0], op) == Some([s, Com, t])
    ensures var env := Program(Two(op, InTag(s, a), InTag(t, b)));
      Accepted(env) && Assembly.Parse(env).code == [(ConversionUnit(op, s, a, t, b), true)]
  {
    hide Assembly.Parse, Syntaxes, Shape, FitsLine, WithRd, WithRs1, Two, Build, ParseAny;
    var env := Program(Two(op, InTag(s, a), InTag(t, b)));
    TwoFits(op, InTag(s, a), InTag(t, b), s, t);
    PlainBuild(env, START, Syntaxes(op)[0], op);
    var units := [(ConversionUnit(op, s, a, t, b), true)];
    FirstParses(env, op, units);
    OneLineProgram(env, op, units);
  }

  lemma RoundedProgram(op: Mnemonic, s: Tag, t: Tag, q: Tag, a: RegisterNumber, r: Tag, b: RegisterNumber)
    requires op.InFdR2? && (q == Gp || q == Fp) && (r == Gp || r == Fp)
    requires |Syntaxes(op)| == 2 && IsRounded(Syntaxes(op)[1])
    requires Shape(Syntaxes(op)[0], op) == Some([s, Com, t]) && Shape(Syntaxes(op)[1], op) == Some([q, Com, r, Com, Mode])
    ensures var env := Program(Three(op, InTag(q, a), InTag(r, b), Rm(DYNAMIC)));
      Accepted(env) && Assembly.Parse(env).code == [(ConversionUnit(op, q, a, r, b), true)]
  {
    hide Assembly.Parse, Syntaxes, Shape, FitsLine, WithRd, WithRs1, Three, Build, ParseAny;
    var env := Program(Three(op, InTag(q, a), InTag(r, b), Rm(DYNAMIC)));
    ThreeFits(op, InTag(q, a), InTag(r, b), Rm(DYNAMIC), q, r, Mode);
    FirstDoesNotFit(op, InTag(q, a), InTag(r, b), Rm(DYNAMIC), s, t);
    RoundedBuild(env, START, Syntaxes(op)[1], op);
    var units := [(ConversionUnit(op, q, a, r, b), true)];
    SecondParses(env, op, units);
    OneLineProgram(env, op, units);
  }

  /** The line with a rounding mode is longer than the first syntax wants. */
  lemma FirstDoesNotFit(op: Mnemonic, a: Kind, b: Kind, c: Kind, s: Tag, t: Tag)
    ensures !FitsLine(Program(Three(op, a, b, c)), START, [s, Com, t])
  {
    var env := Program(Three(op, a, b, c));
    assert Peek(env, START, 4) == Tok(Comma) && Current(env, START).line == 1;
  }

  /**
   Each conversion whose two syntaxes disagree on a register file gives, for all register numbers, two accepted
   programs with the same machine word from different units: `fcvt.w.d x1, f2` and `fcvt.w.d f1, x2, dyn`.
   */
  lemma SwappedFilesCollide(op: Mnemonic, a: RegisterNumber, b: RegisterNumber)
    requires SwapsFiles(op)
    ensures var plain, rounded := Program(PlainLine(op, a, b)), Program(RoundedLine(op, a, b));
      && Accepted(plain) && Accepted(rounded)
      && var s, r := Assembly.Parse(plain).code, Assembly.Parse(rounded).code;
         && |s| == |r| == 1 && Generate(s[0].0) == Generate(r[0].0) && Generate(s[0].0).Ok? && !Alike(s[0].0, r[0].0)
  {
    hide Assembly.Parse, Syntaxes, Shape, Generate, Alike, Spells, Two, Three, ConversionUnit;
    SwappingShapes(op);
    SwappingSyntaxes(op);
    var x, y := Shape(Syntaxes(op)[0], op).value, Shape(Syntaxes(op)[1], op).value;
    PlainProgram(op, x[0], a, x[2], b);
    RoundedProgram(op, x[0], x[2], y[0], a, y[2], b);
    ConversionsCollide(op, x[0], x[2], y[0], y[2], a, b);
  }

  lemma ConversionsCollide(op: Mnemonic, s: Tag, t: Tag, q: Tag, r: Tag, a: RegisterNumber, b: RegisterNumber)
    requires op.InFdR2? && ((s == Fp) != (q == Fp) || (t == Fp) != (r == Fp))
    ensures var u, v := ConversionUnit(op, s, a, t, b), ConversionUnit(op, q, a, r, b);
      Generate(u) == Generate(v) && Generate(u).Ok? && !Alike(u, v)
  {
    hide Spells, Generate, Alike, ConversionUnit, Word, WellFormedFields, FieldsFor, Decode;
    var u, v := ConversionUnit(op, s, a, t, b), ConversionUnit(op, q, a, r, b);
    var x, y := Conversion(op, s, a, t, b), Conversion(op, q, a, r, b);
    ConversionSpells(op, s, a, t, b);
    ConversionSpells(op, q, a, r, b);
    SpellsMeans(u, x);
    WordsAgree(u, x, v, y);
    AlikeIff(u, x, v, y);
  }

  /** `lui x1, 1048575`, and `li x1, -4096`, which is `lui` with an immediate of -1. */
  const UPPER: Env := Program(Two(InU(klui), GpRegister(1), Num(1048575)))

  const NEGATIVE: Env := Constant(-4096)

  function UpperUnit(n: int): Unit { WithImm(WithRd(Blank(InU(klui), 1), GpRegister(1)), n) }

  lemma UpperIsAccepted()
    ensures Accepted(UPPER) && Assembly.Parse(UPPER).code == [(UpperUnit(1048575), true)]
  {
    hide Assembly.Parse, FitsLine, WithImm, WithRd, Two;
    var op := InU(klui);
    TwoFits(op, GpRegister(1), Num(1048575), Gp, Number);
    assert Syntaxes(op) == [O_GPR_C_I] && Applies(UPPER, START, O_GPR_C_I, op);
    FirstParses(UPPER, op, [(UpperUnit(1048575), true)]);
    OneLineProgram(UPPER, op, [(UpperUnit(1048575), true)]);
  }

  lemma NegativeIsAccepted()
    ensures Accepted(NEGATIVE) && Assembly.Parse(NEGATIVE).code == [(UpperUnit(-1), true)]
  {
    hide Assembly.Parse, WithImm, WithRd, WithRs1, Constant;
    ConstantAccepted(-4096);
  }

  /** The two programs have the same word from units with different immediates. */
  lemma UpperImmediatesCollide()
    ensures Accepted(UPPER) && Accepted(NEGATIVE)
    ensures var s, r := Assembly.Parse(UPPER).code, Assembly.Parse(NEGATIVE).code;
      |s| == |r| == 1 && Generate(s[0].0) == Generate(r[0].0) && Generate(s[0].0).Ok? && !Alike(s[0].0, r[0].0)
  {
    hide Assembly.Parse, Spells, Generate, Alike, UpperUnit, Word, WellFormedFields, FieldsFor, Decode;
    UpperIsAccepted();
    NegativeIsAccepted();
    UpperUnitSpells(1048575);
    UpperUnitSpells(-1);
    SpellsMeans(UpperUnit(-1), UpperSense(-1));
    WordsAgree(UpperUnit(1048575), UpperSense(1048575), UpperUnit(-1), UpperSense(-1));
    AlikeIff(UpperUnit(1048575), UpperSense(1048575), UpperUnit(-1), UpperSense(-1));
  }

  function UpperSense(n: int): Sense { Sense(InU(klui), NONE.(rd := GpRegister(1), imm := n)) }

  lemma UpperUnitSpells(n: int)
    requires IsInt32(n)
    ensures Spells(UpperUnit(n), UpperSense(n))
  {
    hide Spells;
    UpperSpells(klui, GpRegister(1), n, 1);
  }
}
