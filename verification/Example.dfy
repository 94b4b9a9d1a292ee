/**
 A program of one instruction, a branch to itself, taken through the parser: the theorems about accepted
 programs are about something.
 */
module Example {
  import opened Text
  import opened Instructions
  import opened Units
  import opened Encoder
  import opened ImmGen
  import opened MainMemory
  import opened Tokens
  import opened ParserState
  import opened Operands
  import opened TextPass
  import PassOne
  import Assembly
  import EndToEnd

  const TOKENS: seq<Token> := [
    Token(Label, "again", 1),
    Token(Opcode(InB(kbeq)), "beq", 2), Token(GpRegister(0), "x0", 2), Token(Comma, ",", 2),
    Token(GpRegister(0), "x0", 2), Token(Comma, ",", 2), Token(LabelRef, "again", 2),
    Token(Eof, "", 3)]

  const ENV: Env := Env(TOKENS, 0x1000_0000, true)

  lemma NothingIsStuck()
    ensures PassOne.NothingStuck(TOKENS)
  {
  }

  lemma FirstPass()
    ensures PassOne.NothingStuck(TOKENS) && PassOne.Run(ENV, START) == START.(pos := 7)
  {
    NothingIsStuck();
    assert SkipTo(TOKENS, 7, SkippedText) == 7;
    assert SkipTo(TOKENS, 6, SkippedText) == 7;
    assert SkipTo(TOKENS, 5, SkippedText) == 7;
    assert SkipTo(TOKENS, 4, SkippedText) == 7;
    assert SkipTo(TOKENS, 3, SkippedText) == 7;
    assert SkipTo(TOKENS, 2, SkippedText) == 7;
    assert SkipTo(TOKENS, 1, SkippedText) == 7;
    assert SkipTo(TOKENS, 0, SkippedText) == 7;
    assert PassOne.PassOneStep(ENV, START) == START.(pos := 7);
  }

  function Defined(): State {
    START.(pos := 1, symbols := map["again" := SymbolData(0, 1, false)], labels := map["again" := (0, 0)])
  }

  function Branch(): Unit {
    WithImm(WithRs2(WithRs1(Blank(InB(kbeq), 2), GpRegister(0)), GpRegister(0)), 0).(target := "again")
  }

  lemma LineFits()
    ensures FitsLine(ENV, Defined(), [Gp, Com, Gp, Com, Ref])
    ensures !FitsLine(ENV, Defined(), [Gp, Com, Gp, Com, Number])
    ensures SkipLine(ENV, Defined()) == Defined().(pos := 7)
  {
    var s := Defined();
    assert TokenFits(ENV, s, 1, Gp) && TokenFits(ENV, s, 2, Com) && TokenFits(ENV, s, 3, Gp) && TokenFits(ENV, s, 4, Com);
    assert TokenFits(ENV, s, 5, Ref) && !TokenFits(ENV, s, 5, Number);
    var tags := [Gp, Com, Gp, Com, Number];
    assert !TokenFits(ENV, s, 4 + 1, tags[4]);
    assert LineEnd(TOKENS, 7, 2) == 7;
    assert LineEnd(TOKENS, 6, 2) == 7;
    assert LineEnd(TOKENS, 5, 2) == 7;
    assert LineEnd(TOKENS, 4, 2) == 7;
    assert LineEnd(TOKENS, 3, 2) == 7;
    assert LineEnd(TOKENS, 2, 2) == 7;
    assert LineEnd(TOKENS, 1, 2) == 7;
  }

  lemma BranchParses()
    ensures ParseAny(ENV, Defined(), Syntaxes(InB(kbeq)), InB(kbeq)) == Parsed([(Branch(), true)])
  {
    hide FitsLine, Clip, ToText, RegisterName;
    LineFits();
    var op, s := InB(kbeq), Defined();
    var syntaxes := Syntaxes(op);
    assert Shape(O_GPR_C_GPR_C_I, op) == Some([Gp, Com, Gp, Com, Number]);
    assert ParseSyntax(ENV, s, syntaxes[0], op) == NoMatch;
    assert syntaxes[1..] == [O_GPR_C_GPR_C_IL];
    assert Shape(O_GPR_C_GPR_C_IL, op) == Some([Gp, Com, Gp, Com, Ref]);
    assert Offset(0, 0) == 0;
    assert ParseSyntax(ENV, s, O_GPR_C_GPR_C_IL, op) == Parsed([(Branch(), true)]);
    assert ParseAny(ENV, s, [O_GPR_C_GPR_C_IL], op) == Parsed([(Branch(), true)]);
  }

  lemma LabelStep()
    ensures TextStep(ENV, START) == Defined()
  {
  }

  lemma BranchStep()
    ensures TextStep(ENV, Defined()) == Append(Defined(), Branch(), true).(pos := 7)
  {
    hide ParseAny, SkipLine, Branch, Syntaxes;
    BranchParses();
    var s := Append(Defined(), Branch(), true);
    assert [(Branch(), true)][1..] == [];
    assert AppendAll(Defined(), [(Branch(), true)]) == s;
    assert s.(pos := Defined().pos) == s;
    SkipsTo(s);
  }

  lemma SecondPass()
    ensures PassTwo(ENV, START) == Append(Defined(), Branch(), true).(pos := 7)
  {
    hide TextStep, Branch, Defined;
    LabelStep();
    BranchStep();
    var r := Append(Defined(), Branch(), true).(pos := 7);
    DefinedAt();
    assert TextSection(ENV, r) == r;
    assert TextSection(ENV, Defined()) == r;
    assert TextSection(ENV, START) == r;
    assert PassTwoStep(ENV, START) == r;
    assert PassTwo(ENV, r) == r;
  }

  lemma DefinedAt()
    ensures Defined().pos == 1
  {
  }

  lemma SkipsTo(s: State)
    requires s.pos == 1
    ensures SkipLine(ENV, s) == s.(pos := 7)
  {
    LineFits();
  }

  lemma ParsedProgram()
    ensures PassOne.NothingStuck(TOKENS) && Assembly.Parse(ENV) == Append(Defined(), Branch(), true).(pos := 7)
  {
    hide PassTwo, PassOne.Run, WithImm, PatchOne;
    NothingIsStuck();
    FirstPass();
    SecondPass();
    assert Assembly.Rewound(START.(pos := 7)) == START;
    assert Assembly.AfterPassTwo(ENV).backPatch == [];
  }

  /** The program is accepted, and its one instruction aims at itself. */
  lemma SelfLoopIsAccepted()
    ensures EndToEnd.Accepted(ENV) && Assembly.Parse(ENV).code == [(Branch(), true)]
    ensures EndToEnd.RefersToText(ENV, 0)
  {
    hide Assembly.Parse, WithImm;
    ParsedProgram();
  }

  /** Memory in which nothing has been written yet. */
  const FRESH: Mem := Mem(map[], 1024, 0xFFFF_FFFF_FFFF_FFFF)

  /** A small program fits a fresh memory. */
  lemma SmallProgramLoads(env: Env)
    requires EndToEnd.HasCode(env) && |Assembly.Parse(env).code| <= 1000 && Assembly.Parse(env).dataBuffer == []
    requires env.dataStart == 0x1000_0000
    ensures EndToEnd.Loads(env, FRESH)
  {
    hide Assembly.Parse, GenerateAll;
  }

  lemma SelfLoopHasCode()
    ensures EndToEnd.Accepted(ENV) && GenerateAll(Assembly.Parse(ENV).code).Ok?
  {
    hide Assembly.Parse, GenerateAll, Branch;
    SelfLoopIsAccepted();
    EndToEnd.AcceptedHasCode(ENV);
    BranchHasFormat();
  }

  lemma BranchHasFormat()
    ensures FormatOf(Branch().op).Some?
  {
  }

  /** It loads, and the word that is fetched at address 0 branches to address 0. */
  lemma SelfLoopLoops()
    ensures EndToEnd.Loads(ENV, FRESH) && |EndToEnd.Code(ENV)| == 1
    ensures EndToEnd.Fetches(ENV, FRESH, 0) && ImmGenerator(EndToEnd.Code(ENV)[0]) == 0
  {
    hide Assembly.Parse, GenerateAll, Branch, EndToEnd.Fetches, ImmGenerator, EndToEnd.RefersToText, Assembly.LabelPlaced, EndToEnd.Code;
    ParsedProgram();
    SelfLoopIsAccepted();
    SelfLoopHasCode();
    SmallProgramLoads(ENV);
    EndToEnd.BranchReachesLabel(ENV, FRESH, 0);
    LoopTarget();
  }

  lemma LoopTarget()
    ensures Branch().target == "again" && Append(Defined(), Branch(), true).symbols["again"].address == 0
  {
  }
}
