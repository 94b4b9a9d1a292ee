/**
 Two programs with data sections: one in which a label without a value separates the parser's layout from the
 loader's, and one that jumps to a data label.
 */
module DataExamples {
  import opened Words
  import opened Bytes
  import opened Text
  import opened Instructions
  import opened Units
  import opened Encoder
  import opened MainMemory
  import opened Layout
  import opened Tokens
  import opened ParserState
  import opened DataPass
  import opened Operands
  import opened TextPass
  import opened EndToEnd
  import opened SourceToCode
  import opened ImmGen
  import Coverage
  import Assembly
  import Example
  import LabelCarrying
  import Loader
  import PassOne

  /*
   * A label without a value.
   */

  const EMPTY: Env := Env([
    Token(Directive, "data", 1),
    Token(Directive, "byte", 2), Token(Num(7), "7", 2),
    Token(Label, "x", 3), Token(Directive, "dword", 3),
    Token(Label, "y", 4), Token(Directive, "byte", 4), Token(Num(9), "9", 4),
    Token(Eof, "", 5)], 0x1000_0000, true)

  const SEVEN: DataItem := ItemOf(Byte, Num(7))

  const NINE: DataItem := ItemOf(Byte, Num(9))

  lemma Directives()
    ensures DirectiveOf("byte") == Some(Byte) && DirectiveOf("dword") == Some(DWord) && DirectiveOf("word") == Some(Word)
    ensures !IsSectionWord("byte") && !IsSectionWord("dword") && !IsSectionWord("word")
    ensures !IsSectionWord("x") && !IsSectionWord("y") && !IsSectionWord("7") && !IsSectionWord("9")
  {
  }

  function First(): State { EmitItem(START, SEVEN).(pos := 3) }

  function Second(): State {
    Align(First(), 8).(pos := 4, symbols := map["x" := SymbolData(8, 3, true)], marks := map["x" := 1])
  }

  function Third(): State {
    Align(Second(), 1).(
    pos := 6, symbols := Second().symbols["y" := SymbolData(8, 4, true)], marks := Second().marks["y" := 2])
  }

  function Last(): State { EmitItem(Third(), NINE).(pos := 8) }

  lemma OneByteEach()
    ensures |ItemBytes(SEVEN)| == |ItemBytes(NINE)| == 1 && AlignmentOf(SEVEN) == AlignmentOf(NINE) == 1
  {
  }

  lemma Aligned()
    ensures AlignUp(0, 1) == 0 && AlignUp(1, 1) == 1 && AlignUp(1, 8) == 8 && AlignUp(8, 1) == 8
  {
  }

  /** Where the data counter stands. */
  lemma Counters()
    ensures First().dataIndex == 1 && Second().dataIndex == 8 && Third().dataIndex == 8 && Last().dataIndex == 9
    ensures |ItemBytes(SEVEN)| == |ItemBytes(NINE)| == 1 && AlignmentOf(SEVEN) == AlignmentOf(NINE) == 1
  {
    hide ItemOf, ItemBytes, AlignUp, AlignmentOf;
    OneByteEach();
    Aligned();
  }

  lemma FirstStep()
    ensures DataStep(EMPTY, START.(pos := 1)) == First()
  {
    hide DirectiveOf, IsSectionWord, ItemOf, ItemBytes;
    Directives();
    var s := START.(pos := 2);
    assert EmitCopies(s, SEVEN, 1) == EmitItem(s, SEVEN);
    assert Values(EMPTY, First(), Byte) == First();
    assert Values(EMPTY, s, Byte) == First();
  }

  lemma SecondStep()
    ensures DataStep(EMPTY, First()) == Second()
    ensures DataStep(EMPTY, Second()) == Second().(pos := 5)
  {
    hide DirectiveOf, IsSectionWord, ItemOf, ItemBytes, AlignUp;
    Directives();
    Counters();
    assert Values(EMPTY, Second().(pos := 5), DWord) == Second().(pos := 5);
  }

  lemma ThirdStep()
    ensures DataStep(EMPTY, Second().(pos := 5)) == Third()
  {
    hide DirectiveOf, IsSectionWord, ItemOf, ItemBytes, AlignUp;
    Directives();
    Counters();
  }

  lemma LastStep()
    ensures DataStep(EMPTY, Third()) == Last()
  {
    hide DirectiveOf, IsSectionWord, ItemOf, ItemBytes, AlignUp;
    Directives();
    var s := Third().(pos := 7);
    assert EmitCopies(s, NINE, 1) == EmitItem(s, NINE);
    assert Values(EMPTY, Last(), Byte) == Last();
    assert Values(EMPTY, s, Byte) == Last();
  }

  lemma EmptySection()
    ensures DataSection(EMPTY, START.(pos := 1)) == Last()
  {
    hide DataStep, DirectiveOf, First, Second, Third, Last, IsSectionWord;
    Directives();
    FirstStep();
    SecondStep();
    ThirdStep();
    LastStep();
    Positions();
    assert DataSection(EMPTY, Last()) == Last();
    assert DataSection(EMPTY, Third()) == Last();
    assert DataSection(EMPTY, Second().(pos := 5)) == Last();
    assert DataSection(EMPTY, Second()) == Last();
    assert DataSection(EMPTY, First()) == Last();
  }

  lemma Positions()
    ensures First().pos == 3 && Second().pos == 4 && Third().pos == 6 && Last().pos == 8
  {
    hide ItemOf, ItemBytes, AlignUp;
  }

  lemma EmptyIsNotStuck()
    ensures PassOne.NothingStuck(EMPTY.tokens)
  {
  }

  lemma {:induction false} SkipsToEof(p: nat)
    requires p <= 8
    ensures SkipTo(EMPTY.tokens, p, SkippedData) == 8
    decreases 8 - p
  {
    if p < 8 { SkipsToEof(p + 1); }
  }

  /** The state after parsing. */
  lemma EmptyParses()
    ensures PassOne.NothingStuck(EMPTY.tokens) && Assembly.Parse(EMPTY) == Last() && Accepted(EMPTY)
  {
    hide DataSection, Last;
    EmptyIsNotStuck();
    EmptySection();
    LastIsClean();
    assert PassOne.PassOneStep(EMPTY, START) == Last();
    assert PassOne.Run(EMPTY, Last()) == Last();
    assert Assembly.AfterPassOne(EMPTY) == Last();
    var s := Assembly.Rewound(Last());
    SkipsToEof(0);
    assert PassTwoStep(EMPTY, s) == Last();
    assert PassTwo(EMPTY, Last()) == Last();
    assert Assembly.AfterPassTwo(EMPTY) == Last();
  }

  lemma LastIsClean()
    ensures Last().pos == 8 && Last().instructionIndex == 0 && Last().errorCount == 0 && Last().backPatch == [] && Last().code == []
    ensures Last().dataBuffer == [SEVEN, NINE]
    ensures "y" in Last().symbols && Last().symbols["y"] == SymbolData(8, 4, true)
  {
    hide ItemOf, ItemBytes, AlignUp;
  }

  lemma Placement()
    ensures Start([SEVEN, NINE], 0) == 0 && Start([SEVEN, NINE], 1) == 1 && End([SEVEN, NINE]) == 2
  {
    hide ItemOf, ItemBytes;
    Counters();
    var items := [SEVEN, NINE];
    assert items[..0] == [] && items[..1] == [SEVEN] && [SEVEN][..0] == [];
  }

  lemma EmptyLoads()
    ensures Loads(EMPTY, Example.FRESH) && Code(EMPTY) == [] && Assembly.Parse(EMPTY).dataBuffer == [SEVEN, NINE]
  {
    hide Assembly.Parse, Start, End, ItemOf, Last;
    EmptyParses();
    LastIsClean();
    Placement();
    NothingGenerates();
  }

  lemma NothingGenerates()
    ensures GenerateAll([]) == Ok([])
  {
  }

  lemma NineIsNotZero()
    ensures ItemBytes(NINE) != [0]
  {
    assert FromNat64(1) == 1;
    assert FromNat64(2) == 2;
    assert FromNat64(4) == 4;
    assert FromInt64(9) == 9;
    assert NINE == U8(9);
    assert ToBytes(Wide(9), 1)[0] == 9;
  }

  /**
   The label `x` has no value, so the parser aligns for it and the loader does not: the program is accepted and
   loaded, the label `y` stands for address 8 of the section, its value is stored at address 1, and what is at
   address 8 is not its value.
   */
  lemma EmptyLabelMisplacesTheNext()
    ensures Loads(EMPTY, Example.FRESH) && "y" in Assembly.Parse(EMPTY).symbols && Assembly.Parse(EMPTY).symbols["y"].address == 8
    ensures At(EndToEnd.Memory(EMPTY, Example.FRESH), EMPTY.dataStart + 1) == ItemBytes(NINE)[0]
    ensures At(EndToEnd.Memory(EMPTY, Example.FRESH), EMPTY.dataStart + 8) == 0 != ItemBytes(NINE)[0]
  {
    hide Assembly.Parse, Start, ItemOf, Last, At, Loader.LoadAll;
    EmptyParses();
    LastIsClean();
    EmptyLoads();
    Placement();
    Counters();
    NineIsNotZero();
    var items, base := [SEVEN, NINE], EMPTY.dataStart;
    Loader.LoadedImage(Example.FRESH, [], base, items);
    assert Loader.InItem(base, items, 1, base + 1);
    NothingAtEight(base);
    FreshIsZero(base + 8);
  }

  /** The record of the program is one on which the parser's counter and the loader's placement part. */
  lemma EmptyLabelDisagrees()
    ensures Accepted(EMPTY) && Assembly.Parse(EMPTY).events == [Emit(SEVEN), Mark(8), Mark(1), Emit(NINE)]
    ensures !CountersAgree(Assembly.Parse(EMPTY).events)
    ensures !LabelCarrying.LabelledDirectivesHaveValues(EMPTY.tokens)
  {
    hide Assembly.Parse, ItemOf, ItemBytes, AlignmentOf, AlignUp, Start, ParserIndex;
    EmptyParses();
    LastEvents();
    CountersPart();
    BareLabel();
  }

  lemma BareLabel()
    ensures !LabelCarrying.LabelledDirectivesHaveValues(EMPTY.tokens)
  {
    hide DirectiveOf;
    Directives();
    assert EMPTY.tokens[3].kind.Label? && !LabelCarrying.HasValue(TokenAt(EMPTY.tokens, 3 + 1), TokenAt(EMPTY.tokens, 3 + 2));
  }

  lemma LastEvents()
    ensures Last().events == [Emit(SEVEN), Mark(8), Mark(1), Emit(NINE)]
  {
    hide ItemOf, ItemBytes, AlignUp;
  }

  lemma CountersPart()
    ensures !CountersAgree([Emit(SEVEN), Mark(8), Mark(1), Emit(NINE)])
  {
    hide ItemOf, ItemBytes, AlignUp, AlignmentOf;
    Counters();
    Aligned();
    var events, before := [Emit(SEVEN), Mark(8), Mark(1), Emit(NINE)], [Emit(SEVEN), Mark(8), Mark(1)];
    assert events[..3] == before && before[..2] == [Emit(SEVEN), Mark(8)];
    assert [Emit(SEVEN), Mark(8)][..1] == [Emit(SEVEN)] && [Emit(SEVEN)][..0] == [];
    assert ParserIndex([Emit(SEVEN)]) == 1 && ParserIndex([Emit(SEVEN), Mark(8)]) == 8 && ParserIndex(before) == 8;
    assert Items([Emit(SEVEN)]) == [SEVEN] && Items([Emit(SEVEN), Mark(8)]) == [SEVEN] && Items(before) == [SEVEN];
    assert [SEVEN][..0] == [] && LoaderCounter([SEVEN]) == 1;
  }

  lemma NothingAtEight(base: nat)
    ensures !Loader.InItem(base, [SEVEN, NINE], 0, base + 8) && !Loader.InItem(base, [SEVEN, NINE], 1, base + 8)
  {
    hide ItemOf, ItemBytes, Start;
    Counters();
    Placement();
  }

  lemma FreshIsZero(a: nat)
    ensures At(Example.FRESH, a) == 0
  {
  }

  /*
   * A jump to a data label.
   */

  /** `x: .word 5` and `jal x0, x`, with the data section at this address. */
  function Jump(base: Address): Env {
    Env([
      Token(Directive, "data", 1),
      Token(Label, "x", 2), Token(Directive, "word", 2), Token(Num(5), "5", 2),
      Token(Directive, "text", 3),
      Token(Opcode(InJ(kjal)), "jal", 4), Token(GpRegister(0), "x0", 4), Token(Comma, ",", 4), Token(LabelRef, "x", 4),
      Token(Eof, "", 5)], base, true)
  }

  const FIVE: DataItem := ItemOf(Word, Num(5))

  function Labelled(): State {
    Align(START, 4).(pos := 2, symbols := map["x" := SymbolData(0, 2, true)], marks := map["x" := 0])
  }

  function Stored(): State { EmitItem(Labelled(), FIVE).(pos := 4) }

  function Open(): Unit { WithRd(Blank(InJ(kjal), 4), GpRegister(0)).(target := "x") }

  lemma JumpDirectives()
    ensures DirectiveOf("word") == Some(Word) && !IsSectionWord("word") && !IsSectionWord("x") && IsSectionWord("text")
  {
  }

  lemma LabelledStep(base: Address)
    ensures DataStep(Jump(base), START.(pos := 1)) == Labelled()
  {
    hide DirectiveOf, ItemOf, ItemBytes;
    JumpDirectives();
    assert AlignUp(0, 4) == 0;
  }

  lemma StoredStep(base: Address)
    ensures DataStep(Jump(base), Labelled()) == Stored()
  {
    hide DirectiveOf, ItemOf, ItemBytes, AlignUp;
    JumpDirectives();
    var s := Labelled().(pos := 3);
    assert EmitCopies(s, FIVE, 1) == EmitItem(s, FIVE);
    assert Values(Jump(base), Stored(), Word) == Stored();
    assert Values(Jump(base), s, Word) == Stored();
  }

  lemma JumpSection(base: Address)
    ensures DataSection(Jump(base), START.(pos := 1)) == Stored()
  {
    hide DataStep, ItemOf, ItemBytes, AlignUp, DirectiveOf;
    JumpDirectives();
    LabelledStep(base);
    StoredStep(base);
    assert DataSection(Jump(base), Stored()) == Stored();
    assert DataSection(Jump(base), Labelled()) == Stored();
  }

  lemma {:induction false} SkipsTheText(base: Address, p: nat)
    requires 4 <= p <= 9
    ensures SkipTo(Jump(base).tokens, p, SkippedText) == 9
    decreases 9 - p
  {
    if p < 9 { SkipsTheText(base, p + 1); }
  }

  lemma {:induction false} SkipsTheData(base: Address, p: nat)
    requires p <= 4
    ensures SkipTo(Jump(base).tokens, p, SkippedData) == 4
    decreases 4 - p
  {
    if p < 4 { SkipsTheData(base, p + 1); }
  }

  lemma {:induction false} LineEndsAtNine(base: Address, p: nat)
    requires 5 <= p <= 9
    ensures LineEnd(Jump(base).tokens, p, 4) == 9
    decreases 9 - p
  {
    if p < 9 { LineEndsAtNine(base, p + 1); }
  }

  lemma JumpIsNotStuck(base: Address)
    ensures PassOne.NothingStuck(Jump(base).tokens)
  {
  }

  lemma FirstPassOfJump(base: Address)
    ensures PassOne.NothingStuck(Jump(base).tokens) && Assembly.AfterPassOne(Jump(base)) == Stored().(pos := 9)
  {
    hide DataSection, Labelled, ItemOf, ItemBytes;
    var env := Jump(base);
    JumpIsNotStuck(base);
    JumpSection(base);
    SkipsTheText(base, 4);
    assert PassOne.PassOneStep(env, START) == Stored();
    assert PassOne.PassOneStep(env, Stored()) == Stored().(pos := 9);
    assert PassOne.Run(env, Stored().(pos := 9)) == Stored().(pos := 9);
    assert PassOne.Run(env, Stored()) == Stored().(pos := 9);
  }

  /** The second pass, up to the jump. */
  function Ready(): State { Stored().(pos := 5) }

  function Jumped(): State { Append(Ready(), Open(), false).(pos := 9) }

  lemma KnownSymbols()
    ensures Ready().pos == 5 && Ready().symbols == map["x" := SymbolData(0, 2, true)]
    ensures Ready().code == [] && Ready().backPatch == [] && Ready().instructionIndex == 0 && Ready().errorCount == 0
    ensures Ready().dataBuffer == [FIVE] && Ready().events == [Mark(4), Emit(FIVE)] && Ready().marks == map["x" := 0]
  {
    hide ItemOf, ItemBytes;
  }

  lemma JumpFits(base: Address)
    ensures FitsLine(Jump(base), Ready(), [Gp, Com, Ref]) && !FitsLine(Jump(base), Ready(), [Gp, Com, Number])
  {
    hide Stored;
    KnownSymbols();
    var env, s := Jump(base), Ready();
    assert TokenFits(env, s, 1, Gp) && TokenFits(env, s, 2, Com) && TokenFits(env, s, 3, Ref) && !TokenFits(env, s, 3, Number);
    var tags := [Gp, Com, Number];
    assert !TokenFits(env, s, 2 + 1, tags[2]);
  }

  lemma JumpParses(base: Address)
    ensures ParseAny(Jump(base), Ready(), Syntaxes(InJ(kjal)), InJ(kjal)) == Parsed([(Open(), false)])
  {
    hide FitsLine, WithRd, Stored, Ready;
    var env, s, op := Jump(base), Ready(), InJ(kjal);
    KnownSymbols();
    JumpFits(base);
    assert Syntaxes(op) == [O_GPR_C_I, O_GPR_C_IL] && Syntaxes(op)[1..] == [O_GPR_C_IL];
    assert ParseSyntax(env, s, O_GPR_C_I, op) == NoMatch;
    assert ParseSyntax(env, s, O_GPR_C_IL, op) == Parsed([(Open(), false)]);
    assert ParseAny(env, s, [O_GPR_C_IL], op) == Parsed([(Open(), false)]);
  }

  lemma JumpStep(base: Address)
    ensures TextStep(Jump(base), Ready()) == Jumped()
  {
    hide ParseAny, Syntaxes, Open, Stored, Ready;
    KnownSymbols();
    JumpParses(base);
    LineEndsAtNine(base, 5);
    var s := Append(Ready(), Open(), false);
    assert [(Open(), false)][1..] == [];
    assert AppendAll(Ready(), [(Open(), false)]) == s;
    assert s.(pos := Ready().pos) == s;
  }

  lemma SecondPassOfJump(base: Address)
    ensures PassTwo(Jump(base), Ready().(pos := 0)) == Jumped()
  {
    hide TextStep, Open, Stored, Ready;
    var env := Jump(base);
    KnownSymbols();
    JumpStep(base);
    SkipsTheData(base, 0);
    assert TextSection(env, Jumped()) == Jumped();
    assert TextSection(env, Ready()) == Jumped();
    assert PassTwoStep(env, Ready().(pos := 0)) == Ready().(pos := 4);
    assert PassTwoStep(env, Ready().(pos := 4)) == Jumped();
    assert PassTwo(env, Jumped()) == Jumped();
    assert PassTwo(env, Ready().(pos := 4)) == Jumped();
  }

  /** After back-patching: the jump holds the offset of `x` in the section. */
  lemma JumpIsAccepted(base: Address)
    ensures PassOne.NothingStuck(Jump(base).tokens)
    ensures var s := Assembly.Parse(Jump(base));
      && s.errorCount == 0 && s.code == [(WithImm(Open(), 0), true)] && s.dataBuffer == [FIVE]
      && s.symbols == map["x" := SymbolData(0, 2, true)] && s.marks == map["x" := 0]
  {
    hide PassTwo, Ready, Stored, WithImm, WithRd;
    FirstPassOfJump(base);
    SecondPassOfJump(base);
    KnownSymbols();
    RewoundStored();
    assert Assembly.AfterPassTwo(Jump(base)) == Jumped();
    assert Offset(0, 0) == 0;
    PatchesJump();
  }

  lemma RewoundStored()
    ensures Assembly.Rewound(Stored().(pos := 9)) == Ready().(pos := 0)
  {
    hide ItemOf, ItemBytes;
  }

  lemma PatchesJump()
    ensures InRange(Jumped(), Jumped().backPatch)
    ensures PatchAll(Jumped(), Jumped().backPatch) == Jumped().(code := [(WithImm(Open(), 0), true)])
  {
    hide Ready, Stored, WithImm;
    KnownSymbols();
    assert Jumped().backPatch == [0] && [0][1..] == [];
    assert Offset(0, 0) == 0;
    assert PatchOne(Jumped(), 0) == Jumped().(code := [(WithImm(Open(), 0), true)]);
  }

  lemma FiveFits()
    ensures End([FIVE]) == 4
  {
    assert [FIVE][..0] == [];
    assert AlignUp(0, 4) == 0;
  }

  lemma JumpHasValues(base: Address)
    ensures LabelCarrying.LabelledDirectivesHaveValues(Jump(base).tokens) && PassOne.EofTerminated(Jump(base).tokens)
    ensures forall p: nat :: !FenceAt(Jump(base).tokens, p)
  {
    JumpDirectives();
    assert LabelCarrying.HasValue(Jump(base).tokens[2], Jump(base).tokens[3]);
  }

  lemma JumpHasCode(base: Address)
    ensures HasCode(Jump(base)) && |Code(Jump(base))| == 1 && FitsCounters(Jump(base)) && RefersToData(Jump(base), 0, 0)
  {
    hide Assembly.Parse, End, GenerateAll, Open, FenceAt, Coverage.InText, LabelCarrying.LabelledDirectivesHaveValues;
    JumpIsAccepted(base);
    JumpHasValues(base);
    FiveFits();
    HasCodeIffNoFence(Jump(base));
    OpenTarget();
  }

  lemma OpenTarget()
    ensures WithImm(Open(), 0).target == "x"
  {
  }

  /** Wherever the data section is, the jump goes to address 0: it reaches its data if that is where the section is. */
  lemma JumpGoesToZero(base: Address)
    ensures HasCode(Jump(base)) && |Code(Jump(base))| == 1
    ensures "x" in Assembly.Parse(Jump(base)).symbols && Assembly.Parse(Jump(base)).symbols["x"].address == 0
    ensures ImmGenerator(Code(Jump(base))[0]) == 0
  {
    hide Assembly.Parse, End, GenerateAll, Open, Code, ImmGenerator, LabelCarrying.LabelledDirectivesHaveValues;
    JumpIsAccepted(base);
    JumpHasValues(base);
    JumpHasCode(base);
    OpenTarget();
    JumpToDataLabel(Jump(base), 0, 0);
  }

  const BASE: Address := 0x1000_0000

  lemma JumpLoads()
    ensures Loads(Jump(BASE), Example.FRESH)
  {
    hide Assembly.Parse, End, GenerateAll, Open, Code;
    JumpIsAccepted(BASE);
    JumpHasCode(BASE);
    FiveFits();
  }

  /** At the section's usual base the program loads, and the jump does not go to the data. */
  lemma JumpMissesItsData()
    ensures Loads(Jump(BASE), Example.FRESH) && |Code(Jump(BASE))| == 1 && RefersToData(Jump(BASE), 0, 0)
    ensures "x" in Assembly.Parse(Jump(BASE)).symbols
    ensures ImmGenerator(Code(Jump(BASE))[0]) < BASE + Assembly.Parse(Jump(BASE)).symbols["x"].address
  {
    hide Assembly.Parse, GenerateAll, Code, ImmGenerator, RefersToData, Jump;
    JumpLoads();
    JumpHasCode(BASE);
    JumpGoesToZero(BASE);
  }
}
