/**
 The second pass and the back-patching as one reading of the token list from left to right: which tokens start
 statements, which labels and instructions they add, and exactly which of them are in error.
 */
module TextSource {
  import opened Words
  import opened Text
  import opened Instructions
  import opened Units
  import opened Tokens
  import opened ParserState
  import opened Operands
  import opened OperandTheorems
  import opened TextPass
  import opened Acceptance
  import opened Assembly
  import DataSource
  import DataTheorems
  import Grammar
  import OneLine
  import PassOne
  import Provenance

  /** A jump to a label that is not known as a text label when its line is read. */
  datatype OpenJump = OpenJump(index: nat, op: Mnemonic, target: string, line: nat)

  /** What a token is read as: at the top level, in a skipped data section, a statement, or the rest of a line. */
  datatype Place = Top | OfData | Statement | Line(line: nat)

  /** After a token that is no directive: a label stands alone, anything else takes the rest of its line. */
  function AfterStatement(t: Token): Place { if t.kind.Label? then Statement else Line(t.line) }

  function AfterTop(t: Token): Place {
    if IsDirective(t, "section") then Top
    else if IsDirective(t, "data") || IsDirective(t, "bss") then OfData
    else if IsDirective(t, "text") then Statement
    else if t.kind.Label? || t.kind.Opcode? then AfterStatement(t)
    else Top
  }

  /** A directive ends the text, at the start of a statement. */
  function AfterText(t: Token): Place { if TextEnds(t) then AfterTop(t) else AfterStatement(t) }

  function After(place: Place, t: Token): Place {
    match place
    case Top => AfterTop(t)
    case OfData => if t.value == "text" then AfterTop(t) else OfData
    case Statement => AfterText(t)
    case Line(line) => if t.line == line then place else AfterText(t)
  }

  function PlaceAt(tokens: seq<Token>, p: nat): Place {
    if p == 0 then Top else After(PlaceAt(tokens, p - 1), TokenAt(tokens, p - 1))
  }

  /** Token `p` is read by the loop over the text. */
  predicate InSection(tokens: seq<Token>, p: nat) {
    var place := PlaceAt(tokens, p);
    place.Statement? || (place.Line? && TokenAt(tokens, p).line != place.line)
  }

  /** Token `p` is read by the outer loop. */
  predicate AtTop(tokens: seq<Token>, p: nat) {
    var place, t := PlaceAt(tokens, p), TokenAt(tokens, p);
    place.Top? || (place.OfData? && t.value == "text") || (InSection(tokens, p) && TextEnds(t))
  }

  /** Token `p` starts a statement. */
  predicate IsStatementAt(tokens: seq<Token>, p: nat) {
    var t := TokenAt(tokens, p);
    if AtTop(tokens, p) then t.kind.Label? || t.kind.Opcode? else InSection(tokens, p)
  }

  predicate IsStrayAt(tokens: seq<Token>, p: nat) {
    AtTop(tokens, p) && !TokenAt(tokens, p).kind.Eof? && DataSource.IsStrayWord(TokenAt(tokens, p))
  }

  /** What reading the tokens so far has given. */
  datatype Progress = Progress(symbols: map<string, SymbolData>, index: nat, errors: seq<nat>, jumps: seq<OpenJump>)

  /** The instruction line at token `p` is accepted. */
  predicate InstructionOk(env: Env, x: Progress, p: nat, op: Mnemonic) {
    (IsMExtension(op) ==> env.mExtension) && Grammar.IsForm(env, x.symbols, x.index, p, op)
  }

  /** The label that an instruction line names to go to. */
  function TargetAt(env: Env, p: nat, op: Mnemonic): Option<string> {
    var a3, a5 := TokenAt(env.tokens, p + 3), TokenAt(env.tokens, p + 5);
    if op.InB? && a5.kind.LabelRef? then Some(a5.value)
    else if op.InJ? && a3.kind.LabelRef? then Some(a3.value)
    else None
  }

  function JumpsAt(env: Env, x: Progress, p: nat, op: Mnemonic): seq<OpenJump> {
    match TargetAt(env, p, op)
    case None => []
    case Some(name) =>
      if IsTextLabel(x.symbols, name) then [] else [OpenJump(x.index, op, name, TokenAt(env.tokens, p).line)]
  }

  /**
   The second pass finds token `p` in error: a label that is already defined, an instruction line that is not accepted,
   any other token where a statement should start, or an unknown word at the top level.
   */
  predicate IsTextError(env: Env, x: Progress, p: nat) {
    var t := TokenAt(env.tokens, p);
    if IsStatementAt(env.tokens, p) then
      match t.kind
      case Label => t.value in x.symbols
      case Opcode(op) => !InstructionOk(env, x, p, op)
      case _ => true
    else IsStrayAt(env.tokens, p)
  }

  /** Token `p` is read: what that adds. */
  function Read(env: Env, x: Progress, p: nat): Progress {
    var t := TokenAt(env.tokens, p);
    if IsTextError(env, x, p) then x.(errors := x.errors + [t.line])
    else if !IsStatementAt(env.tokens, p) then x
    else
      match t.kind
      case Label => x.(symbols := x.symbols[t.value := SymbolData(4 * x.index % TWO32, t.line, false)])
      case Opcode(op) =>
        x.(index := x.index + LineLength(env, LookingAt(p), op), jumps := x.jumps + JumpsAt(env, x, p, op))
      case _ => x
  }

  /** What the first `n` tokens give, after a first pass that gave these symbols and errors. */
  function TextBefore(env: Env, start: Progress, n: nat): Progress {
    if n == 0 then start else Read(env, TextBefore(env, start, n - 1), n - 1)
  }

  /*
   * The state of the second pass.
   */

  predicate IsJump(s: State, index: nat, j: OpenJump) {
    && index == j.index && index < |s.code|
    && var u := s.code[index].0; u.op == j.op && u.target == j.target && u.line == j.line
  }

  predicate Lists(s: State, indices: seq<nat>, jumps: seq<OpenJump>) {
    |indices| == |jumps| && forall k :: 0 <= k < |indices| ==> IsJump(s, indices[k], jumps[k])
  }

  predicate Traced(env: Env, start: Progress, s: State) {
    var x := TextBefore(env, start, s.pos);
    && s.symbols == x.symbols && s.instructionIndex == x.index == |s.code| && s.errors == x.errors
    && Lists(s, s.backPatch, x.jumps)
  }

  /** One token on, with what it adds. */
  lemma ReadTraced(env: Env, start: Progress, s: State, r: State)
    requires Traced(env, start, s) && r.pos == s.pos + 1
    requires var x := Read(env, TextBefore(env, start, s.pos), s.pos);
      && r.symbols == x.symbols && r.instructionIndex == x.index == |r.code| && r.errors == x.errors
      && Lists(r, r.backPatch, x.jumps)
    ensures Traced(env, start, r)
  {
    hide Read, Lists;
  }

  /** Tokens on the rest of a line, and those of a skipped data section, add nothing. */
  lemma NothingRead(env: Env, x: Progress, p: nat)
    requires var place, t := PlaceAt(env.tokens, p), TokenAt(env.tokens, p);
      (place.Line? && t.line == place.line) || (place.OfData? && t.value != "text")
    ensures Read(env, x, p) == x && PlaceAt(env.tokens, p + 1) == PlaceAt(env.tokens, p)
  {
    hide InstructionOk;
  }

  /** From a token inside a line to the end of that line. */
  lemma {:induction false} LineTraced(env: Env, start: Progress, s: State, line: nat)
    requires Traced(env, start, s) && PlaceAt(env.tokens, s.pos) == Line(line)
    ensures var r := s.(pos := LineEnd(env.tokens, s.pos, line));
      && Traced(env, start, r) && PlaceAt(env.tokens, r.pos) == Line(line)
      && (Current(env, r).kind.Eof? || Current(env, r).line != line)
    decreases |env.tokens| - s.pos
  {
    hide PlaceAt, Read;
    var t := Current(env, s);
    if t.line == line && !t.kind.Eof? {
      var next := s.(pos := s.pos + 1);
      NothingRead(env, TextBefore(env, start, s.pos), s.pos);
      ReadTraced(env, start, s, next);
      LineTraced(env, start, next, line);
      assert s.(pos := LineEnd(env.tokens, s.pos, line)) == next.(pos := LineEnd(env.tokens, next.pos, line));
    } else {
      assert s.(pos := LineEnd(env.tokens, s.pos, line)) == s;
    }
  }

  lemma {:induction false} DataSkipTraced(env: Env, start: Progress, s: State)
    requires Traced(env, start, s) && PlaceAt(env.tokens, s.pos).OfData?
    ensures var r := s.(pos := SkipTo(env.tokens, s.pos, SkippedData));
      && Traced(env, start, r) && (AtTop(env.tokens, r.pos) || Current(env, r).kind.Eof?)
    decreases |env.tokens| - s.pos
  {
    hide PlaceAt, Read, InSection;
    var t := Current(env, s);
    if !t.kind.Eof? && t.value != "text" {
      var next := s.(pos := s.pos + 1);
      NothingRead(env, TextBefore(env, start, s.pos), s.pos);
      ReadTraced(env, start, s, next);
      DataSkipTraced(env, start, next);
      assert s.(pos := SkipTo(env.tokens, s.pos, SkippedData)) == next.(pos := SkipTo(env.tokens, next.pos, SkippedData));
    } else {
      assert s.(pos := SkipTo(env.tokens, s.pos, SkippedData)) == s;
    }
  }

  /*
   * Statements.
   */

  lemma SameLine(env: Env, symbols: map<string, SymbolData>, k: nat, s: State, op: Mnemonic)
    ensures LineOk(env, symbols, k, LookingAt(s.pos), op) == LineOk(env, symbols, k, s, op)
    ensures LineLength(env, LookingAt(s.pos), op) == LineLength(env, s, op)
  {
    hide Applies, OperandsOk;
    forall syntax: SyntaxType
      ensures Applies(env, s, syntax, op) == Applies(env, LookingAt(s.pos), syntax, op)
      ensures OperandsOk(env, symbols, k, s, syntax, op) == OperandsOk(env, symbols, k, LookingAt(s.pos), syntax, op)
    {
      SameSyntax(env, symbols, k, s, syntax, op);
    }
  }

  lemma SameApplies(env: Env, s: State, syntax: SyntaxType, op: Mnemonic)
    ensures Applies(env, s, syntax, op) == Applies(env, LookingAt(s.pos), syntax, op)
  {
    hide Syntaxes, Shape, FitsLine;
    if Shape(syntax, op).Some? { SameFit(env, s, LookingAt(s.pos), Shape(syntax, op).value); }
  }

  lemma SameOperands(env: Env, symbols: map<string, SymbolData>, k: nat, s: State, syntax: SyntaxType, op: Mnemonic)
    ensures OperandsOk(env, symbols, k, s, syntax, op) == OperandsOk(env, symbols, k, LookingAt(s.pos), syntax, op)
  {
    hide DistanceTo, IsTextLabel, IsDataLabel, ThirdNumberOk, TokenAt;
  }

  lemma SameSyntax(env: Env, symbols: map<string, SymbolData>, k: nat, s: State, syntax: SyntaxType, op: Mnemonic)
    ensures Applies(env, s, syntax, op) == Applies(env, LookingAt(s.pos), syntax, op)
    ensures OperandsOk(env, symbols, k, s, syntax, op) == OperandsOk(env, symbols, k, LookingAt(s.pos), syntax, op)
  {
    hide Applies, OperandsOk;
    SameApplies(env, s, syntax, op);
    SameOperands(env, symbols, k, s, syntax, op);
  }

  /** A line that names a label it does not know as text yields one open unit that refers to it; others are complete. */
  predicate OpenAsNamed(s: State, units: seq<(Unit, bool)>, name: Option<string>, op: Mnemonic, line: nat) {
    match name
    case None => forall j :: 0 <= j < |units| ==> units[j].1
    case Some(target) =>
      if IsTextLabel(s.symbols, target) then forall j :: 0 <= j < |units| ==> units[j].1
      else
        && |units| == 1 && !units[0].1
        && units[0].0.op == op && units[0].0.target == target && units[0].0.line == line
  }

  lemma JumpIsOpen(s: State, u: Unit, name: string, limit: int)
    requires JumpTo(s, u, name, limit).Parsed?
    ensures OpenAsNamed(s, JumpTo(s, u, name, limit).units, Some(name), u.op, u.line)
  {
    hide WithImm, Offset;
  }

  predicate AllComplete(p: Parsed) { p.Parsed? ==> forall j :: 0 <= j < |p.units| ==> p.units[j].1 }

  lemma ImmediateFormsAreComplete(env: Env, s: State, syntax: SyntaxType, op: Mnemonic)
    requires syntax == O_GPR_C_GPR_C_I || syntax == O_GPR_C_I || syntax == O_GPR_C_I_LP_GPR_RP || syntax == O_GPR_C_CSR_C_I
      || syntax == O_FPR_C_I_LP_GPR_RP
    ensures AllComplete(Build(env, s, syntax, op))
  {
    hide WithImm, WithRd, WithRs1, WithRs2, WithRs3, NumberIn;
  }

  lemma ImmediatesAreComplete(env: Env, s: State, syntax: SyntaxType, op: Mnemonic)
    requires Build(env, s, syntax, op).Parsed? && syntax != O_GPR_C_GPR_C_IL && syntax != O_GPR_C_IL
    requires syntax != PSEUDO && syntax != O_GPR_C_DL
    ensures forall j :: 0 <= j < |Build(env, s, syntax, op).units| ==> Build(env, s, syntax, op).units[j].1
  {
    hide WithImm, WithRd, WithRs1, WithRs2, WithRs3, NumberIn, Immediate, Pseudo, AddressPair, JumpTo;
    if syntax == O_GPR_C_GPR_C_I || syntax == O_GPR_C_I || syntax == O_GPR_C_I_LP_GPR_RP || syntax == O_GPR_C_CSR_C_I
      || syntax == O_FPR_C_I_LP_GPR_RP
    {
      ImmediateFormsAreComplete(env, s, syntax, op);
    }
  }

  lemma PairsAreComplete(env: Env, s: State, syntax: SyntaxType, op: Mnemonic)
    requires Build(env, s, syntax, op).Parsed? && (syntax == PSEUDO || syntax == O_GPR_C_DL)
    ensures forall j :: 0 <= j < |Build(env, s, syntax, op).units| ==> Build(env, s, syntax, op).units[j].1
  {
    hide WithImm, WithRd, WithRs1, WithRs2, WithRs3, Hi20, Lo12, DataOffset;
  }

  lemma NoTarget(env: Env, s: State, syntax: SyntaxType, op: Mnemonic)
    requires Applies(env, s, syntax, op)
    ensures TargetAt(env, s.pos, op) ==
      if syntax == O_GPR_C_GPR_C_IL then Some(Peek(env, s, 5).value)
      else if syntax == O_GPR_C_IL then Some(Peek(env, s, 3).value)
      else None
  {
    hide FitsLine, Syntaxes;
    TargetSyntaxes(syntax, op);
    var tags := Shape(syntax, op).value;
    if op.InB? { Tagged(env, s, tags, 4); }
    if op.InJ? { Tagged(env, s, tags, 2); }
  }

  lemma TargetSyntaxes(syntax: SyntaxType, op: Mnemonic)
    requires syntax in Syntaxes(op)
    ensures op.InB? <==> syntax == O_GPR_C_GPR_C_IL || (syntax == O_GPR_C_GPR_C_I && !op.InI1? && !op.InI2?)
    ensures op.InJ? <==> syntax == O_GPR_C_IL || (syntax == O_GPR_C_I && !op.InU?)
    ensures op.InB? ==> syntax == O_GPR_C_GPR_C_IL || syntax == O_GPR_C_GPR_C_I
    ensures op.InJ? ==> syntax == O_GPR_C_IL || syntax == O_GPR_C_I
  {
  }

  lemma LineIsOpenAsNamed(env: Env, s: State, syntax: SyntaxType, op: Mnemonic)
    requires Applies(env, s, syntax, op) && Build(env, s, syntax, op).Parsed?
    ensures OpenAsNamed(s, Build(env, s, syntax, op).units, TargetAt(env, s.pos, op), op, Current(env, s).line)
  {
    hide Applies, TargetAt, JumpTo, AddressPair, Pseudo, Immediate, WithRd, WithRs1, WithRs2, WithRs3, IsTextLabel;
    NoTarget(env, s, syntax, op);
    if syntax == O_GPR_C_GPR_C_IL || syntax == O_GPR_C_IL {
      JumpLineIsOpen(env, s, syntax, op);
    } else if syntax == PSEUDO || syntax == O_GPR_C_DL {
      PairsAreComplete(env, s, syntax, op);
    } else {
      ImmediatesAreComplete(env, s, syntax, op);
    }
  }

  lemma JumpLineIsOpen(env: Env, s: State, syntax: SyntaxType, op: Mnemonic)
    requires Applies(env, s, syntax, op) && Build(env, s, syntax, op).Parsed?
    requires syntax == O_GPR_C_GPR_C_IL || syntax == O_GPR_C_IL
    ensures OpenAsNamed(
      s, Build(env, s, syntax, op).units,
      Some(if syntax == O_GPR_C_GPR_C_IL then Peek(env, s, 5).value else Peek(env, s, 3).value), op, Current(env, s).line)
  {
    hide JumpTo, IsTextLabel, FitsLine, Clip, RegisterName, Syntaxes;
    TargetSyntaxes(syntax, op);
    var u := Blank(op, Current(env, s).line);
    var a1, a3 := Peek(env, s, 1).kind, Peek(env, s, 3).kind;
    if syntax == O_GPR_C_GPR_C_IL {
      JumpIsOpen(s, WithRs2(WithRs1(u, a1), a3), Peek(env, s, 5).value, 4096);
    } else {
      JumpIsOpen(s, WithRd(u, a1), Peek(env, s, 3).value, 1048576);
    }
  }

  lemma {:induction false} AppendCounts(s: State, units: seq<(Unit, bool)>)
    ensures AppendAll(s, units).instructionIndex == s.instructionIndex + |units|
    decreases |units|
  {
    if units != [] { AppendCounts(Append(s, units[0].0, units[0].1), units[1..]); }
  }

  lemma OneOpenUnit(s: State, unit: Unit)
    ensures AppendAll(s, [(unit, false)]) == Append(s, unit, false)
  {
    assert [(unit, false)][1..] == [];
  }

  lemma ListsStay(s: State, r: State, indices: seq<nat>, jumps: seq<OpenJump>)
    requires Lists(s, indices, jumps) && s.code <= r.code
    ensures Lists(r, indices, jumps)
  {
    forall k | 0 <= k < |indices| ensures IsJump(r, indices[k], jumps[k]) { assert IsJump(s, indices[k], jumps[k]); }
  }

  lemma OneMoreJump(s: State, indices: seq<nat>, jumps: seq<OpenJump>, index: nat, jump: OpenJump)
    requires Lists(s, indices, jumps) && IsJump(s, index, jump)
    ensures Lists(s, indices + [index], jumps + [jump])
  {
    hide IsJump;
  }

  /** What appending a line's units changes. */
  lemma UnitsAppended(s: State, units: seq<(Unit, bool)>, jumps: seq<OpenJump>, name: Option<string>, op: Mnemonic, line: nat)
    requires s.instructionIndex == |s.code| && Lists(s, s.backPatch, jumps)
    requires OpenAsNamed(s, units, name, op, line)
    ensures var r := AppendAll(s, units);
      && r.symbols == s.symbols && r.errors == s.errors && r.pos == s.pos
      && r.instructionIndex == |r.code| == |s.code| + |units|
      && Lists(r, r.backPatch, jumps + (match name
           case None => []
           case Some(target) => if IsTextLabel(s.symbols, target) then [] else [OpenJump(s.instructionIndex, op, target, line)]))
  {
    hide AppendAll, IsTextLabel;
    var r := AppendAll(s, units);
    AppendCounts(s, units);
    Provenance.AppendAllIs(s, units);
    ListsStay(s, r, s.backPatch, jumps);
    assert jumps + [] == jumps;
    if OneLine.AllComplete(units) {
      OneLine.CompleteUnitsAreNotOpen(s, units);
    } else {
      OneOpenUnit(s, units[0].0);
      assert units == [units[0]] && units[0] == (units[0].0, false);
      OneMoreJump(r, s.backPatch, jumps, s.instructionIndex, OpenJump(s.instructionIndex, op, name.value, line));
    }
  }

  /** What is left after a line's own units: the rest of the line. */
  lemma RestOfLine(env: Env, start: Progress, s: State, v: State, line: nat)
    requires Traced(env, start, v) && v.pos == s.pos + 1 && PlaceAt(env.tokens, v.pos) == Line(line)
    requires s.pos < |env.tokens| && Current(env, s).line == line && !Current(env, s).kind.Eof?
    ensures var r := v.(pos := LineEnd(env.tokens, s.pos, line)); Traced(env, start, r) && EndsLine(env.tokens, r.pos)
  {
    hide PlaceAt, Traced;
    LineTraced(env, start, v, line);
    assert LineEnd(env.tokens, s.pos, line) == LineEnd(env.tokens, s.pos + 1, line);
  }

  /** The cursor stands where a line of the text has ended. */
  predicate EndsLine(tokens: seq<Token>, p: nat) { InSection(tokens, p) || TokenAt(tokens, p).kind.Eof? }

  lemma OpcodePlace(tokens: seq<Token>, p: nat)
    requires IsStatementAt(tokens, p) && !TokenAt(tokens, p).kind.Label? && !TextEnds(TokenAt(tokens, p))
    ensures PlaceAt(tokens, p + 1) == Line(TokenAt(tokens, p).line)
  {
  }

  lemma LabelPlace(tokens: seq<Token>, p: nat)
    requires IsStatementAt(tokens, p) && TokenAt(tokens, p).kind.Label?
    ensures PlaceAt(tokens, p + 1) == Statement
  {
  }

  lemma RefusedTraced(env: Env, start: Progress, s: State)
    requires Traced(env, start, s) && IsStatementAt(env.tokens, s.pos) && s.pos < |env.tokens|
    requires !Current(env, s).kind.Label? && !TextEnds(Current(env, s))
    requires Current(env, s).kind.Opcode? ==> !InstructionOk(env, TextBefore(env, start, s.pos), s.pos, Current(env, s).kind.op)
    ensures var r := SkipLine(env, Fail(s, Current(env, s).line)); Traced(env, start, r) && EndsLine(env.tokens, r.pos)
  {
    hide PlaceAt, IsStatementAt, InstructionOk, TextBefore, EndsLine;
    var line := Current(env, s).line;
    var v := Fail(s, line).(pos := s.pos + 1);
    ReadTraced(env, start, s, v);
    OpcodePlace(env.tokens, s.pos);
    RestOfLine(env, start, s, v, line);
  }

  lemma AcceptedTraced(env: Env, start: Progress, s: State, op: Mnemonic, units: seq<(Unit, bool)>)
    requires Traced(env, start, s) && IsStatementAt(env.tokens, s.pos) && s.pos < |env.tokens|
    requires Current(env, s).kind == Opcode(op) && InstructionOk(env, TextBefore(env, start, s.pos), s.pos, op)
    requires |units| == LineLength(env, LookingAt(s.pos), op)
    requires OpenAsNamed(s, units, TargetAt(env, s.pos, op), op, Current(env, s).line)
    ensures var r := SkipLine(env, AppendAll(s, units)); Traced(env, start, r) && EndsLine(env.tokens, r.pos)
  {
    hide PlaceAt, IsStatementAt, InstructionOk, TextBefore, EndsLine, AppendAll, OpenAsNamed, Lists, TargetAt, IsTextLabel,
      LineLength;
    var line, x := Current(env, s).line, TextBefore(env, start, s.pos);
    UnitsAppended(s, units, x.jumps, TargetAt(env, s.pos, op), op, line);
    var v := AppendAll(s, units).(pos := s.pos + 1);
    MovedLists(AppendAll(s, units), v, v.backPatch, x.jumps + JumpsAt(env, x, s.pos, op));
    ReadTraced(env, start, s, v);
    OpcodePlace(env.tokens, s.pos);
    RestOfLine(env, start, s, v, line);
  }

  lemma MovedLists(s: State, r: State, indices: seq<nat>, jumps: seq<OpenJump>)
    requires Lists(s, indices, jumps) && r.code == s.code
    ensures Lists(r, indices, jumps)
  {
    ListsStay(s, r, indices, jumps);
  }

  /** A mnemonic and its line. */
  lemma InstructionTraced(env: Env, start: Progress, s: State, op: Mnemonic)
    requires Traced(env, start, s) && IsStatementAt(env.tokens, s.pos) && s.pos < |env.tokens|
    requires Current(env, s).kind == Opcode(op)
    ensures var r := Instruction(env, s, op); Traced(env, start, r) && EndsLine(env.tokens, r.pos)
  {
    hide IsStatementAt, TextBefore, EndsLine, AppendAll, ParseAny, LineOk, Lists, Syntaxes, IsMExtension, SkipLine, LineLength, Grammar.IsForm;
    var x, parsed := TextBefore(env, start, s.pos), ParseAny(env, s, Syntaxes(op), op);
    SameLine(env, s.symbols, s.instructionIndex, s, op);
    Grammar.GrammarIff(env, s.symbols, s.instructionIndex, s.pos, op);
    LineIff(env, s, op);
    if InstructionOk(env, x, s.pos, op) {
      UnitsOfLine(env, s, op);
      Provenance.AppendAllIs(s, parsed.units);
      KeepsPos(s, parsed.units);
      AcceptedTraced(env, start, s, op, parsed.units);
    } else {
      RefusedTraced(env, start, s);
    }
  }

  lemma {:induction false} KeepsPos(s: State, units: seq<(Unit, bool)>)
    ensures AppendAll(s, units).(pos := s.pos) == AppendAll(s, units)
    decreases |units|
  {
    if units != [] { KeepsPos(Append(s, units[0].0, units[0].1), units[1..]); }
  }

  lemma UnitsOfLine(env: Env, s: State, op: Mnemonic)
    requires ParseAny(env, s, Syntaxes(op), op).Parsed?
    ensures var units := ParseAny(env, s, Syntaxes(op), op).units;
      && |units| == LineLength(env, LookingAt(s.pos), op)
      && OpenAsNamed(s, units, TargetAt(env, s.pos, op), op, Current(env, s).line)
  {
    hide Applies, Build, OperandsOk, OpenAsNamed, ParseAny, Syntaxes, LineLength;
    ParseAnyYields(env, s, Syntaxes(op), op);
    var syntax: SyntaxType :| Applies(env, s, syntax, op) && Build(env, s, syntax, op) == ParseAny(env, s, Syntaxes(op), op);
    BuildIff(env, s, syntax, op);
    LineIsOpenAsNamed(env, s, syntax, op);
    SameLine(env, s.symbols, s.instructionIndex, s, op);
  }

  lemma ReadLabel(env: Env, x: Progress, p: nat)
    requires IsStatementAt(env.tokens, p) && TokenAt(env.tokens, p).kind.Label?
    ensures var t := TokenAt(env.tokens, p);
      Read(env, x, p) ==
        if t.value in x.symbols then x.(errors := x.errors + [t.line])
        else x.(symbols := x.symbols[t.value := SymbolData(4 * x.index % TWO32, t.line, false)])
  {
    hide IsStatementAt, InstructionOk, LineLength, JumpsAt;
  }

  lemma TextLabelTraced(env: Env, start: Progress, s: State)
    requires Traced(env, start, s) && IsStatementAt(env.tokens, s.pos) && s.pos < |env.tokens| && Current(env, s).kind.Label?
    ensures var r := Next(env, DefineText(env, s)); Traced(env, start, r) && EndsLine(env.tokens, r.pos)
  {
    hide PlaceAt, IsStatementAt, TextBefore, Lists, Read;
    var r := Next(env, DefineText(env, s));
    LabelPlace(env.tokens, s.pos);
    ReadLabel(env, TextBefore(env, start, s.pos), s.pos);
    MovedLists(s, r, r.backPatch, TextBefore(env, start, s.pos).jumps);
    ReadTraced(env, start, s, r);
  }

  lemma TextStepTraced(env: Env, start: Progress, s: State)
    requires Traced(env, start, s) && IsStatementAt(env.tokens, s.pos) && s.pos < |env.tokens| && !TextEnds(Current(env, s))
    ensures var r := TextStep(env, s); Traced(env, start, r) && EndsLine(env.tokens, r.pos)
  {
    hide Traced, IsStatementAt, EndsLine, Instruction, DefineText, SkipLine, InstructionOk;
    var t := Current(env, s);
    if t.kind.Label? {
      TextLabelTraced(env, start, s);
    } else if t.kind.Opcode? {
      InstructionTraced(env, start, s, t.kind.op);
    } else {
      RefusedTraced(env, start, s);
    }
  }

  lemma SectionStatement(tokens: seq<Token>, p: nat)
    requires InSection(tokens, p) && !TextEnds(TokenAt(tokens, p))
    ensures IsStatementAt(tokens, p)
  {
    hide PlaceAt;
  }

  lemma {:induction false} TextSectionTraced(env: Env, start: Progress, s: State)
    requires Traced(env, start, s)
    requires EndsLine(env.tokens, s.pos) || (IsStatementAt(env.tokens, s.pos) && !TextEnds(Current(env, s)))
    ensures var r := TextSection(env, s); Traced(env, start, r) && EndsText(env.tokens, r.pos)
    decreases |env.tokens| - s.pos
  {
    hide Traced, TextStep, IsStatementAt, InSection;
    if TextEnds(Current(env, s)) {
    } else {
      if EndsLine(env.tokens, s.pos) { SectionStatement(env.tokens, s.pos); }
      TextStepTraced(env, start, s);
      TextSectionTraced(env, start, TextStep(env, s));
    }
  }

  predicate EndsText(tokens: seq<Token>, p: nat) { TextEnds(TokenAt(tokens, p)) && EndsLine(tokens, p) }

  /** The outer loop stands at a word of its own, or at the end of file. */
  predicate Outer(tokens: seq<Token>, p: nat) { AtTop(tokens, p) || TokenAt(tokens, p).kind.Eof? }

  lemma TopPlace(tokens: seq<Token>, p: nat)
    requires AtTop(tokens, p) && !TokenAt(tokens, p).kind.Eof?
    ensures PlaceAt(tokens, p + 1) == AfterTop(TokenAt(tokens, p))
    ensures IsStrayAt(tokens, p) <==> DataSource.IsStrayWord(TokenAt(tokens, p))
    ensures IsStatementAt(tokens, p) <==> TokenAt(tokens, p).kind.Label? || TokenAt(tokens, p).kind.Opcode?
  {
  }

  lemma WordTraced(env: Env, start: Progress, s: State, r: State)
    requires Traced(env, start, s) && AtTop(env.tokens, s.pos) && s.pos < |env.tokens| && !Current(env, s).kind.Eof?
    requires !Current(env, s).kind.Label? && !Current(env, s).kind.Opcode?
    requires r == if DataSource.IsStrayWord(Current(env, s)) then Next(env, Fail(s, Current(env, s).line)) else s.(pos := s.pos + 1)
    ensures Traced(env, start, r) && PlaceAt(env.tokens, r.pos) == AfterTop(Current(env, s))
  {
    hide PlaceAt, AtTop, TextBefore, Lists, AfterTop, IsStatementAt, IsStrayAt, InstructionOk, DataSource.IsStrayWord;
    TopPlace(env.tokens, s.pos);
    MovedLists(s, r, r.backPatch, TextBefore(env, start, s.pos).jumps);
    ReadTraced(env, start, s, r);
  }

  lemma PlaceIsTop(tokens: seq<Token>, p: nat)
    ensures PlaceAt(tokens, p).Top? ==> AtTop(tokens, p)
    ensures PlaceAt(tokens, p).Statement? ==> InSection(tokens, p)
    ensures EndsText(tokens, p) ==> Outer(tokens, p)
  {
    hide PlaceAt;
  }

  lemma PassTwoStepTraced(env: Env, start: Progress, s: State)
    requires Traced(env, start, s) && AtTop(env.tokens, s.pos) && !Current(env, s).kind.Eof?
    ensures var r := PassTwoStep(env, s); Traced(env, start, r) && Outer(env.tokens, r.pos)
  {
    hide Traced, PlaceAt, AtTop, TextSection, IsStatementAt, InSection;
    var t, next := Current(env, s), s.(pos := s.pos + 1);
    var failed := Next(env, Fail(s, t.line));
    if t.kind.Label? || t.kind.Opcode? {
      TopPlace(env.tokens, s.pos);
      TextSectionTraced(env, start, s);
      PlaceIsTop(env.tokens, TextSection(env, s).pos);
    } else if DataSource.IsStrayWord(t) {
      WordTraced(env, start, s, failed);
      PlaceIsTop(env.tokens, failed.pos);
    } else {
      WordTraced(env, start, s, next);
      PlaceIsTop(env.tokens, next.pos);
      if IsDirective(t, "data") || IsDirective(t, "bss") {
        DataSkipTraced(env, start, next);
        assert s.(pos := SkipTo(env.tokens, s.pos, SkippedData)) == next.(pos := SkipTo(env.tokens, next.pos, SkippedData));
      } else if IsDirective(t, "text") {
        TextSectionTraced(env, start, next);
        PlaceIsTop(env.tokens, TextSection(env, next).pos);
      }
    }
  }

  lemma {:induction false} PassTwoTraced(env: Env, start: Progress, s: State)
    requires Traced(env, start, s) && Outer(env.tokens, s.pos)
    ensures Traced(env, start, PassTwo(env, s))
    decreases |env.tokens| - s.pos
  {
    hide Traced, AtTop, PassTwoStep;
    if Current(env, s).kind.Eof? {
    } else {
      PassTwoStepTraced(env, start, s);
      PassTwoTraced(env, start, PassTwoStep(env, s));
    }
  }

  /*
   * Back-patching.
   */

  /**
   The jump's label is defined; a branch goes to a text label between 4096 bytes before it and 4095 after it, a
   link to any label between 2^20 bytes before it and one byte less after it.
   */
  predicate Reaches(symbols: map<string, SymbolData>, j: OpenJump) {
    && j.target in symbols
    && var d := DistanceTo(symbols, j.target, j.index);
       if j.op.InB? then !symbols[j.target].isData && -4096 <= d <= 4095
       else j.op.InJ? && -1048576 <= d <= 1048575
  }

  /** The lines of the jumps that do not. */
  function JumpErrors(symbols: map<string, SymbolData>, jumps: seq<OpenJump>): seq<nat> {
    if jumps == [] then []
    else (if Reaches(symbols, jumps[0]) then [] else [jumps[0].line]) + JumpErrors(symbols, jumps[1..])
  }

  lemma PatchErrors(s: State, index: nat, j: OpenJump)
    requires IsJump(s, index, j)
    ensures PatchOne(s, index).errors == s.errors + (if Reaches(s.symbols, j) then [] else [j.line])
  {
    hide WithImm, Int64;
    assert s.errors + [] == s.errors;
  }

  lemma PatchReports(s: State, index: nat, j: OpenJump)
    requires IsJump(s, index, j)
    ensures var r := PatchOne(s, index);
      && r.errors == s.errors + (if Reaches(s.symbols, j) then [] else [j.line]) && r.symbols == s.symbols
      && forall k :: 0 <= k < |s.code| ==>
           && r.code[k].0.op == s.code[k].0.op && r.code[k].0.target == s.code[k].0.target
           && r.code[k].0.line == s.code[k].0.line
  {
    hide PatchOne, Reaches;
    PatchErrors(s, index, j);
    PatchOneFrame(s, index);
  }

  lemma JumpsStay(s: State, r: State, indices: seq<nat>, jumps: seq<OpenJump>)
    requires Lists(s, indices, jumps) && |r.code| == |s.code|
    requires forall k :: 0 <= k < |s.code| ==>
      && r.code[k].0.op == s.code[k].0.op && r.code[k].0.target == s.code[k].0.target
      && r.code[k].0.line == s.code[k].0.line
    ensures Lists(r, indices, jumps)
  {
    forall k | 0 <= k < |indices| ensures IsJump(r, indices[k], jumps[k]) { assert IsJump(s, indices[k], jumps[k]); }
  }

  /** Back-patching reports exactly the jumps that do not reach, in their order. */
  lemma {:induction false} PatchAllReports(s: State, indices: seq<nat>, jumps: seq<OpenJump>)
    requires InRange(s, indices) && Lists(s, indices, jumps)
    ensures PatchAll(s, indices).errors == s.errors + JumpErrors(s.symbols, jumps)
    decreases |indices|
  {
    hide PatchOne, Reaches, IsJump;
    if indices == [] {
    } else {
      var r := PatchOne(s, indices[0]);
      assert IsJump(s, indices[0], jumps[0]);
      PatchReports(s, indices[0], jumps[0]);
      RestListed(s, indices, jumps);
      JumpsStay(s, r, indices[1..], jumps[1..]);
      PatchAllReports(r, indices[1..], jumps[1..]);
    }
  }

  lemma RestListed(s: State, indices: seq<nat>, jumps: seq<OpenJump>)
    requires Lists(s, indices, jumps) && indices != []
    ensures Lists(s, indices[1..], jumps[1..])
  {
    hide IsJump;
    forall k | 0 <= k < |indices[1..]| ensures IsJump(s, indices[1..][k], jumps[1..][k]) {
      assert IsJump(s, indices[k + 1], jumps[k + 1]);
    }
  }

  lemma {:induction false} NoJumpErrors(symbols: map<string, SymbolData>, jumps: seq<OpenJump>)
    ensures JumpErrors(symbols, jumps) == [] <==> forall k :: 0 <= k < |jumps| ==> Reaches(symbols, jumps[k])
    decreases |jumps|
  {
    hide Reaches;
    if jumps != [] {
      NoJumpErrors(symbols, jumps[1..]);
      assert forall k :: 0 <= k < |jumps| ==> jumps[k] == if k == 0 then jumps[0] else jumps[1..][k - 1];
    }
  }

  /*
   * Whole programs.
   */

  /** What the first pass leaves for the second. */
  function Start(env: Env): Progress {
    var n := |env.tokens|;
    Progress(DataSource.SymbolsBefore(env.tokens, n), 0, DataSource.ErrorsBefore(env.tokens, n), [])
  }

  /** What the tokens before `p` give. */
  function ProgressAt(env: Env, p: nat): Progress { TextBefore(env, Start(env), p) }

  function Outcome(env: Env): Progress { ProgressAt(env, |env.tokens|) }

  lemma EofAddsNothing(env: Env, x: Progress, p: nat)
    requires TokenAt(env.tokens, p).kind.Eof?
    ensures Read(env, x, p) == x && !IsTextError(env, x, p)
  {
    hide PlaceAt, InstructionOk;
  }

  lemma {:induction false} NothingAfterEof(env: Env, start: Progress, n: nat)
    requires PassOne.EofTerminated(env.tokens) && |env.tokens| - 1 <= n
    ensures TextBefore(env, start, n) == TextBefore(env, start, |env.tokens| - 1)
    decreases n
  {
    hide Read;
    if |env.tokens| - 1 < n {
      NothingAfterEof(env, start, n - 1);
      EofAddsNothing(env, TextBefore(env, start, n - 1), n - 1);
    }
  }

  lemma RewoundTraced(env: Env, s: State)
    requires DataTheorems.Collected(s)
    ensures Traced(env, Progress(s.symbols, 0, s.errors, []), Rewound(s))
    ensures Outer(env.tokens, Rewound(s).pos)
  {
  }

  lemma {:induction false} PassTwoEnds(env: Env, s: State)
    ensures Current(env, PassTwo(env, s)).kind.Eof?
    decreases |env.tokens| - s.pos
  {
    if !Current(env, s).kind.Eof? { PassTwoEnds(env, PassTwoStep(env, s)); }
  }

  lemma EofIsLast(tokens: seq<Token>, p: nat)
    requires PassOne.EofTerminated(tokens) && TokenAt(tokens, p).kind.Eof?
    ensures |tokens| - 1 <= p
  {
  }

  /** The second pass, whether or not there are errors, is that reading of the tokens. */
  lemma SecondPassIs(env: Env)
    requires PassOne.NothingStuck(env.tokens) && PassOne.EofTerminated(env.tokens)
    ensures var s, x := AfterPassTwo(env), Outcome(env);
      && s.symbols == x.symbols && s.instructionIndex == x.index == |s.code| && s.errors == x.errors
      && Lists(s, s.backPatch, x.jumps)
  {
    hide AfterPassOne, PassTwo, TextBefore, DataTheorems.Collected, DataSource.SymbolsBefore, DataSource.ErrorsBefore, Kept, Lists;
    var one := AfterPassOne(env);
    PassesKept(env);
    DataSource.FirstPassIs(env);
    RewoundTraced(env, one);
    PassTwoTraced(env, Start(env), Rewound(one));
    PassTwoEnds(env, Rewound(one));
    EofIsLast(env.tokens, AfterPassTwo(env).pos);
    NothingAfterEof(env, Start(env), AfterPassTwo(env).pos);
    NothingAfterEof(env, Start(env), |env.tokens|);
  }

  /**
   The errors of the whole assembler, for every token list on which it ends: the lines of the tokens that the first
   pass finds in error, then those of the second pass, then those of the jumps that do not reach.
   */
  lemma ErrorsAreThose(env: Env)
    requires PassOne.NothingStuck(env.tokens) && PassOne.EofTerminated(env.tokens)
    ensures Parse(env).errors == Outcome(env).errors + JumpErrors(Outcome(env).symbols, Outcome(env).jumps)
  {
    hide AfterPassTwo, PatchAll, Outcome, Ordered, Placed, Aimed, DataTheorems.Collected, Lists;
    PassesKept(env);
    SecondPassIs(env);
    PatchAllReports(AfterPassTwo(env), AfterPassTwo(env).backPatch, Outcome(env).jumps);
  }
}
