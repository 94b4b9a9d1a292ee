/**
 Which instruction lines are accepted: the conditions on a line's operands, and that a line is accepted exactly
 when one of its mnemonic's syntaxes fits it and the operands meet them.
 */
module Acceptance {
  import opened Words
  import opened Instructions
  import opened Units
  import opened Tokens
  import opened ParserState
  import opened Operands
  import opened OperandTheorems

  /** The distance from instruction `k` to a symbol, in 64 bits. */
  function DistanceTo(symbols: map<string, SymbolData>, name: string, k: nat): int
    requires name in symbols
  {
    Int64(symbols[name].address - 4 * k % TWO32)
  }

  predicate IsDataLabel(symbols: map<string, SymbolData>, name: string) { name in symbols && symbols[name].isData }

  predicate IsTextLabel(symbols: map<string, SymbolData>, name: string) { name in symbols && !symbols[name].isData }

  /** The immediates that an instruction with two registers and a number takes. */
  predicate ThirdNumberOk(op: Mnemonic, n: int) {
    if op.InI2? then 0 <= n <= 31
    else if op.InB? then -4096 <= n <= 4095 && n % 4 == 0
    else -2048 <= n <= 2047
  }

  /** What the operands have to meet as instruction `k` when these symbols are known. */
  predicate OperandsOk(env: Env, symbols: map<string, SymbolData>, k: nat, s: State, syntax: SyntaxType, op: Mnemonic) {
    var a3, a5 := Peek(env, s, 3), Peek(env, s, 5);
    match syntax
    case O_GPR_C_GPR_C_I => a5.kind.Num? && ThirdNumberOk(op, a5.kind.n)
    case O_GPR_C_I =>
      a3.kind.Num? &&
      if op.InU? then 0 <= a3.kind.n <= 1048575 else -1048576 <= a3.kind.n <= 1048575 && a3.kind.n % 2 == 0
    case O_GPR_C_I_LP_GPR_RP | O_FPR_C_I_LP_GPR_RP => a3.kind.Num? && -2048 <= a3.kind.n <= 2047
    case O_GPR_C_CSR_C_I => a5.kind.Num? && 0 <= a5.kind.n <= 31
    case O_GPR_C_GPR_C_IL => IsTextLabel(symbols, a5.value) ==> -4096 <= DistanceTo(symbols, a5.value, k) <= 4095
    case O_GPR_C_IL => IsTextLabel(symbols, a3.value) ==> -1048576 <= DistanceTo(symbols, a3.value, k) <= 1048575
    case O_GPR_C_DL => IsDataLabel(symbols, a3.value)
    case PSEUDO =>
      && (op == InNone(kla) ==> IsDataLabel(symbols, a3.value))
      && (op == InNone(kli) ==> a3.kind.Num? && -0x8000_0000 <= a3.kind.n <= 0x7FFF_FFFF)
    case _ => true
  }

  /** How many instructions the line gives: two for an address, and for a number that takes an upper part and a rest. */
  function LineLength(env: Env, s: State, op: Mnemonic): nat {
    var a3 := Peek(env, s, 3).kind;
    if op == InNone(kla) || (op.InI1? && a3.LabelRef?) then 2
    else if op == InNone(kli) && a3.Num? && !(-2048 <= a3.n <= 2047) && (a3.n + 0x800) / 0x1000 * 0x1000 != a3.n then 2
    else 1
  }

  /** The line is read, as so many units, or refused; it is not passed on to the next syntax. */
  predicate Decided(p: Parsed, ok: bool, length: nat) {
    !p.NoMatch? && (p.Parsed? <==> ok) && (p.Parsed? ==> |p.units| == length)
  }

  lemma NumberIsThere(env: Env, s: State, tags: seq<Tag>, i: nat)
    requires FitsLine(env, s, tags) && i < |tags| && tags[i] == Number
    ensures Peek(env, s, i + 1).kind.Num? && NumberIn(Peek(env, s, i + 1).kind) == Peek(env, s, i + 1).kind.n
  {
    Tagged(env, s, tags, i);
  }

  lemma RegisterImmediateIff(env: Env, s: State, syntax: SyntaxType, op: Mnemonic)
    requires Applies(env, s, syntax, op) && (syntax == O_GPR_C_GPR_C_I || syntax == O_GPR_C_I || syntax == O_GPR_C_CSR_C_I)
    ensures Decided(Build(env, s, syntax, op), OperandsOk(env, s.symbols, s.instructionIndex, s, syntax, op), 1)
  {
    hide FitsLine, Syntaxes, WithImm, WithRd, WithRs1, WithRs2;
    ImmediateSyntaxes(syntax, op);
    NumberIsThere(env, s, Shape(syntax, op).value, if syntax == O_GPR_C_I then 2 else 4);
  }

  lemma ImmediateSyntaxes(syntax: SyntaxType, op: Mnemonic)
    requires syntax in Syntaxes(op)
    ensures syntax == O_GPR_C_GPR_C_I ==> op.InI1? || op.InI2? || op.InB?
    ensures syntax == O_GPR_C_I ==> op.InU? || op.InJ?
    ensures syntax == O_GPR_C_I_LP_GPR_RP ==> op.InI1? || op.InS?
    ensures syntax == O_FPR_C_I_LP_GPR_RP ==> op.InFdI? || op.InFdS?
    ensures syntax == O_GPR_C_GPR_C_IL ==> op.InB?
    ensures syntax == O_GPR_C_IL ==> op.InJ?
    ensures syntax != O_GPR_C_GPR_C_DL
  {
  }

  lemma MemoryImmediateIff(env: Env, s: State, op: Mnemonic)
    requires Applies(env, s, O_GPR_C_I_LP_GPR_RP, op)
    ensures Decided(
      Build(env, s, O_GPR_C_I_LP_GPR_RP, op), OperandsOk(env, s.symbols, s.instructionIndex, s, O_GPR_C_I_LP_GPR_RP, op), 1)
  {
    hide FitsLine, Syntaxes, WithImm, WithRd, WithRs1, WithRs2;
    ImmediateSyntaxes(O_GPR_C_I_LP_GPR_RP, op);
    NumberIsThere(env, s, Shape(O_GPR_C_I_LP_GPR_RP, op).value, 2);
  }

  lemma FloatMemoryIff(env: Env, s: State, op: Mnemonic)
    requires Applies(env, s, O_FPR_C_I_LP_GPR_RP, op)
    ensures Decided(
      Build(env, s, O_FPR_C_I_LP_GPR_RP, op), OperandsOk(env, s.symbols, s.instructionIndex, s, O_FPR_C_I_LP_GPR_RP, op), 1)
  {
    hide FitsLine, Syntaxes, WithImm, WithRd, WithRs1, WithRs2;
    ImmediateSyntaxes(O_FPR_C_I_LP_GPR_RP, op);
    NumberIsThere(env, s, Shape(O_FPR_C_I_LP_GPR_RP, op).value, 2);
  }

  lemma JumpDecided(s: State, u: Unit, name: string, limit: int)
    ensures Decided(
      JumpTo(s, u, name, limit),
      IsTextLabel(s.symbols, name) ==> -limit <= DistanceTo(s.symbols, name, s.instructionIndex) <= limit - 1, 1)
  {
    hide WithImm, Int64;
  }

  lemma PairDecided(env: Env, s: State, op: Mnemonic, register: Kind, name: string)
    ensures Decided(AddressPair(env, s, op, register, name), IsDataLabel(s.symbols, name), 2)
  {
    hide WithImm, WithRd, WithRs1, Hi20, Lo12, DataOffset;
  }

  lemma BranchIff(env: Env, s: State, op: Mnemonic)
    requires Applies(env, s, O_GPR_C_GPR_C_IL, op)
    ensures Decided(Build(env, s, O_GPR_C_GPR_C_IL, op), OperandsOk(env, s.symbols, s.instructionIndex, s, O_GPR_C_GPR_C_IL, op), 1)
  {
    hide FitsLine, Syntaxes, WithRs1, WithRs2, JumpTo, DistanceTo;
    ImmediateSyntaxes(O_GPR_C_GPR_C_IL, op);
    var u := WithRs2(WithRs1(Blank(op, Current(env, s).line), Peek(env, s, 1).kind), Peek(env, s, 3).kind);
    JumpDecided(s, u, Peek(env, s, 5).value, 4096);
  }

  lemma LinkIff(env: Env, s: State, op: Mnemonic)
    requires Applies(env, s, O_GPR_C_IL, op)
    ensures Decided(Build(env, s, O_GPR_C_IL, op), OperandsOk(env, s.symbols, s.instructionIndex, s, O_GPR_C_IL, op), 1)
  {
    hide FitsLine, Syntaxes, WithRd, JumpTo, DistanceTo;
    ImmediateSyntaxes(O_GPR_C_IL, op);
    JumpDecided(s, WithRd(Blank(op, Current(env, s).line), Peek(env, s, 1).kind), Peek(env, s, 3).value, 1048576);
  }

  lemma LabelIff(env: Env, s: State, syntax: SyntaxType, op: Mnemonic)
    requires Applies(env, s, syntax, op) && (syntax == O_GPR_C_GPR_C_IL || syntax == O_GPR_C_IL || syntax == O_GPR_C_DL)
    ensures Decided(
      Build(env, s, syntax, op), OperandsOk(env, s.symbols, s.instructionIndex, s, syntax, op), if syntax == O_GPR_C_DL then 2 else 1)
  {
    hide Applies, Decided, AddressPair, DistanceTo, IsTextLabel, IsDataLabel;
    if syntax == O_GPR_C_GPR_C_IL {
      BranchIff(env, s, op);
    } else if syntax == O_GPR_C_IL {
      LinkIff(env, s, op);
    } else {
      PairDecided(env, s, op, Peek(env, s, 1).kind, Peek(env, s, 3).value);
    }
  }

  lemma PseudoIff(env: Env, s: State, op: Mnemonic)
    requires Applies(env, s, PSEUDO, op)
    ensures Decided(
      Build(env, s, PSEUDO, op), OperandsOk(env, s.symbols, s.instructionIndex, s, PSEUDO, op), LineLength(env, s, op))
  {
    hide FitsLine, Syntaxes, WithImm, WithRd, WithRs1, WithRs2, Hi20, Lo12, DataOffset;
    if op == InNone(kli) { NumberIsThere(env, s, PseudoShape(op).value, 2); }
  }

  predicate HasCondition(syntax: SyntaxType) {
    || syntax == O_GPR_C_GPR_C_I || syntax == O_GPR_C_I || syntax == O_GPR_C_CSR_C_I
    || syntax == O_GPR_C_I_LP_GPR_RP || syntax == O_FPR_C_I_LP_GPR_RP
    || syntax == O_GPR_C_GPR_C_IL || syntax == O_GPR_C_IL || syntax == O_GPR_C_DL || syntax == PSEUDO
  }

  lemma OthersIff(env: Env, s: State, syntax: SyntaxType, op: Mnemonic)
    requires !HasCondition(syntax) && syntax != O_GPR_C_GPR_C_DL
    ensures Decided(
      Build(env, s, syntax, op), OperandsOk(env, s.symbols, s.instructionIndex, s, syntax, op), 1)
  {
    hide WithImm, WithRd, WithRs1, WithRs2, WithRs3, Pseudo, AddressPair, JumpTo, Immediate;
  }

  lemma LengthOfLine(env: Env, s: State, syntax: SyntaxType, op: Mnemonic)
    requires Applies(env, s, syntax, op) && syntax != PSEUDO
    ensures LineLength(env, s, op) == if syntax == O_GPR_C_DL then 2 else 1
  {
    hide FitsLine, Syntaxes;
    LengthSyntaxes(syntax, op);
    if op.InI1? { Tagged(env, s, Shape(syntax, op).value, 2); }
  }

  lemma LengthSyntaxes(syntax: SyntaxType, op: Mnemonic)
    requires syntax in Syntaxes(op)
    ensures syntax == O_GPR_C_DL ==> op.InI1?
    ensures op.InI1? ==> syntax == O_GPR_C_GPR_C_I || syntax == O_GPR_C_I_LP_GPR_RP || syntax == O_GPR_C_DL
    ensures op == InNone(kla) || op == InNone(kli) ==> syntax == PSEUDO
  {
  }

  /** Once a syntax fits the line, its operand parser accepts exactly the operands that meet its conditions. */
  lemma BuildIff(env: Env, s: State, syntax: SyntaxType, op: Mnemonic)
    requires Applies(env, s, syntax, op)
    ensures Decided(
      Build(env, s, syntax, op), OperandsOk(env, s.symbols, s.instructionIndex, s, syntax, op), LineLength(env, s, op))
  {
    hide Applies, Build, OperandsOk, Decided, LineLength;
    NeverBothData(env, s, syntax, op);
    if syntax != PSEUDO { LengthOfLine(env, s, syntax, op); }
    if syntax == O_GPR_C_GPR_C_I || syntax == O_GPR_C_I || syntax == O_GPR_C_CSR_C_I {
      RegisterImmediateIff(env, s, syntax, op);
    } else if syntax == O_GPR_C_I_LP_GPR_RP {
      MemoryImmediateIff(env, s, op);
    } else if syntax == O_FPR_C_I_LP_GPR_RP {
      FloatMemoryIff(env, s, op);
    } else if syntax == PSEUDO {
      PseudoIff(env, s, op);
    } else if HasCondition(syntax) {
      LabelIff(env, s, syntax, op);
    } else {
      OthersIff(env, s, syntax, op);
    }
  }

  lemma NeverBothData(env: Env, s: State, syntax: SyntaxType, op: Mnemonic)
    requires Applies(env, s, syntax, op)
    ensures syntax != O_GPR_C_GPR_C_DL
  {
    hide FitsLine, Syntaxes;
  }

  /*
   * One syntax at most fits.
   */

  lemma TagsExclude(kind: Kind, s: Tag, t: Tag)
    requires HasTag(kind, s) && HasTag(kind, t)
    ensures s == t
  {
  }

  lemma ShorterEnds(env: Env, s: State, x: seq<Tag>, y: seq<Tag>)
    requires FitsLine(env, s, x) && |x| < |y|
    ensures !FitsLine(env, s, y)
  {
    if FitsLine(env, s, y) {
      assert TokenFits(env, s, |x| + 1, y[|x|]);
      EofHasNoTag(Peek(env, s, |x| + 1).kind, y[|x|]);
    }
  }

  lemma EofHasNoTag(kind: Kind, t: Tag)
    ensures HasTag(kind, t) ==> !kind.Eof?
  {
  }

  lemma DistinctExclude(env: Env, s: State, x: seq<Tag>, y: seq<Tag>)
    requires FitsLine(env, s, x) && FitsLine(env, s, y)
    ensures x == y
  {
    hide HasTag, LineEndsBefore;
    if |x| < |y| { ShorterEnds(env, s, x, y); }
    if |y| < |x| { ShorterEnds(env, s, y, x); }
    forall i | 0 <= i < |x| ensures x[i] == y[i] {
      assert TokenFits(env, s, i + 1, x[i]) && TokenFits(env, s, i + 1, y[i]);
      TagsExclude(Peek(env, s, i + 1).kind, x[i], y[i]);
    }
  }

  lemma ShapesDiffer(op: Mnemonic, x: SyntaxType, y: SyntaxType)
    requires x in Syntaxes(op) && y in Syntaxes(op) && Shape(x, op) == Shape(y, op)
    ensures x == y
  {
  }

  lemma OneApplies(env: Env, s: State, op: Mnemonic, x: SyntaxType, y: SyntaxType)
    requires Applies(env, s, x, op) && Applies(env, s, y, op)
    ensures x == y
  {
    hide FitsLine, Syntaxes, Shape;
    DistinctExclude(env, s, Shape(x, op).value, Shape(y, op).value);
    ShapesDiffer(op, x, y);
  }

  /*
   * Lines.
   */

  lemma SyntaxApplies(env: Env, s: State, syntax: SyntaxType, op: Mnemonic)
    requires syntax in Syntaxes(op)
    ensures ParseSyntax(env, s, syntax, op) == if Applies(env, s, syntax, op) then Build(env, s, syntax, op) else NoMatch
  {
    hide Build, FitsLine, Shape, Syntaxes;
  }

  lemma NotPassedOn(env: Env, s: State, syntax: SyntaxType, op: Mnemonic)
    requires Applies(env, s, syntax, op)
    ensures !Build(env, s, syntax, op).NoMatch?
  {
    hide Applies, Build, OperandsOk;
    BuildIff(env, s, syntax, op);
  }

  lemma {:induction false} ParseAnyIs(env: Env, s: State, syntaxes: seq<SyntaxType>, op: Mnemonic, syntax: SyntaxType)
    requires (forall x <- syntaxes :: x in Syntaxes(op)) && syntax in syntaxes && Applies(env, s, syntax, op)
    ensures ParseAny(env, s, syntaxes, op) == Build(env, s, syntax, op)
  {
    hide Build, Applies, Syntaxes, ParseSyntax;
    SyntaxApplies(env, s, syntaxes[0], op);
    NotPassedOn(env, s, syntax, op);
    if syntaxes[0] != syntax {
      if Applies(env, s, syntaxes[0], op) { OneApplies(env, s, op, syntaxes[0], syntax); }
      ParseAnyIs(env, s, syntaxes[1..], op, syntax);
    }
  }

  /** Looking at the token list from position `p`. */
  function LookingAt(p: nat): State { START.(pos := p) }

  /** The line is one that the mnemonic's operands may be. */
  ghost predicate LineOk(env: Env, symbols: map<string, SymbolData>, k: nat, s: State, op: Mnemonic) {
    exists syntax: SyntaxType :: Applies(env, s, syntax, op) && OperandsOk(env, symbols, k, s, syntax, op)
  }

  /** A line is read exactly when a syntax of its mnemonic fits it and the operands meet the conditions. */
  lemma LineIff(env: Env, s: State, op: Mnemonic)
    ensures ParseAny(env, s, Syntaxes(op), op).Parsed? <==> LineOk(env, s.symbols, s.instructionIndex, s, op)
  {
    hide Build, Applies, OperandsOk, ParseAny, Syntaxes;
    if ParseAny(env, s, Syntaxes(op), op).Parsed? {
      ParseAnyYields(env, s, Syntaxes(op), op);
      var syntax: SyntaxType :| Applies(env, s, syntax, op) && Build(env, s, syntax, op) == ParseAny(env, s, Syntaxes(op), op);
      BuildIff(env, s, syntax, op);
    }
    if LineOk(env, s.symbols, s.instructionIndex, s, op) {
      var syntax: SyntaxType :| Applies(env, s, syntax, op) && OperandsOk(env, s.symbols, s.instructionIndex, s, syntax, op);
      HasSyntax(env, s, syntax, op);
      ParseAnyIs(env, s, Syntaxes(op), op, syntax);
      BuildIff(env, s, syntax, op);
    }
  }

  lemma HasSyntax(env: Env, s: State, syntax: SyntaxType, op: Mnemonic)
    requires Applies(env, s, syntax, op)
    ensures syntax in Syntaxes(op)
  {
  }
}
