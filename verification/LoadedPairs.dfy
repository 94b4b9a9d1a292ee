/**
 Address pairs in loaded programs: what an expanded `la` or load from a data label addresses once fetched.
 */
module LoadedPairs {
  import opened Words
  import opened Text
  import opened Instructions
  import opened Units
  import opened Encoder
  import opened Tokens
  import opened ParserState
  import opened Operands
  import opened OperandTheorems
  import opened LineRoundTrip
  import opened MainMemory
  import opened EndToEnd
  import opened ImmGen
  import opened AddressPairs
  import opened SourceToCode
  import Assembly
  import Provenance

  /** Instruction `i` is an `auipc` that the assembler made: its line asks for something else. */
  ghost predicate HeadsPair(env: Env, i: nat)
    requires Accepted(env) && i < |Assembly.Parse(env).code|
  {
    var s := Assembly.Parse(env);
    && s.code[i].0.op == InU(kauipc)
    && i < |s.origins| && s.origins[i] < |env.tokens| && env.tokens[s.origins[i]].kind.Opcode?
    && env.tokens[s.origins[i]].kind.op != InU(kauipc)
  }

  /** The line is read as an address pair, by `la` or by a load from a label. */
  predicate ReadsPair(env: Env, t: State, syntax: SyntaxType, op: Mnemonic, name: I1Name) {
    && name != kaddiw && IsRegisterKind(Peek(env, t, 1).kind)
    && Build(env, t, syntax, op) == AddressPair(env, t, InI1(name), Peek(env, t, 1).kind, Peek(env, t, 3).value)
    && Peek(env, t, 3).value in t.symbols && t.symbols[Peek(env, t, 3).value].isData
  }

  lemma PseudoPair(env: Env, t: State, op: Mnemonic, j: nat, unit: (Unit, bool))
    requires Yields(env, t, PSEUDO, op, j, unit) && unit.0.op == InU(kauipc)
    ensures j == 0 && ReadsPair(env, t, PSEUDO, op, kaddi)
  {
    hide Clip, ToText, RegisterName, Offset, Hi20, Lo12, DataOffset, FitsLine, Syntaxes;
    PairSyntaxes(PSEUDO, op);
    RegistersAreThere(env, t, Shape(PSEUDO, op).value, if op == InNone(kla) then 1 else 0);
  }

  lemma LoadPair(env: Env, t: State, op: Mnemonic, j: nat, unit: (Unit, bool))
    requires Yields(env, t, O_GPR_C_DL, op, j, unit) && unit.0.op == InU(kauipc)
    ensures j == 0 && op.InI1? && ReadsPair(env, t, O_GPR_C_DL, op, op.i1)
  {
    hide Clip, ToText, RegisterName, Hi20, Lo12, DataOffset, FitsLine, Syntaxes;
    PairSyntaxes(O_GPR_C_DL, op);
    RegistersAreThere(env, t, Shape(O_GPR_C_DL, op).value, 1);
  }

  /** Only an address pair starts with an `auipc` that its line does not name. */
  lemma OnlyPairsHavePairHeads(env: Env, t: State, syntax: SyntaxType, op: Mnemonic, j: nat, unit: (Unit, bool))
    requires Yields(env, t, syntax, op, j, unit) && unit.0.op == InU(kauipc) && op != InU(kauipc)
    ensures j == 0 && exists name: I1Name :: ReadsPair(env, t, syntax, op, name)
  {
    hide Yields, ReadsPair;
    OthersKeepMnemonic(env, t, syntax, op, j, unit);
    if syntax == PSEUDO {
      PseudoPair(env, t, op, j, unit);
    } else {
      LoadPair(env, t, op, j, unit);
    }
  }

  lemma PairSyntaxes(syntax: SyntaxType, op: Mnemonic)
    requires syntax in Syntaxes(op)
    ensures syntax == O_GPR_C_DL ==> op.InI1? && op.i1 != kaddiw
    ensures syntax == PSEUDO ==> op.InNone?
  {
  }

  /** A pair's two units are next to each other in the code, and complete. */
  lemma PairIsThere(env: Env, i: nat, t: State, syntax: SyntaxType, name: I1Name)
    requires PassOne.NothingStuck(env.tokens)
    requires Provenance.BlockAt(env, Assembly.AfterPassTwo(env), i, t, syntax, 0)
    requires ReadsPair(env, t, syntax, env.tokens[t.pos].kind.op, name)
    ensures var p := AddressPair(env, t, InI1(name), Peek(env, t, 1).kind, Peek(env, t, 3).value);
      && p.Parsed? && |p.units| == 2 && i + 1 < |Assembly.Parse(env).code|
      && Assembly.Parse(env).code[i] == p.units[0] && Assembly.Parse(env).code[i + 1] == p.units[1]
  {
    hide Assembly.Parse, Assembly.AfterPassTwo, Build, Applies, Clip, ToText, RegisterName, Hi20, Lo12, DataOffset;
    Provenance.ParseIsSourced(env);
    var two := Assembly.AfterPassTwo(env);
    var p := AddressPair(env, t, InI1(name), Peek(env, t, 1).kind, Peek(env, t, 3).value);
    assert |p.units| == 2 && p.units[0].1 && p.units[1].1;
    assert two.code[i..i + 2] == p.units;
    assert two.code[i..i + 2][0] == two.code[i] && two.code[i..i + 2][1] == two.code[i + 1];
  }

  /** Instruction `i` and the next one, executed, lead to the data label exactly when the distance is covered. */
  ghost predicate PairLeadsTo(env: Env, m: Mem, i: nat, target: string)
    requires Loads(env, m) && i + 1 < |Code(env)|
  {
    var symbols := Assembly.Parse(env).symbols;
    && target in symbols && symbols[target].isData
    && var symbol := (env.dataStart + symbols[target].address) % TWO64;
       ((4 * i + UpperPart(Code(env)[i]) + ImmGenerator(Code(env)[i + 1])) % TWO64 == symbol
        <==> InPairRange(Int64(symbol) - 4 * i))
  }

  lemma HeadIsPair(env: Env, i: nat) returns (t: State, syntax: SyntaxType, name: I1Name)
    requires Accepted(env) && i < |Assembly.Parse(env).code| && HeadsPair(env, i)
    ensures Provenance.BlockAt(env, Assembly.AfterPassTwo(env), i, t, syntax, 0)
    ensures t.pos == Assembly.Parse(env).origins[i]
    ensures ReadsPair(env, t, syntax, env.tokens[t.pos].kind.op, name)
  {
    hide Assembly.Parse, Assembly.AfterPassTwo, Provenance.BlockAt, ReadsPair, Yields;
    Provenance.ParseIsSourced(env);
    var s, two := Assembly.Parse(env), Assembly.AfterPassTwo(env);
    assert Provenance.HasBlock(env, two, i);
    var j: nat;
    t, syntax, j :| Provenance.BlockAt(env, two, i, t, syntax, j);
    BlockYields(env, two, i, t, syntax, j);
    var op := env.tokens[s.origins[i]].kind.op;
    SameMnemonic(env, i);
    OnlyPairsHavePairHeads(env, t, syntax, op, j, two.code[i]);
    name :| ReadsPair(env, t, syntax, op, name);
  }

  /**
   In a loaded program, every `la` and every load from a data label addresses it: the part that its `auipc`
   adds to its own address, and the immediate of the instruction after it, lead to the section base plus the
   label's address exactly when the distance is below 2^31 - 2^11 and at least -2^31 - 2^11.
   */
  lemma LoadedPairReaches(env: Env, m: Mem, i: nat)
    requires Loads(env, m) && i < |Code(env)| && HeadsPair(env, i)
    ensures i + 1 < |Code(env)| && Fetches(env, m, i) && Fetches(env, m, i + 1)
    ensures PairLeadsTo(env, m, i, TokenAt(env.tokens, Assembly.Parse(env).origins[i] + 3).value)
  {
    hide Assembly.Parse, Assembly.AfterPassTwo, Generate, Code, Fetches, Provenance.BlockAt, ReadsPair, PairLeadsTo, AddressPair;
    var t, syntax, name := HeadIsPair(env, i);
    PairIsThere(env, i, t, syntax, name);
    PairReaches(env, m, i, t, syntax, name);
  }

  lemma PairReaches(env: Env, m: Mem, i: nat, t: State, syntax: SyntaxType, name: I1Name)
    requires Loads(env, m) && i + 1 < |Code(env)|
    requires Provenance.BlockAt(env, Assembly.AfterPassTwo(env), i, t, syntax, 0)
    requires ReadsPair(env, t, syntax, env.tokens[t.pos].kind.op, name)
    requires var p := AddressPair(env, t, InI1(name), Peek(env, t, 1).kind, Peek(env, t, 3).value);
      && p.Parsed? && |p.units| == 2
      && Assembly.Parse(env).code[i] == p.units[0] && Assembly.Parse(env).code[i + 1] == p.units[1]
    ensures Fetches(env, m, i) && Fetches(env, m, i + 1)
    ensures PairLeadsTo(env, m, i, Peek(env, t, 3).value)
  {
    hide Assembly.Parse, Assembly.AfterPassTwo, Generate, Code, UpperPart, ImmGenerator, AddressPair, InPairRange, Build, Applies;
    Provenance.ParseIsSourced(env);
    var target := Peek(env, t, 3).value;
    AddressPairReaches(env, t, name, Peek(env, t, 1).kind, target);
    Fetched(env, m, i);
    Fetched(env, m, i + 1);
    FourMultiple(i);
  }

  /*
   * Constants in loaded programs.
   */

  /** Instruction `i` is the first one of an `li` line. */
  ghost predicate HeadsConstant(env: Env, i: nat)
    requires Accepted(env)
  {
    var origins := Assembly.Parse(env).origins;
    && i < |origins| && origins[i] < |env.tokens| && env.tokens[origins[i]].kind == Opcode(InNone(kli))
    && (i > 0 ==> origins[i - 1] != origins[i])
  }

  /** The number takes two instructions. */
  predicate IsSplit(n: int) { !(-2048 <= n <= 2047) && (n + 0x800) / 0x1000 * 0x1000 != n }

  /** What executing the line's instructions leaves in the register, apart from wrapping around. */
  ghost function ConstantAt(env: Env, i: nat, n: int): int
    requires HasCode(env) && i < |Code(env)| && (IsSplit(n) ==> i + 1 < |Code(env)|)
  {
    if -2048 <= n <= 2047 then ImmGenerator(Code(env)[i])
    else UpperPart(Code(env)[i]) + (if IsSplit(n) then ImmGenerator(Code(env)[i + 1]) else 0)
  }

  lemma ConstantLength(register: Kind, n: int, line: nat)
    ensures var p := LoadImmediate(register, n, line); p.Parsed? ==> |p.units| == (if IsSplit(n) then 2 else 1)
    ensures var p := LoadImmediate(register, n, line); p.Parsed? ==> forall k :: 0 <= k < |p.units| ==> p.units[k].1
  {
    hide WithImm, WithRd, WithRs1;
  }

  lemma ConstantUnits(env: Env, i: nat, t: State, syntax: SyntaxType, j: nat)
    requires Accepted(env) && HeadsConstant(env, i)
    requires Provenance.BlockAt(env, Assembly.AfterPassTwo(env), i, t, syntax, j)
    ensures var register, n := Peek(env, t, 1).kind, NumberIn(Peek(env, t, 3).kind);
      var p, code := LoadImmediate(register, n, Current(env, t).line), Assembly.Parse(env).code;
      && IsRegisterKind(register) && p.Parsed? && |p.units| == (if IsSplit(n) then 2 else 1) && i + |p.units| <= |code|
      && code[i] == p.units[0] && (IsSplit(n) ==> code[i + 1] == p.units[1])
  {
    hide Assembly.Parse, Assembly.AfterPassTwo, FitsLine, LoadImmediate, IsSplit, Syntaxes;
    Provenance.ParseIsSourced(env);
    var two := Assembly.AfterPassTwo(env);
    ConstantsArePseudo(syntax);
    RegistersAreThere(env, t, PseudoShape(InNone(kli)).value, 1);
    var register, n, line := Peek(env, t, 1).kind, NumberIn(Peek(env, t, 3).kind), Current(env, t).line;
    var p := LoadImmediate(register, n, line);
    assert Build(env, t, PSEUDO, InNone(kli)) == p;
    ConstantLength(register, n, line);
    FirstOfLine(two.origins, i, j, |p.units|, t.pos);
    assert two.code[i..i + |p.units|] == p.units;
    assert two.code[i..i + |p.units|][0] == two.code[i];
    assert |p.units| == 2 ==> two.code[i..i + |p.units|][1] == two.code[i + 1];
  }

  /** An instruction whose predecessor comes from another token is the first of its block. */
  lemma FirstOfLine(origins: seq<nat>, i: nat, j: nat, n: nat, p: nat)
    requires j <= i < |origins| && j < n && Provenance.ComeFrom(origins, i - j, n, p)
    requires i > 0 ==> origins[i - 1] != p
    ensures j == 0
  {
  }

  lemma ConstantsArePseudo(syntax: SyntaxType)
    requires syntax in Syntaxes(InNone(kli))
    ensures syntax == PSEUDO
  {
  }

  /** The instructions of the line are there, and leave its number exactly when it is small enough. */
  ghost predicate LeavesConstant(env: Env, i: nat, n: int)
    requires HasCode(env) && i < |Code(env)|
  {
    (IsSplit(n) ==> i + 1 < |Code(env)|) && (ConstantAt(env, i, n) == n <==> n < 0x7FFF_F800)
  }

  /** The units of the line give the number, or miss it by the wrap-around of the upper part. */
  lemma ConstantLoads(env: Env, i: nat, t: State, syntax: SyntaxType, j: nat)
    requires HasCode(env) && i < |Code(env)| && HeadsConstant(env, i)
    requires Provenance.BlockAt(env, Assembly.AfterPassTwo(env), i, t, syntax, j)
    ensures LeavesConstant(env, i, NumberIn(Peek(env, t, 3).kind))
  {
    hide Assembly.Parse, Assembly.AfterPassTwo, Provenance.BlockAt, Generate, UpperPart, ImmGenerator, Code, HeadsConstant,
      WithImm, WithRd, WithRs1;
    ConstantUnits(env, i, t, syntax, j);
    var n, line := NumberIn(Peek(env, t, 3).kind), Current(env, t).line;
    CodeIs(env, i);
    if IsSplit(n) { CodeIs(env, i + 1); }
    if -2048 <= n <= 2047 {
      SmallImmediateLoads(Peek(env, t, 1).kind, n, line);
    } else {
      LoadImmediateLoads(Peek(env, t, 1).kind, n, line);
    }
  }

  /** The number of the line that instruction `i` comes from. */
  ghost function ConstantOf(env: Env, i: nat): int
    requires Accepted(env) && i < |Assembly.Parse(env).origins|
  {
    NumberIn(TokenAt(env.tokens, Assembly.Parse(env).origins[i] + 3).kind)
  }

  lemma CodeLeavesConstant(env: Env, i: nat)
    requires HasCode(env) && i < |Code(env)| && HeadsConstant(env, i)
    ensures LeavesConstant(env, i, ConstantOf(env, i))
  {
    hide Assembly.Parse, Assembly.AfterPassTwo, Provenance.BlockAt, Code, LeavesConstant, Yields;
    Provenance.ParseIsSourced(env);
    var two := Assembly.AfterPassTwo(env);
    assert Provenance.HasBlock(env, two, i);
    var t: State, syntax: SyntaxType, j: nat :| Provenance.BlockAt(env, two, i, t, syntax, j);
    BlockYields(env, two, i, t, syntax, j);
    ConstantLoads(env, i, t, syntax, j);
  }

  /**
   In a loaded program, the instructions of every `li` line leave the number of the line exactly when it is below
   2^31 - 2^11; the numbers from there to the largest `int` are accepted and come out negative.
   */
  lemma LoadedConstantLoads(env: Env, m: Mem, i: nat)
    requires Loads(env, m) && i < |Code(env)| && HeadsConstant(env, i)
    ensures LeavesConstant(env, i, ConstantOf(env, i)) && Fetches(env, m, i)
    ensures IsSplit(ConstantOf(env, i)) ==> Fetches(env, m, i + 1)
  {
    hide Assembly.Parse, Generate, Code, ConstantAt, Fetches, ConstantOf;
    CodeLeavesConstant(env, i);
    Fetched(env, m, i);
    if IsSplit(ConstantOf(env, i)) { Fetched(env, m, i + 1); }
  }
}
