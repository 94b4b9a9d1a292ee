/**
 What an accepted program's loaded words are, in terms of its source: block by block, they decode to what
 the lines of the text sections mean.
 */
module SourceToCode {
  import opened Text
  import opened Words
  import opened Instructions
  import opened Units
  import opened Encoder
  import opened Tokens
  import opened ParserState
  import opened Operands
  import opened OperandTheorems
  import opened LineRoundTrip
  import opened LineMeaning
  import opened MainMemory
  import opened Decoder
  import opened ImmGen
  import opened EndToEnd
  import Assembly
  import Coverage
  import DataTheorems
  import PassOne
  import Provenance
  import TextPass

  /** Looking at the token list from position `p`. */
  function StateAt(p: nat): State { START.(pos := p) }

  predicate IsMnemonic(env: Env, p: nat) { p < |env.tokens| && env.tokens[p].kind.Opcode? }

  /** What the line of the mnemonic at `p` means, read by this syntax, if its first instruction has index `b`. */
  ghost function LineMeaningAt(env: Env, b: nat, p: nat, syntax: SyntaxType): seq<Sense>
    requires Accepted(env) && IsMnemonic(env, p)
  {
    Meaning(env, Assembly.Parse(env).symbols, b, StateAt(p), syntax, env.tokens[p].kind.op)
  }

  /** The line fits the syntax, and the instructions from `b` on are those of the line, all of them. */
  ghost predicate IsBlock(env: Env, b: nat, p: nat, syntax: SyntaxType)
    requires Accepted(env)
  {
    && IsMnemonic(env, p) && Applies(env, StateAt(p), syntax, env.tokens[p].kind.op)
    && Provenance.ComeFrom(Assembly.Parse(env).origins, b, |LineMeaningAt(env, b, p, syntax)|, p)
  }

  /** The units from `b` on spell these instructions. */
  predicate CodeSpells(code: seq<(Unit, bool)>, b: nat, xs: seq<Sense>) {
    b + |xs| <= |code| && forall i :: b <= i < b + |xs| ==> Spells(code[i].0, xs[i - b])
  }

  /** The words from `b` on mean these instructions. */
  predicate WordsMean(words: seq<bv32>, b: nat, xs: seq<Sense>) {
    b + |xs| <= |words| && forall i :: b <= i < b + |xs| ==> Means(words[i], xs[i - b])
  }

  ghost predicate BlockSpells(env: Env, b: nat, p: nat, syntax: SyntaxType)
    requires Accepted(env)
  {
    IsBlock(env, b, p, syntax) && CodeSpells(Assembly.Parse(env).code, b, LineMeaningAt(env, b, p, syntax))
  }

  ghost predicate BlockStands(env: Env, b: nat, p: nat, syntax: SyntaxType)
    requires HasCode(env)
  {
    IsBlock(env, b, p, syntax) && WordsMean(Code(env), b, LineMeaningAt(env, b, p, syntax))
  }

  /** Instruction `i` is one of the block. */
  ghost predicate Within(env: Env, i: nat, b: nat, p: nat, syntax: SyntaxType)
    requires Accepted(env) && IsMnemonic(env, p)
  {
    b <= i < b + |LineMeaningAt(env, b, p, syntax)|
  }

  lemma SameMeaning(env: Env, symbols: map<string, SymbolData>, k: nat, t: State, syntax: SyntaxType, op: Mnemonic)
    ensures Meaning(env, symbols, k, StateAt(t.pos), syntax, op) == Meaning(env, symbols, k, t, syntax, op)
    ensures Applies(env, t, syntax, op) == Applies(env, StateAt(t.pos), syntax, op)
  {
    hide Syntaxes, Shape, FitsLine, PairMeaning, LoadMeaning;
    assert Peek(env, t, 1) == Peek(env, StateAt(t.pos), 1) && Peek(env, t, 3) == Peek(env, StateAt(t.pos), 3);
    assert Peek(env, t, 5) == Peek(env, StateAt(t.pos), 5) && Peek(env, t, 7) == Peek(env, StateAt(t.pos), 7);
    assert Peek(env, t, 9) == Peek(env, StateAt(t.pos), 9);
    if Shape(syntax, op).Some? { SameFit(env, t, StateAt(t.pos), Shape(syntax, op).value); }
  }

  lemma BlockYields(env: Env, s: State, i: nat, t: State, syntax: SyntaxType, j: nat)
    requires Provenance.BlockAt(env, s, i, t, syntax, j)
    ensures i < |s.code| && i < |s.origins| && t.pos == s.origins[i] < |env.tokens| && env.tokens[t.pos].kind.Opcode?
    ensures Yields(env, t, syntax, env.tokens[t.pos].kind.op, j, s.code[i])
  {
    hide Applies, Build;
    var p := Build(env, t, syntax, env.tokens[t.pos].kind.op);
    assert s.code[i] == s.code[i - j..i - j + |p.units|][j];
  }

  predicate IsFence(op: Mnemonic) { op == InNone(kfence) || op == InNone(kfence_i) }

  predicate KeepsMnemonic(p: Parsed, op: Mnemonic) {
    p.Parsed? ==> forall j :: 0 <= j < |p.units| ==> p.units[j].0.op == op
  }

  predicate Untargeted(p: Parsed) {
    p.Parsed? ==> forall j :: 0 <= j < |p.units| ==> p.units[j].0.target == ""
  }

  lemma LabelsKeepMnemonic(env: Env, t: State, syntax: SyntaxType, op: Mnemonic)
    requires syntax == O_GPR_C_GPR_C_IL || syntax == O_GPR_C_IL || syntax == O_GPR_C_GPR_C_DL
    ensures KeepsMnemonic(Build(env, t, syntax, op), op)
  {
    hide Clip, ToText, RegisterName, Offset, AddressPair, Pseudo;
  }

  predicate HasImmediate(syntax: SyntaxType) {
    || syntax == O_GPR_C_GPR_C_I || syntax == O_GPR_C_I || syntax == O_GPR_C_I_LP_GPR_RP
    || syntax == O_GPR_C_CSR_C_I || syntax == O_FPR_C_I_LP_GPR_RP
  }

  lemma RegisterImmediatesKeep(env: Env, t: State, syntax: SyntaxType, op: Mnemonic)
    requires syntax == O_GPR_C_GPR_C_I || syntax == O_GPR_C_I || syntax == O_GPR_C_CSR_C_I
    ensures KeepsMnemonic(Build(env, t, syntax, op), op) && Untargeted(Build(env, t, syntax, op))
  {
    hide Clip, ToText, RegisterName;
  }

  lemma MemoryImmediatesKeep(env: Env, t: State, syntax: SyntaxType, op: Mnemonic)
    requires syntax == O_GPR_C_I_LP_GPR_RP || syntax == O_FPR_C_I_LP_GPR_RP
    ensures KeepsMnemonic(Build(env, t, syntax, op), op) && Untargeted(Build(env, t, syntax, op))
  {
    hide Clip, ToText, RegisterName;
  }

  lemma ImmediatesKeepMnemonic(env: Env, t: State, syntax: SyntaxType, op: Mnemonic)
    requires HasImmediate(syntax)
    ensures KeepsMnemonic(Build(env, t, syntax, op), op) && Untargeted(Build(env, t, syntax, op))
  {
    hide Build, KeepsMnemonic, Untargeted;
    if syntax == O_GPR_C_I_LP_GPR_RP || syntax == O_FPR_C_I_LP_GPR_RP {
      MemoryImmediatesKeep(env, t, syntax, op);
    } else {
      RegisterImmediatesKeep(env, t, syntax, op);
    }
  }

  lemma RegistersKeepMnemonic(env: Env, t: State, syntax: SyntaxType, op: Mnemonic)
    requires !HasImmediate(syntax)
    requires syntax !in [O_GPR_C_GPR_C_IL, O_GPR_C_IL, O_GPR_C_GPR_C_DL, O_GPR_C_DL, PSEUDO]
    ensures KeepsMnemonic(Build(env, t, syntax, op), op) && Untargeted(Build(env, t, syntax, op))
  {
    hide Clip, ToText, RegisterName, Offset, AddressPair, Pseudo, JumpTo, Immediate;
  }

  /** Every syntax but two keeps the mnemonic of the line. */
  lemma OthersKeepMnemonic(env: Env, t: State, syntax: SyntaxType, op: Mnemonic, j: nat, unit: (Unit, bool))
    requires Yields(env, t, syntax, op, j, unit) && unit.0.op != op
    ensures syntax == PSEUDO || syntax == O_GPR_C_DL
  {
    hide Applies, Build;
    if HasImmediate(syntax) {
      ImmediatesKeepMnemonic(env, t, syntax, op);
    } else if syntax in [O_GPR_C_GPR_C_IL, O_GPR_C_IL, O_GPR_C_GPR_C_DL] {
      LabelsKeepMnemonic(env, t, syntax, op);
    } else if syntax != PSEUDO && syntax != O_GPR_C_DL {
      RegistersKeepMnemonic(env, t, syntax, op);
    }
  }

  lemma PairsHaveFormats(env: Env, t: State, syntax: SyntaxType, op: Mnemonic, j: nat, unit: (Unit, bool))
    requires Yields(env, t, syntax, op, j, unit) && (syntax == PSEUDO || syntax == O_GPR_C_DL)
    ensures FormatOf(unit.0.op).Some? && !IsFence(op)
  {
    hide FitsLine, Syntaxes, Build, Texts, Bare, UsesImm, Meaning;
    NotFences(syntax, op);
    LineSpells(env, t, t.symbols, syntax, op);
    assert Spells(unit.0, Meaning(env, t.symbols, t.instructionIndex, t, syntax, op)[j]);
  }

  lemma NotFences(syntax: SyntaxType, op: Mnemonic)
    requires syntax in Syntaxes(op)
    ensures FormatOf(op).None? ==> IsFence(op) || syntax == PSEUDO
    ensures syntax == PSEUDO || syntax == O_GPR_C_DL ==> !IsFence(op)
    ensures syntax == O_GPR_C_DL ==> op.InI1?
  {
  }

  /** Only the fences yield a unit that has no format. */
  lemma FormatsOfUnits(env: Env, t: State, syntax: SyntaxType, op: Mnemonic, j: nat, unit: (Unit, bool))
    requires Yields(env, t, syntax, op, j, unit)
    ensures FormatOf(unit.0.op).None? <==> IsFence(op)
    ensures FormatOf(unit.0.op).Some? ==> FormatOf(op).Some? || syntax == PSEUDO
  {
    hide Build, FitsLine, Syntaxes;
    NotFences(syntax, op);
    if syntax == PSEUDO || syntax == O_GPR_C_DL {
      PairsHaveFormats(env, t, syntax, op, j, unit);
    } else if unit.0.op != op {
      OthersKeepMnemonic(env, t, syntax, op, j, unit);
    }
  }

  /*
   * Blocks.
   */

  lemma SpelledInPlace(code: seq<(Unit, bool)>, final: seq<(Unit, bool)>, b: nat, units: seq<(Unit, bool)>, xs: seq<Sense>)
    requires SpellsAll(units, xs) && b + |units| <= |code| == |final| && code[b..b + |units|] == units
    requires forall i :: 0 <= i < |code| && code[i].1 ==> final[i] == code[i]
    ensures CodeSpells(final, b, xs)
  {
    hide Spells;
    forall i | b <= i < b + |xs| ensures Spells(final[i].0, xs[i - b]) {
      assert code[b..b + |units|][i - b] == code[i];
    }
  }

  /** A block that does not name a label to go to. */
  lemma PlainBlockSpells(env: Env, i: nat, t: State, syntax: SyntaxType, j: nat)
    requires Accepted(env) && i < |Assembly.Parse(env).code| && FormatOf(Assembly.Parse(env).code[i].0.op).Some?
    requires Provenance.BlockAt(env, Assembly.AfterPassTwo(env), i, t, syntax, j) && !NamesTarget(syntax)
    ensures BlockSpells(env, i - j, t.pos, syntax) && Within(env, i, i - j, t.pos, syntax)
  {
    hide Assembly.Parse, Assembly.AfterPassTwo, Build, Applies, CodeSpells, Spells, Meaning;
    Provenance.ParseIsSourced(env);
    var s, two := Assembly.Parse(env), Assembly.AfterPassTwo(env);
    var op := env.tokens[t.pos].kind.op;
    var units := Build(env, t, syntax, op).units;
    BlockYields(env, two, i, t, syntax, j);
    SameMnemonic(env, i);
    FormatsOfUnits(env, t, syntax, op, j, two.code[i]);
    LineSpells(env, t, s.symbols, syntax, op);
    SameMeaning(env, s.symbols, i - j, t, syntax, op);
    SpelledInPlace(two.code, s.code, i - j, units, LineMeaningAt(env, i - j, t.pos, syntax));
  }

  lemma SameMnemonic(env: Env, i: nat)
    requires PassOne.NothingStuck(env.tokens) && i < |Assembly.Parse(env).code|
    ensures i < |Assembly.AfterPassTwo(env).code|
    ensures var u := Assembly.Parse(env).code[i].0; u == Assembly.AfterPassTwo(env).code[i].0.(imm := u.imm)
  {
    hide Assembly.AfterPassTwo, Assembly.Ordered, Assembly.Placed, Assembly.Aimed, DataTheorems.Collected, TextPass.PatchOne;
    Assembly.PassesKept(env);
    Assembly.PatchAllFrame(Assembly.AfterPassTwo(env), Assembly.AfterPassTwo(env).backPatch);
  }

  /** Back-patching gave every open unit the distance to its label. */
  lemma OpenArrives(env: Env, i: nat)
    requires Accepted(env) && i < |Assembly.AfterPassTwo(env).code| && !Assembly.AfterPassTwo(env).code[i].1
    ensures i < |Assembly.Parse(env).code|
    ensures Assembly.Arrived(Assembly.Parse(env).symbols, Assembly.Parse(env).code[i].0, i)
  {
    hide Assembly.AfterPassTwo, Assembly.Ordered, Assembly.Placed, Assembly.Aimed, DataTheorems.Collected, TextPass.PatchOne,
      Assembly.Arrived, Assembly.WellAssembled;
    var two := Assembly.AfterPassTwo(env);
    Assembly.PassesKept(env);
    Assembly.ParseIsWellAssembled(env);
    Assembly.PatchAllFrame(two, two.backPatch);
    assert Assembly.Parse(env).errors == [];
    Assembly.PatchAllArrives(two, two.backPatch, i);
  }

  /** Text labels are an even distance away. */
  lemma TextOffsetIsEven(env: Env, name: string, i: nat)
    requires Accepted(env) && name in Assembly.Parse(env).symbols && !Assembly.Parse(env).symbols[name].isData
    ensures Offset(Assembly.Parse(env).symbols[name].address, i) % 2 == 0
  {
    hide Assembly.Parse, Assembly.Ordered, Assembly.PatchedUnits, Assembly.Splits, Assembly.DataLabelsPlaced, Offset;
    Assembly.ParseIsWellAssembled(env);
    var s := Assembly.Parse(env);
    assert Assembly.LabelPlaced(env, s, name);
    EvenOffset(s.labels[name].1, i);
  }

  lemma EvenOffset(k: nat, i: nat)
    ensures Offset(4 * k % TWO32, i) % 2 == 0
  {
    hide Int64;
    FourMultiple(k);
    FourMultiple(i);
    var x, y := 4 * k % TWO32, 4 * i % TWO32;
    SmallInt64(x - y);
    assert x == 4 * (x / 4) && y == 4 * (y / 4);
    EvenIs(x - y, 2 * (x / 4) - 2 * (y / 4));
  }

  lemma EvenIs(n: int, half: int)
    requires n == 2 * half
    ensures n % 2 == 0
  {
  }

  /** The final unit of a line that names a label to go to. */
  lemma JumpArrives(env: Env, i: nat, t: State, syntax: SyntaxType, j: nat)
    requires Accepted(env) && i < |Assembly.Parse(env).code| && NamesTarget(syntax)
    requires Provenance.BlockAt(env, Assembly.AfterPassTwo(env), i, t, syntax, j)
    ensures var s, op, name := Assembly.Parse(env), env.tokens[t.pos].kind.op, TargetOf(env, t, syntax);
      && j == 0 && Build(env, t, syntax, op).Parsed? && |Build(env, t, syntax, op).units| == 1
      && (if syntax == O_GPR_C_GPR_C_IL then op.InB? else op.InJ?)
      && name in s.symbols && (op.InB? ==> !s.symbols[name].isData)
      && var offset := Offset(s.symbols[name].address, i);
         && s.code[i].0 == WithImm(JumpUnit(env, t, syntax, op), offset)
         && (if op.InB? then -4096 <= offset <= 4095 else -1048576 <= offset <= 1048575)
  {
    hide Assembly.Parse, Assembly.AfterPassTwo, Build, Applies, Clip, ToText, RegisterName, Offset, Peek;
    Provenance.ParseIsSourced(env);
    var two, op := Assembly.AfterPassTwo(env), env.tokens[t.pos].kind.op;
    BlockYields(env, two, i, t, syntax, j);
    JumpLine(env, t, syntax, op);
    SameMnemonic(env, i);
    if !two.code[i].1 { OpenArrives(env, i); }
  }

  lemma JumpBlockSpells(env: Env, i: nat, t: State, syntax: SyntaxType, j: nat)
    requires Accepted(env) && i < |Assembly.Parse(env).code| && NamesTarget(syntax)
    requires Provenance.BlockAt(env, Assembly.AfterPassTwo(env), i, t, syntax, j)
    ensures BlockSpells(env, i - j, t.pos, syntax) && Within(env, i, i - j, t.pos, syntax)
  {
    hide Assembly.Parse, Assembly.AfterPassTwo, Build, Applies, Clip, ToText, RegisterName, Offset, Peek, Spells, Meaning,
      WithImm, JumpUnit;
    JumpArrives(env, i, t, syntax, j);
    Provenance.ParseIsSourced(env);
    var s, op, name := Assembly.Parse(env), env.tokens[t.pos].kind.op, TargetOf(env, t, syntax);
    if op.InB? { TextOffsetIsEven(env, name, i); }
    JumpSpells(env, t, s.symbols, syntax, op);
    SameMeaning(env, s.symbols, i, t, syntax, op);
  }

  lemma BlockAtSpells(env: Env, i: nat, t: State, syntax: SyntaxType, j: nat)
    requires Accepted(env) && i < |Assembly.Parse(env).code| && FormatOf(Assembly.Parse(env).code[i].0.op).Some?
    requires Provenance.BlockAt(env, Assembly.AfterPassTwo(env), i, t, syntax, j)
    ensures j <= i && BlockSpells(env, i - j, t.pos, syntax) && Within(env, i, i - j, t.pos, syntax)
  {
    hide Assembly.Parse, Assembly.AfterPassTwo, Provenance.BlockAt, BlockSpells, Within;
    BlockStart(env, Assembly.AfterPassTwo(env), i, t, syntax, j);
    if NamesTarget(syntax) {
      JumpBlockSpells(env, i, t, syntax, j);
    } else {
      PlainBlockSpells(env, i, t, syntax, j);
    }
  }

  /** Every instruction but a fence belongs to a block that its line spells. */
  lemma UnitHasBlock(env: Env, i: nat) returns (b: nat, p: nat, syntax: SyntaxType)
    requires Accepted(env) && i < |Assembly.Parse(env).code| && FormatOf(Assembly.Parse(env).code[i].0.op).Some?
    ensures BlockSpells(env, b, p, syntax) && Within(env, i, b, p, syntax)
  {
    hide Assembly.Parse, Assembly.AfterPassTwo, Provenance.BlockAt, IsBlock, CodeSpells, LineMeaningAt, FormatOf;
    Provenance.ParseIsSourced(env);
    var two := Assembly.AfterPassTwo(env);
    assert Provenance.HasBlock(env, two, i);
    var t: State, j: nat;
    t, syntax, j :| Provenance.BlockAt(env, two, i, t, syntax, j);
    BlockAtSpells(env, i, t, syntax, j);
    b, p := i - j, t.pos;
  }

  lemma BlockStart(env: Env, s: State, i: nat, t: State, syntax: SyntaxType, j: nat)
    requires Provenance.BlockAt(env, s, i, t, syntax, j)
    ensures j <= i && IsMnemonic(env, t.pos)
  {
    hide Applies, Build;
  }

  /** What the units of a program spell, its words mean. */
  lemma SpelledWordsMean(env: Env, b: nat, xs: seq<Sense>)
    requires HasCode(env) && CodeSpells(Assembly.Parse(env).code, b, xs)
    ensures WordsMean(Code(env), b, xs)
  {
    hide Assembly.Parse, Spells, Means, Generate, Code;
    forall i | b <= i < b + |xs| ensures Means(Code(env)[i], xs[i - b]) {
      CodeIs(env, i);
      SpellsMeans(Assembly.Parse(env).code[i].0, xs[i - b]);
    }
  }

  lemma HasFormat(env: Env, i: nat)
    requires HasCode(env) && i < |Code(env)|
    ensures FormatOf(Assembly.Parse(env).code[i].0.op).Some?
  {
    hide Assembly.Parse, ReadFields, Word;
    CodeIs(env, i);
  }

  /*
   * Programs without code.
   */

  /** Token `p` is a fence. */
  predicate FenceAt(tokens: seq<Token>, p: nat) {
    p < |tokens| && tokens[p].kind.Opcode? && IsFence(tokens[p].kind.op)
  }

  lemma FenceUnit(env: Env, i: nat)
    requires Accepted(env) && i < |Assembly.Parse(env).code|
    ensures i < |Assembly.Parse(env).origins|
    ensures FormatOf(Assembly.Parse(env).code[i].0.op).None? <==> FenceAt(env.tokens, Assembly.Parse(env).origins[i])
  {
    hide Assembly.Parse, Assembly.AfterPassTwo, Provenance.BlockAt, FormatOf, IsFence, Yields;
    Provenance.ParseIsSourced(env);
    SameMnemonic(env, i);
    var two := Assembly.AfterPassTwo(env);
    assert Provenance.HasBlock(env, two, i);
    var t: State, syntax: SyntaxType, j: nat :| Provenance.BlockAt(env, two, i, t, syntax, j);
    BlockYields(env, two, i, t, syntax, j);
    FormatsOfUnits(env, t, syntax, env.tokens[t.pos].kind.op, j, two.code[i]);
  }

  /** An accepted program has machine code exactly when there is no fence in its text sections. */
  lemma HasCodeIffNoFence(env: Env)
    requires Accepted(env) && PassOne.EofTerminated(env.tokens)
    ensures HasCode(env) <==> forall p: nat :: FenceAt(env.tokens, p) ==> !Coverage.InText(env.tokens, p)
  {
    hide Assembly.Parse, GenerateAll, FormatOf, Coverage.InText, IsFence;
    var s := Assembly.Parse(env);
    AcceptedHasCode(env);
    Coverage.TextIsComplete(env);
    forall i | 0 <= i < |s.code|
      ensures i < |s.origins| && (FormatOf(s.code[i].0.op).None? <==> FenceAt(env.tokens, s.origins[i]))
    {
      FenceUnit(env, i);
    }
    OneOrigin(env);
    forall p: nat | FenceAt(env.tokens, p) && Coverage.InText(env.tokens, p)
      ensures exists i :: 0 <= i < |s.code| && FormatOf(s.code[i].0.op).None?
    {
      assert Coverage.Accounted(env, s, p);
      var i :| 0 <= i < |s.origins| && s.origins[i] == p;
    }
    forall i | 0 <= i < |s.code| && FormatOf(s.code[i].0.op).None?
      ensures FenceAt(env.tokens, s.origins[i]) && Coverage.InText(env.tokens, s.origins[i])
    {
    }
  }

  lemma OneOrigin(env: Env)
    requires Accepted(env)
    ensures |Assembly.Parse(env).origins| == |Assembly.Parse(env).code|
  {
    hide Assembly.Parse, Assembly.AfterPassTwo, Provenance.HasBlock;
    Provenance.ParseIsSourced(env);
  }

  /**
   Every loaded word belongs to a block of words that decode to what one source line means: the mnemonic with
   each operand token in its role, for every format and every syntax; for a line that names a label, the
   distance to the label; for a pseudo-instruction, what it stands for. The block has all instructions of the
   line and starts at the first one.
   */
  lemma CodeStandsForSource(env: Env, m: Mem, i: nat)
    requires Loads(env, m) && i < |Code(env)|
    ensures Fetches(env, m, i)
    ensures exists b: nat, p: nat, syntax: SyntaxType :: BlockStands(env, b, p, syntax) && Within(env, i, b, p, syntax)
  {
    hide Assembly.Parse, Generate, Fetches, Code, IsBlock, CodeSpells, WordsMean, LineMeaningAt, IsMnemonic;
    Fetched(env, m, i);
    HasFormat(env, i);
    var b, p, syntax := UnitHasBlock(env, i);
    BlockIsBlock(env, b, p, syntax);
    SpelledWordsMean(env, b, LineMeaningAt(env, b, p, syntax));
    assert BlockStands(env, b, p, syntax);
  }

  lemma BlockIsBlock(env: Env, b: nat, p: nat, syntax: SyntaxType)
    requires Accepted(env) && BlockSpells(env, b, p, syntax)
    ensures IsMnemonic(env, p)
  {
  }

  /*
   * Branches and jumps to text labels.
   */

  lemma PairIsUntargeted(env: Env, t: State, op: Mnemonic, register: Kind, name: string)
    ensures Untargeted(AddressPair(env, t, op, register, name))
  {
    hide Clip, ToText, RegisterName, Hi20, Lo12, DataOffset;
  }

  lemma LoadIsUntargeted(register: Kind, n: int, line: nat)
    ensures Untargeted(LoadImmediate(register, n, line))
  {
    hide Clip, ToText, RegisterName;
  }

  lemma PseudoIsUntargeted(env: Env, t: State, op: Mnemonic)
    ensures Untargeted(Pseudo(env, t, op))
  {
    hide Clip, ToText, RegisterName, AddressPair, LoadImmediate;
    PairIsUntargeted(env, t, InI1(kaddi), Peek(env, t, 1).kind, Peek(env, t, 3).value);
    LoadIsUntargeted(Peek(env, t, 1).kind, NumberIn(Peek(env, t, 3).kind), Current(env, t).line);
  }

  lemma PairLineIsUntargeted(env: Env, t: State, syntax: SyntaxType, op: Mnemonic)
    requires syntax == O_GPR_C_DL || syntax == PSEUDO || syntax == O_GPR_C_GPR_C_DL
    ensures Untargeted(Build(env, t, syntax, op))
  {
    hide Clip, ToText, RegisterName, AddressPair, Pseudo;
    PairIsUntargeted(env, t, op, Peek(env, t, 1).kind, Peek(env, t, 3).value);
    PseudoIsUntargeted(env, t, op);
  }

  /** Only a line that names a label to go to yields a unit that refers to one. */
  lemma TargetIsNamed(env: Env, t: State, syntax: SyntaxType, op: Mnemonic, j: nat, unit: (Unit, bool))
    requires Yields(env, t, syntax, op, j, unit) && unit.0.target != ""
    ensures NamesTarget(syntax)
  {
    hide Applies, Build;
    if HasImmediate(syntax) {
      ImmediatesKeepMnemonic(env, t, syntax, op);
    } else if syntax in [O_GPR_C_DL, PSEUDO, O_GPR_C_GPR_C_DL] {
      PairLineIsUntargeted(env, t, syntax, op);
    } else if !NamesTarget(syntax) {
      RegistersKeepMnemonic(env, t, syntax, op);
    }
  }

  /** Instruction `i` comes from a line with this mnemonic that names this label to go to. */
  ghost predicate GoesTo(env: Env, i: nat, op: Mnemonic, name: string)
    requires Accepted(env)
  {
    var origins := Assembly.Parse(env).origins;
    && i < |origins| && origins[i] < |env.tokens| && env.tokens[origins[i]].kind == Opcode(op)
    && (op.InB? || op.InJ?) && TokenAt(env.tokens, origins[i] + (if op.InB? then 5 else 3)).value == name
  }

  /** The line's registers in their roles, with this distance. */
  function JumpRoles(env: Env, p: nat, op: Mnemonic, distance: int): Roles {
    if op.InB? then
      NONE.(rs1 := TokenAt(env.tokens, p + 1).kind, rs2 := TokenAt(env.tokens, p + 3).kind, imm := distance)
    else NONE.(rd := TokenAt(env.tokens, p + 1).kind, imm := distance)
  }

  lemma TargetIsToken(env: Env, i: nat, t: State, syntax: SyntaxType, j: nat)
    requires Accepted(env) && i < |Assembly.Parse(env).code| && Assembly.Parse(env).code[i].0.target != ""
    requires Provenance.BlockAt(env, Assembly.AfterPassTwo(env), i, t, syntax, j)
    ensures NamesTarget(syntax) && j == 0
    ensures GoesTo(env, i, env.tokens[t.pos].kind.op, Assembly.Parse(env).code[i].0.target)
    ensures var op := env.tokens[t.pos].kind.op;
      var x := Sense(op, JumpRoles(env, t.pos, op, Distance(Assembly.Parse(env).symbols, Assembly.Parse(env).code[i].0.target, i)));
      LineMeaningAt(env, i, t.pos, syntax) == [x]
  {
    hide Assembly.Parse, Assembly.AfterPassTwo, Build, Applies, Clip, ToText, RegisterName, Offset;
    BlockYields(env, Assembly.AfterPassTwo(env), i, t, syntax, j);
    Provenance.ParseIsSourced(env);
    SameMnemonic(env, i);
    TargetIsNamed(env, t, syntax, env.tokens[t.pos].kind.op, j, Assembly.AfterPassTwo(env).code[i]);
    JumpArrives(env, i, t, syntax, j);
  }

  /** What such an instruction's word means: its line's mnemonic and registers, and the distance to the label. */
  ghost predicate MeansJump(env: Env, i: nat, op: Mnemonic)
    requires HasCode(env) && i < |Code(env)|
  {
    var s, name := Assembly.Parse(env), Assembly.Parse(env).code[i].0.target;
    && GoesTo(env, i, op, name)
    && Means(Code(env)[i], Sense(op, JumpRoles(env, s.origins[i], op, Distance(s.symbols, name, i))))
  }

  lemma JumpMeans(env: Env, i: nat, t: State, syntax: SyntaxType, j: nat)
    requires HasCode(env) && i < |Code(env)| && Assembly.Parse(env).code[i].0.target != ""
    requires Provenance.BlockAt(env, Assembly.AfterPassTwo(env), i, t, syntax, j)
    ensures t.pos < |env.tokens| && env.tokens[t.pos].kind.Opcode? && MeansJump(env, i, env.tokens[t.pos].kind.op)
  {
    hide Assembly.Parse, Assembly.AfterPassTwo, Provenance.BlockAt, IsBlock, LineMeaningAt, FormatOf, Code, Spells, Means,
      JumpRoles, NamesTarget, Distance, Yields;
    Provenance.ParseIsSourced(env);
    HasFormat(env, i);
    BlockYields(env, Assembly.AfterPassTwo(env), i, t, syntax, j);
    TargetIsToken(env, i, t, syntax, j);
    BlockAtSpells(env, i, t, syntax, j);
    SpelledWordsMean(env, i, LineMeaningAt(env, i, t.pos, syntax));
  }

  lemma GoesThere(env: Env, i: nat) returns (op: Mnemonic)
    requires HasCode(env) && i < |Code(env)| && Assembly.Parse(env).code[i].0.target != ""
    ensures MeansJump(env, i, op)
  {
    hide Assembly.Parse, Assembly.AfterPassTwo, Provenance.BlockAt, Code, MeansJump;
    Provenance.ParseIsSourced(env);
    assert Provenance.HasBlock(env, Assembly.AfterPassTwo(env), i);
    var t: State, syntax: SyntaxType, j: nat :| Provenance.BlockAt(env, Assembly.AfterPassTwo(env), i, t, syntax, j);
    JumpMeans(env, i, t, syntax, j);
    op := env.tokens[t.pos].kind.op;
  }

  /** The word decodes to the mnemonic and registers of its line, with the distance to the label. */
  ghost predicate DecodesAsJump(env: Env, i: nat, op: Mnemonic)
    requires HasCode(env) && i < |Code(env)|
  {
    var s, name := Assembly.Parse(env), Assembly.Parse(env).code[i].0.target;
    && GoesTo(env, i, op, name) && name in s.symbols
    && Decodes(Code(env)[i], op, JumpRoles(env, s.origins[i], op, s.symbols[name].address - 4 * i))
  }

  lemma GoesToInstruction(env: Env, i: nat, op: Mnemonic, name: string)
    requires Accepted(env) && GoesTo(env, i, op, name)
    ensures i < |Assembly.Parse(env).origins| && (op.InB? || op.InJ?)
  {
    hide Assembly.Parse;
  }

  lemma JumpDecodes(env: Env, i: nat, op: Mnemonic)
    requires HasCode(env) && i < |Code(env)| && 4 * i < TWO32 && MeansJump(env, i, op)
    requires var s, name := Assembly.Parse(env), Assembly.Parse(env).code[i].0.target;
      name in s.labels && Assembly.LabelPlaced(env, s, name)
    ensures DecodesAsJump(env, i, op)
  {
    hide Assembly.Parse, Code, Means, Decodes, JumpRoles, Assembly.LabelPlaced, Distance, GoesTo;
    var s, name := Assembly.Parse(env), Assembly.Parse(env).code[i].0.target;
    DistanceIs(env, s, name, i);
    GoesToInstruction(env, i, op, name);
    EvenDecodes(env, Code(env)[i], op, s.origins[i], s.symbols[name].address - 4 * i);
  }

  /**
   A loaded branch or jump to a text label is the one its line asks for: it decodes to the mnemonic and the
   registers of the line, it refers to the label that the line names, and its immediate is the distance from
   its own address to that label's.
   */
  lemma BranchStandsForLine(env: Env, m: Mem, i: nat)
    requires Loads(env, m) && i < |Code(env)| && RefersToText(env, i)
    ensures Fetches(env, m, i) && Assembly.LabelPlaced(env, Assembly.Parse(env), Assembly.Parse(env).code[i].0.target)
    ensures exists op: Mnemonic :: DecodesAsJump(env, i, op)
  {
    hide Assembly.Parse, Code, MeansJump, DecodesAsJump, ImmGenerator, Assembly.LabelPlaced, Load;
    BranchHoldsDistance(env, m, i);
    Fetched(env, m, i);
    var op := GoesThere(env, i);
    JumpDecodes(env, i, op);
  }

  /** The distance to a text label needs no wrapping around. */
  lemma DistanceIs(env: Env, s: State, name: string, i: nat)
    requires name in s.labels && Assembly.LabelPlaced(env, s, name) && 4 * i < TWO32
    ensures name in s.symbols && Distance(s.symbols, name, i) == s.symbols[name].address - 4 * i
    ensures (s.symbols[name].address - 4 * i) % 2 == 0
  {
    hide Assembly.Splits, Offset;
    FourMultiple(s.labels[name].1);
    OffsetIs(s.symbols[name].address, i);
    EvenDifference(s.symbols[name].address, i);
  }

  /** The word decodes to this mnemonic with these operands. */
  predicate Decodes(w: bv32, op: Mnemonic, r: Roles) {
    FormatOf(op).Some? && Decode(w) == Some(Insn(op, FieldsFor(FormatOf(op).value, r)))
  }

  lemma EvenDecodes(env: Env, w: bv32, op: Mnemonic, p: nat, distance: int)
    requires (op.InB? || op.InJ?) && distance % 2 == 0 && Means(w, Sense(op, JumpRoles(env, p, op, distance)))
    ensures Decodes(w, op, JumpRoles(env, p, op, distance))
  {
    hide Decode, FieldsFor;
  }
}
