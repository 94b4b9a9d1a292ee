/**
 From tokens to fetched instructions: what the parser, the code generator, the loader, the memory and the
 immediate generator promise together.
 */
module EndToEnd {
  import opened Words
  import opened Text
  import opened Instructions
  import opened Units
  import opened Encoder
  import opened Decoder
  import opened ImmGen
  import opened MainMemory
  import opened Layout
  import opened Tokens
  import opened ParserState
  import opened Operands
  import opened OperandTheorems
  import opened WordArithmetic
  import Bytes
  import MemoryTheorems
  import Loader
  import TextPass
  import PassOne
  import DataTheorems
  import LabelCarrying
  import Assembly
  import LineMap
  import Vm

  /** The tokens parse without errors. */
  ghost predicate Accepted(env: Env) {
    PassOne.NothingStuck(env.tokens) && Assembly.Parse(env).errorCount == 0
  }

  /** The tokens parse without errors, and every unit has a word. */
  ghost predicate HasCode(env: Env) { Accepted(env) && GenerateAll(Assembly.Parse(env).code).Ok? }

  /** An accepted program and its machine code, loaded without overlap into memory `m`. */
  ghost predicate Loads(env: Env, m: Mem) {
    && HasCode(env) && Valid(m)
    && Loader.SectionsFit(m, |Assembly.Parse(env).code|, env.dataStart, Assembly.Parse(env).dataBuffer)
  }

  ghost function Code(env: Env): (words: seq<bv32>)
    requires HasCode(env)
    ensures |words| == |Assembly.Parse(env).code|
  {
    GenerateAll(Assembly.Parse(env).code).value
  }

  ghost function Memory(env: Env, m: Mem): (w: Mem)
    requires Loads(env, m)
    ensures Valid(w)
  {
    Loader.LoadAll(m, Code(env), env.dataStart, Assembly.Parse(env).dataBuffer).mem
  }

  /*
   * Code.
   */

  lemma UnitGenerates(env: Env, i: nat)
    requires Accepted(env) && i < |Assembly.Parse(env).code|
    ensures Readable(Assembly.Parse(env).code[i].0, true)
    ensures Generate(Assembly.Parse(env).code[i].0).Ok? <==> FormatOf(Assembly.Parse(env).code[i].0.op).Some?
  {
    hide Readable, Assembly.Parse, Generate, FormatOf;
    Assembly.ParseIsWellAssembled(env);
    var s := Assembly.Parse(env);
    assert Assembly.PatchedUnit(s.symbols, s.code[i].0, s.code[i].1, i) && s.code[i].1;
    ReadableGenerates(s.code[i].0);
  }

  /**
   A program that parses without errors has machine code exactly when every instruction has a format.
   The two fences have none, although their lines parse.
   */
  lemma AcceptedHasCode(env: Env)
    requires Accepted(env)
    ensures GenerateAll(Assembly.Parse(env).code).Ok? <==>
      forall i :: 0 <= i < |Assembly.Parse(env).code| ==> FormatOf(Assembly.Parse(env).code[i].0.op).Some?
  {
    hide Assembly.Parse, Generate, FormatOf, GenerateAll;
    var code := Assembly.Parse(env).code;
    GenerateAllAt(code);
    forall i | 0 <= i < |code| ensures UnitResults(code)[i].Ok? <==> FormatOf(code[i].0.op).Some? {
      UnitGenerates(env, i);
    }
    if forall i :: 0 <= i < |code| ==> FormatOf(code[i].0.op).Some? {
      forall r | r in UnitResults(code) ensures r.Ok? {
        var i :| 0 <= i < |code| && UnitResults(code)[i] == r;
      }
    }
  }

  /** Fetching at four times an index gives the word of the unit at that index. */
  ghost predicate Fetches(env: Env, m: Mem, i: nat)
    requires Loads(env, m) && i < |Code(env)|
  {
    4 * i < TWO32 && Load(Memory(env, m), 4 * i, 4) == Ok(Bytes.Wide32(Code(env)[i]))
  }

  /** The machine code has the word of every unit. */
  lemma CodeIs(env: Env, i: nat)
    requires HasCode(env) && i < |Code(env)|
    ensures Generate(Assembly.Parse(env).code[i].0) == Ok(Code(env)[i])
  {
    hide Assembly.Parse, Generate;
    var code := Assembly.Parse(env).code;
    GenerateAllAt(code);
    assert UnitResults(code)[i] == Ok(Code(env)[i]);
  }

  lemma Fetched(env: Env, m: Mem, i: nat)
    requires Loads(env, m) && i < |Code(env)|
    ensures Generate(Assembly.Parse(env).code[i].0) == Ok(Code(env)[i])
    ensures Fetches(env, m, i)
  {
    hide Assembly.Parse, Generate, Load, Loader.LoadAll;
    CodeIs(env, i);
    Loader.LoadedWord(m, Code(env), env.dataStart, Assembly.Parse(env).dataBuffer, i);
  }

  /*
   * Branches and jumps.
   */

  lemma ReadRegisters(u: Unit, f: Format)
    requires FormatOf(u.op) == Some(f) && Readable(u, true)
    ensures ReadFields(f, u).Ok?
    ensures var x := ReadFields(f, u).value;
      (UsesRd(f) ==> x.rd < 32) && (UsesRs1(f) ==> x.rs1 < 32) && (UsesRs2(f) ==> x.rs2 < 32)
      && (UsesImm(f) ==> Encoder.Number(u.imm) == Ok(x.imm))
  {
    hide ReadFields, RegisterIndex, Encoder.Number, FormatOf;
    ReadableFields(f, u);
  }

  lemma BranchWord(op: Mnemonic, x: Fields, offset: int)
    requires op.InB? && x.rs1 < 32 && x.rs2 < 32 && x.imm == FromInt32(offset)
    requires InSigned(x.imm, 0x1000) && !Odd(x.imm) && Int32(x.imm) == offset
    ensures ImmGenerator(Word(B, op, x)) == offset
  {
    hide ImmWord, PackB, InSigned, Odd, Int32, FromInt32;
    ImmOfPackB(x.imm, x.rs2, x.rs1, Funct3Of(op));
  }

  lemma LinkWord(op: Mnemonic, x: Fields, offset: int)
    requires op.InJ? && x.rd < 32 && x.imm == FromInt32(offset)
    requires InSigned(x.imm, 0x10_0000) && !Odd(x.imm) && Int32(x.imm) == offset
    ensures ImmGenerator(Word(J, op, x)) == offset
  {
    hide ImmWord, PackJ, InSigned, Odd, Int32, FromInt32;
    ImmOfPackJ(x.imm, x.rd);
  }

  /** A branch or jump unit's word gives its offset back, if that is even. */
  lemma JumpWord(u: Unit, offset: int)
    requires Readable(u, true) && (u.op.InB? || u.op.InJ?)
    requires TextPass.InReach(u, offset) && u.imm == Clip(ToText(offset), IMM_CAPACITY)
    ensures Generate(u).Ok?
    ensures offset % 2 == 0 ==> ImmGenerator(Generate(u).value) == offset
  {
    hide ImmGenerator, Readable, ReadFields, Word, Clip, ToText, InSigned, Encoder.Number, Odd, FromInt32, Int32;
    var f := FormatOf(u.op).value;
    ReadableGenerates(u);
    ReadRegisters(u, f);
    NumberReads(offset);
    OffsetWord(u, offset);
    var x := ReadFields(f, u).value;
    if offset % 2 == 0 {
      if u.op.InB? {
        BranchWord(u.op, x, offset);
      } else {
        LinkWord(u.op, x, offset);
      }
    }
  }

  lemma OffsetWord(u: Unit, offset: int)
    requires (u.op.InB? || u.op.InJ?) && TextPass.InReach(u, offset)
    ensures Int32(FromInt32(offset)) == offset
    ensures Odd(FromInt32(offset)) <==> offset % 2 == 1
    ensures u.op.InB? ==> InSigned(FromInt32(offset), 0x1000)
    ensures u.op.InJ? ==> InSigned(FromInt32(offset), 0x10_0000)
  {
    Powers();
    IntFromInt(offset);
    if u.op.InB? {
      FromIntRange(offset, 12, 0x1000);
    } else {
      FromIntRange(offset, 20, 0x10_0000);
    }
  }

  lemma OffsetIs(address: int, index: nat)
    requires 0 <= address < TWO64 / 2 && 4 * index < TWO32
    ensures Offset(address, index) == address - 4 * index
  {
    assert 4 * index % TWO32 == 4 * index;
    SmallInt64(address - 4 * index);
  }

  lemma SmallInt64(n: int)
    requires -TWO63 <= n < TWO63
    ensures Int64(n) == n
  {
  }

  lemma FourMultiple(k: nat)
    ensures 4 * k % TWO32 % 4 == 0 && 4 * k % TWO32 < TWO32
    ensures 4 * k < TWO32 ==> 4 * k % TWO32 == 4 * k
  {
    var q := 4 * k / TWO32;
    assert 4 * k % TWO32 == 4 * (k - 0x4000_0000 * q);
  }

  lemma EvenDifference(address: int, i: nat)
    requires address % 4 == 0
    ensures (address - 4 * i) % 2 == 0
  {
    assert address - 4 * i == 2 * (2 * (address / 4) - 2 * i);
  }

  lemma AdvancedTo(pc: Address, address: int)
    requires 0 <= address < TWO64
    ensures Vm.Advanced(pc, address - pc) == address
  {
  }

  /** The unit refers to a text label. */
  ghost predicate RefersToText(env: Env, i: nat)
    requires Accepted(env) && i < |Assembly.Parse(env).code|
  {
    var u := Assembly.Parse(env).code[i].0;
    u.target != "" && u.target in Assembly.Parse(env).labels
  }

  /** What is fetched at four times an index holds the distance to its label. */
  lemma BranchHoldsDistance(env: Env, m: Mem, i: nat)
    requires Loads(env, m) && i < |Code(env)| && RefersToText(env, i)
    ensures var s := Assembly.Parse(env);
      var name := s.code[i].0.target;
      && Assembly.LabelPlaced(env, s, name)
      && 4 * i + ImmGenerator(Code(env)[i]) == s.symbols[name].address
  {
    hide Assembly.Parse, Load, ImmGenerator, Generate, Readable, Assembly.Ordered, Assembly.DataLabelsPlaced, ToText, Clip;
    Assembly.ParseIsWellAssembled(env);
    var s := Assembly.Parse(env);
    var u := s.code[i].0;
    assert Assembly.LabelPlaced(env, s, u.target);
    assert Assembly.PatchedUnit(s.symbols, u, s.code[i].1, i) && s.code[i].1;
    var address := s.symbols[u.target].address;
    Fetched(env, m, i);
    FourMultiple(s.labels[u.target].1);
    OffsetIs(address, i);
    EvenDifference(address, i);
    JumpWord(u, address - 4 * i);
  }

  /**
   Every branch, and every jump to a text label, reaches its label after loading: fetching at four times
   its index gives its word; its own address plus the immediate of that word is the address of the label;
   and there, if any instruction follows the label token, the first of those is fetched.
   */
  lemma BranchReachesLabel(env: Env, m: Mem, i: nat)
    requires Loads(env, m) && i < |Code(env)| && RefersToText(env, i)
    ensures var s := Assembly.Parse(env);
      var name := s.code[i].0.target;
      var k := s.labels[name].1;
      && Assembly.LabelPlaced(env, s, name)
      && Fetches(env, m, i)
      && 4 * i + ImmGenerator(Code(env)[i]) == s.symbols[name].address
      && (k < |Code(env)| ==> Vm.Advanced(4 * i, ImmGenerator(Code(env)[i])) == 4 * k && Fetches(env, m, k))
  {
    hide Assembly.Parse, ImmGenerator, Generate, Assembly.LabelPlaced, Vm.Advanced, Fetches, Code;
    var s := Assembly.Parse(env);
    var k := s.labels[s.code[i].0.target].1;
    BranchHoldsDistance(env, m, i);
    Fetched(env, m, i);
    if k < |Code(env)| {
      TargetFetched(env, m, i, s.code[i].0.target, k);
    }
  }

  lemma TargetFetched(env: Env, m: Mem, i: nat, name: string, k: nat)
    requires Loads(env, m) && i < |Code(env)| && k < |Code(env)|
    requires var s := Assembly.Parse(env);
      && name in s.labels && s.labels[name].1 == k && Assembly.LabelPlaced(env, s, name)
      && 4 * i + ImmGenerator(Code(env)[i]) == s.symbols[name].address
    ensures Fetches(env, m, i) && Fetches(env, m, k)
    ensures Vm.Advanced(4 * i, ImmGenerator(Code(env)[i])) == 4 * k
  {
    hide Assembly.Parse, ImmGenerator, Generate, Assembly.Splits, Vm.Advanced, Load, Memory, Code;
    Fetched(env, m, i);
    Fetched(env, m, k);
    FourMultiple(k);
    AdvancedTo(4 * i, 4 * k);
  }

  /*
   * Data labels.
   */

  lemma DataLabelsCarryItems(env: Env)
    requires Accepted(env) && LabelCarrying.LabelledDirectivesHaveValues(env.tokens)
    ensures LabelsCarryItems(Assembly.Parse(env).events)
  {
    hide LabelsCarryItems, Assembly.Parse, PassOne.Run, LabelCarrying.LabelledDirectivesHaveValues;
    Assembly.ParseKeepsEvents(env);
    Assembly.ParseIsWellAssembled(env);
    NoEventsYet();
    LabelCarrying.RunCarried(env, START);
  }

  lemma NoEventsYet()
    ensures LabelsCarryItems(START.events)
  {
  }

  /** The event at which a data label was defined. */
  ghost predicate IsDataLabel(env: Env, name: string, j: nat)
    requires Accepted(env)
  {
    var s := Assembly.Parse(env);
    name in s.symbols && s.symbols[name].isData && name in s.marks && s.marks[name] == j
  }

  /** A data label's address in the section is where the layout starts the item that follows the label. */
  lemma DataLabelIsAtItem(env: Env, name: string, j: nat)
    requires Accepted(env) && LabelCarrying.LabelledDirectivesHaveValues(env.tokens) && IsDataLabel(env, name, j)
    ensures var s := Assembly.Parse(env);
      && j + 1 < |s.events| && s.events[j + 1].Emit?
      && var q := |Items(s.events[..j + 1])|;
         && q < |s.dataBuffer| && s.dataBuffer[q] == s.events[j + 1].item
         && s.symbols[name].address == Start(s.dataBuffer, q) % TWO64
  {
    hide Assembly.Parse, LabelsCarryItems, Start, ParserIndex, LabelCarrying.LabelledDirectivesHaveValues;
    DataLabelsCarryItems(env);
    Assembly.ParseIsWellAssembled(env);
    var s := Assembly.Parse(env);
    assert DataTheorems.MarkPlaced(s, name);
    LabelIsAtItem(s.events, j);
  }

  /**
   Every data label reaches its data after loading: the section's base plus the label's address is where
   the item that follows the label is stored, whatever its type, and a number read there at its width is
   the number that was written.
   */
  lemma DataLabelReachesData(env: Env, m: Mem, name: string, j: nat)
    requires Loads(env, m) && LabelCarrying.LabelledDirectivesHaveValues(env.tokens) && IsDataLabel(env, name, j)
    ensures var s := Assembly.Parse(env);
      && j + 1 < |s.events| && s.events[j + 1].Emit?
      && var item, a := s.events[j + 1].item, env.dataStart + s.symbols[name].address;
         && a + |ItemBytes(item)| <= m.size
         && MemoryTheorems.BytesAt(Memory(env, m), a, |ItemBytes(item)|) == ItemBytes(item)
         && (Loader.ScalarOf(item).Some? ==>
               (a < TWO64 && Load(Memory(env, m), a, Loader.ScalarOf(item).value.0) == Ok(Loader.ScalarOf(item).value.1)))
  {
    hide Assembly.Parse, Start, Items, ItemBytes, MemoryTheorems.BytesAt, Load, Loader.ScalarOf, Loader.LoadAll,
      LabelCarrying.LabelledDirectivesHaveValues;
    DataLabelIsAtItem(env, name, j);
    var s := Assembly.Parse(env);
    var q := |Items(s.events[..j + 1])|;
    Loader.LoadedItem(m, Code(env), env.dataStart, s.dataBuffer, q);
    StartIsSmall(s.dataBuffer, q);
  }

  lemma StartIsSmall(items: seq<DataItem>, q: nat)
    requires q < |items| && End(items) <= TWO32
    ensures Start(items, q) % TWO64 == Start(items, q) <= TWO32
  {
    hide Start, End, ItemBytes;
    Loader.ItemsAreApart(items, q, |items|);
    assert items[..|items|] == items;
  }

  /*
   * Jumps to data labels.
   */

  lemma ClearedBits(imm: bv32)
    ensures Masked(imm & 0xFFFF_FFFE, 0x1F_FFFE) == Masked(imm, 0x1F_FFFE)
    ensures (imm & 0xFFFF_FFFE) & 1 == 0
    ensures imm < 0x10_0000 ==> (imm & 0xFFFF_FFFE) < 0x10_0000
    ensures !imm < 0x10_0000 ==> !(imm & 0xFFFF_FFFE) < 0x10_0000
  {
  }

  lemma ClearedFits(imm: bv32)
    requires InSigned(imm, 0x10_0000)
    ensures InSigned(ClearLow(imm), 0x10_0000) && !Odd(ClearLow(imm))
    ensures Masked(ClearLow(imm), 0x1F_FFFE) == Masked(imm, 0x1F_FFFE)
  {
    hide Masked;
    ClearedBits(imm);
  }

  /** A jump's word has no room for the low bit of its offset. */
  lemma ImmOfAnyJ(imm: bv32, rd: bv32)
    requires InSigned(imm, 0x10_0000) && rd < 32
    ensures ImmWord(PackJ(imm, rd, 0x6F)) == ClearLow(imm)
  {
    hide InSigned, Odd, ClearLow, Masked, RawJ, PackJ, SignExtendBits;
    RawJOfPackJ(imm, rd, 0x6F);
    ClearedFits(imm);
    ExtendLow21(ClearLow(imm));
  }

  lemma DataJumpWord(op: Mnemonic, x: Fields, offset: int)
    requires op.InJ? && x.rd < 32 && x.imm == FromInt32(offset) && IsInt32(offset - 1) && IsInt32(offset)
    requires InSigned(x.imm, 0x10_0000)
    ensures ImmGenerator(Word(J, op, x)) == offset - offset % 2
  {
    hide ImmWord, PackJ, InSigned, Odd, ClearLow, Int32, FromInt32;
    ImmOfAnyJ(x.imm, x.rd);
    IntFromInt(offset);
    IntFromInt(offset - 1);
    if offset % 2 == 1 {
      BeforeOdd(offset);
    } else {
      LowBitClear(x.imm);
    }
  }

  lemma LowBitClear(imm: bv32)
    ensures !Odd(imm) ==> ClearLow(imm) == imm
  {
  }

  lemma DataJumpUnit(u: Unit, offset: int)
    requires Readable(u, true) && u.op.InJ?
    requires TextPass.InReach(u, offset) && u.imm == Clip(ToText(offset), IMM_CAPACITY)
    ensures Generate(u).Ok? && ImmGenerator(Generate(u).value) == offset - offset % 2
  {
    hide ImmGenerator, Readable, ReadFields, Word, Clip, ToText, InSigned, Encoder.Number, Odd, FromInt32, Int32;
    ReadableGenerates(u);
    ReadRegisters(u, J);
    NumberReads(offset);
    OffsetWord(u, offset);
    DataJumpWord(u.op, ReadFields(J, u).value, offset);
  }

  /** Unit `i` refers to the data label that event `j` defined. */
  ghost predicate RefersToData(env: Env, i: nat, j: nat)
    requires Accepted(env) && i < |Assembly.Parse(env).code|
  {
    var name := Assembly.Parse(env).code[i].0.target;
    name != "" && IsDataLabel(env, name, j)
  }

  /** Text and data are small enough for 32-bit counters, wherever the data section starts. */
  ghost predicate FitsCounters(env: Env)
    requires Accepted(env)
  {
    4 * |Assembly.Parse(env).code| <= TWO32 && End(Assembly.Parse(env).dataBuffer) <= TWO32
  }

  /**
   A jump to a data label is back-patched with the label's address in the section, not in memory: it goes
   to that address (less one if it is odd), and so to the data exactly when the section's base is 0 and the
   address is even.
   */
  lemma JumpToDataLabel(env: Env, i: nat, j: nat)
    requires HasCode(env) && FitsCounters(env) && LabelCarrying.LabelledDirectivesHaveValues(env.tokens)
    requires i < |Code(env)| && RefersToData(env, i, j)
    ensures var s := Assembly.Parse(env);
      var address := s.symbols[s.code[i].0.target].address;
      && s.code[i].0.op.InJ?
      && 4 * i + ImmGenerator(Code(env)[i]) == address - address % 2
      && (4 * i + ImmGenerator(Code(env)[i]) == env.dataStart + address <==> env.dataStart == 0 && address % 2 == 0)
  {
    hide Assembly.Parse, ImmGenerator, Generate, Readable, Assembly.Ordered, Assembly.Placed, ToText, Clip, Start, End,
      LabelCarrying.LabelledDirectivesHaveValues, LabelsCarryItems;
    Assembly.ParseIsWellAssembled(env);
    var s := Assembly.Parse(env);
    var u := s.code[i].0;
    assert Assembly.PatchedUnit(s.symbols, u, s.code[i].1, i) && s.code[i].1;
    var address := s.symbols[u.target].address;
    DataLabelIsAtItem(env, u.target, j);
    StartIsSmall(s.dataBuffer, |Items(s.events[..j + 1])|);
    CodeIs(env, i);
    OffsetIs(address, i);
    DataJumpUnit(u, address - 4 * i);
    SameParity(address, i);
  }

  /** A loaded program's data is behind its text, so there such a jump always misses its label. */
  lemma LoadedJumpMissesData(env: Env, m: Mem, i: nat, j: nat)
    requires Loads(env, m) && LabelCarrying.LabelledDirectivesHaveValues(env.tokens)
    requires i < |Code(env)| && RefersToData(env, i, j)
    ensures Fetches(env, m, i)
    ensures var s := Assembly.Parse(env);
      var name := s.code[i].0.target;
      && name in s.symbols
      && Vm.Advanced(4 * i, ImmGenerator(Code(env)[i])) < env.dataStart + s.symbols[name].address
  {
    hide Assembly.Parse, ImmGenerator, Generate, LabelCarrying.LabelledDirectivesHaveValues, Code, Load, Vm.Advanced;
    Fetched(env, m, i);
    JumpToDataLabel(env, i, j);
    var s := Assembly.Parse(env);
    var address := s.symbols[s.code[i].0.target].address;
    DataLabelIsAtItem(env, s.code[i].0.target, j);
    StartIsSmall(s.dataBuffer, |Items(s.events[..j + 1])|);
    AdvancedTo(4 * i, address - address % 2);
  }

  lemma SameParity(address: int, i: nat)
    ensures (address - 4 * i) % 2 == address % 2
  {
    assert address - 4 * i == 2 * (address / 2 - 2 * i) + address % 2;
  }

  /*
   * Breakpoints.
   */

  predicate LinesInOrder(tokens: seq<Token>) {
    forall i, j :: 0 <= i <= j < |tokens| ==> tokens[i].line <= tokens[j].line
  }

  /** The lines that the parser's line map gives to instructions 0, 1, ... */
  ghost function SourceLines(env: Env): (lines: seq<nat>)
    requires Accepted(env)
    ensures |lines| == |Assembly.Parse(env).code|
  {
    seq(|Assembly.Parse(env).code|, k requires 0 <= k < |Assembly.Parse(env).code| => Assembly.Parse(env).code[k].0.line)
  }

  /** Instruction `k` comes from a mnemonic token on this line. */
  ghost predicate ComesFrom(env: Env, k: nat, line: nat)
    requires Accepted(env) && k < |Assembly.Parse(env).code|
  {
    var s := Assembly.Parse(env);
    && k < |s.origins| && s.origins[k] < |env.tokens|
    && env.tokens[s.origins[k]].kind.Opcode? && env.tokens[s.origins[k]].line == line
  }

  /** The line map has a line for each instruction, its mnemonic's; and the lines are in order when the tokens are. */
  lemma SourceLinesAreThose(env: Env)
    requires Accepted(env)
    ensures var s := Assembly.Parse(env);
      && (forall k :: k in s.lineOf <==> 0 <= k < |s.code|)
      && (forall k :: 0 <= k < |s.code| ==> s.lineOf[k] == SourceLines(env)[k] && ComesFrom(env, k, SourceLines(env)[k]))
    ensures LinesInOrder(env.tokens) ==> LineMap.Nondecreasing(SourceLines(env))
  {
    hide Assembly.Parse, Assembly.Placed, Assembly.PatchedUnits, Assembly.DataLabelsPlaced, Assembly.OpenAmong;
    Assembly.ParseIsWellAssembled(env);
    var s := Assembly.Parse(env);
    forall k | 0 <= k < |s.code| ensures ComesFrom(env, k, SourceLines(env)[k]) {
      assert s.code[k].0.line == env.tokens[s.origins[k]].line;
    }
    if LinesInOrder(env.tokens) {
      forall i, j | 0 <= i <= j < |SourceLines(env)| ensures SourceLines(env)[i] <= SourceLines(env)[j] {
        assert s.origins[i] <= s.origins[j];
      }
    }
  }

  /**
   A breakpoint asked for at a source line stops at the first instruction whose mnemonic is on that line or
   after it, and is refused exactly when there is none.
   */
  lemma LineBreakpointLands(env: Env, line: nat)
    requires Accepted(env) && LinesInOrder(env.tokens) && line < TWO32 && 4 * |Assembly.Parse(env).code| <= TWO32
    ensures var lines := SourceLines(env);
      match Vm.BreakpointOf(LineMap.MapOf(lines), line, true)
      case None => line == 0 || forall at <- lines :: at < line
      case Some(a) =>
        exists k: nat :: a == 4 * k && k < |lines| && line <= lines[k] && ComesFrom(env, k, lines[k])
          && forall j :: 0 <= j < k ==> lines[j] < line
  {
    hide Assembly.Parse, ComesFrom, SourceLines;
    SourceLinesAreThose(env);
    LineMap.BreakpointLands(SourceLines(env), line);
  }
}
