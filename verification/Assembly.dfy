/**
 The whole of `parse` in src/assembler/parser.cpp, and what its second pass and its back-patching keep
 from step to step: the instruction counter, the code and the line map agree; text labels stand for the
 instructions that follow them; and every completed branch or jump holds the distance to its label.
 */
module Assembly {
  import opened Words
  import opened Text
  import opened Instructions
  import opened Units
  import opened Layout
  import opened Tokens
  import opened ParserState
  import opened Operands
  import opened OperandTheorems
  import opened TextPass
  import PassOne
  import DataTheorems

  /** Between the passes the cursor and the instruction counter go back to the start. */
  function Rewound(s: State): State { s.(pos := 0, instructionIndex := 0) }

  /*
   * What the second pass keeps.
   */

  /** The counter numbers the instructions, the line map gives each its line, and the open ones are listed. */
  ghost predicate Counted(s: State) {
    && s.instructionIndex == |s.code| == |s.origins|
    && (forall i :: i in s.lineOf <==> 0 <= i < |s.code|)
    && (forall i :: 0 <= i < |s.code| ==> s.lineOf[i] == s.code[i].0.line)
    && (forall i :: 0 <= i < |s.code| && !s.code[i].1 ==> i in s.backPatch)
    && InRange(s, s.backPatch)
    && (forall k :: 0 <= k < |s.backPatch| ==> !s.code[s.backPatch[k]].1)
  }

  /** Instructions come from mnemonic tokens, in their order and with their lines. */
  predicate Ordered(env: Env, s: State) {
    && |s.origins| == |s.code|
    && (forall i :: 0 <= i < |s.origins| ==>
          && s.origins[i] <= s.pos && s.origins[i] < |env.tokens|
          && env.tokens[s.origins[i]].kind.Opcode?
          && s.code[i].0.line == env.tokens[s.origins[i]].line)
    && (forall i, j :: 0 <= i <= j < |s.origins| ==> s.origins[i] <= s.origins[j])
  }

  predicate Before(s: State) { forall i :: 0 <= i < |s.origins| ==> s.origins[i] < s.pos }

  /** The first `k` instructions come before token `p` and all others after it. */
  predicate Splits(origins: seq<nat>, k: nat, p: nat) {
    && k <= |origins|
    && (forall i :: 0 <= i < k ==> origins[i] < p)
    && (forall i :: k <= i < |origins| ==> origins[i] > p)
  }

  /** A text label is defined by a label token and has the address of the first instruction after it. */
  predicate LabelPlaced(env: Env, s: State, name: string)
    requires name in s.labels
  {
    var (p, k) := s.labels[name];
    && p < s.pos && p < |env.tokens| && env.tokens[p].kind.Label? && env.tokens[p].value == name
    && Splits(s.origins, k, p)
    && name in s.symbols && !s.symbols[name].isData && s.symbols[name].address == 4 * k % TWO32
  }

  predicate Placed(env: Env, s: State) {
    && (forall name <- s.labels :: LabelPlaced(env, s, name))
    && (forall name <- s.symbols :: s.symbols[name].isData || name in s.labels)
  }

  /** Units are as their operand parsers made them. */
  predicate Aimed(s: State) {
    forall i :: 0 <= i < |s.code| ==>
      UnitOk(s.symbols, s.code[i].0, s.code[i].1, i) && Readable(s.code[i].0, s.code[i].1)
  }

  ghost predicate Kept(env: Env, s: State) { Counted(s) && Ordered(env, s) && Placed(env, s) && Aimed(s) }

  /** The data is left alone, and no symbol that is defined changes. */
  predicate Extends(r: State, s: State) {
    && r.dataBuffer == s.dataBuffer && r.dataIndex == s.dataIndex && r.events == s.events && r.marks == s.marks
    && (forall name <- s.symbols :: name in r.symbols && r.symbols[name] == s.symbols[name])
    && (forall name <- r.symbols :: name in s.symbols || !r.symbols[name].isData)
    && s.errors <= r.errors && r.errorCount - s.errorCount == 2 * (|r.errors| - |s.errors|)
  }

  /*
   * One instruction.
   */

  lemma AppendCounted(s: State, u: Unit, resolved: bool)
    requires Counted(s)
    ensures Counted(Append(s, u, resolved))
  {
    var r := Append(s, u, resolved);
    forall i | 0 <= i < |r.code| && !r.code[i].1 ensures i in r.backPatch {
      if i < |s.code| { assert i in s.backPatch; }
    }
  }

  lemma AppendOrdered(env: Env, s: State, u: Unit, resolved: bool)
    requires Ordered(env, s) && Current(env, s).kind.Opcode? && u.line == Current(env, s).line
    ensures Ordered(env, Append(s, u, resolved))
  {
  }

  lemma AppendPlaced(env: Env, s: State, u: Unit, resolved: bool)
    requires Placed(env, s)
    ensures Placed(env, Append(s, u, resolved))
  {
    var r := Append(s, u, resolved);
    forall name | name in r.labels ensures LabelPlaced(env, r, name) {
      assert LabelPlaced(env, s, name);
    }
  }

  lemma AppendAimed(s: State, u: Unit, resolved: bool)
    requires Aimed(s) && UnitOk(s.symbols, u, resolved, |s.code|) && Readable(u, resolved)
    ensures Aimed(Append(s, u, resolved))
  {
    hide UnitOk, Readable;
  }

  lemma AppendKept(env: Env, s: State, u: Unit, resolved: bool)
    requires Kept(env, s) && Current(env, s).kind.Opcode? && u.line == Current(env, s).line
    requires UnitOk(s.symbols, u, resolved, s.instructionIndex) && Readable(u, resolved)
    ensures Kept(env, Append(s, u, resolved)) && Extends(Append(s, u, resolved), s)
  {
    hide UnitOk, Readable, Ordered, Placed, Aimed;
    assert s.instructionIndex == |s.code|;
    AppendCounted(s, u, resolved);
    AppendOrdered(env, s, u, resolved);
    AppendPlaced(env, s, u, resolved);
    AppendAimed(s, u, resolved);
  }

  lemma AppendAllKept(env: Env, s: State, units: seq<(Unit, bool)>)
    requires Kept(env, s) && Current(env, s).kind.Opcode?
    requires UnitsOk(s.symbols, units, Current(env, s).line, s.instructionIndex)
    requires ParsedReads(Parsed(units))
    ensures var r := AppendAll(s, units); Kept(env, r) && Extends(r, s) && r.pos == s.pos
  {
    hide UnitOk, Readable, Kept;
    var (u, resolved) := units[0];
    var r := Append(s, u, resolved);
    assert UnitOk(s.symbols, u, resolved, s.instructionIndex + 0);
    AppendKept(env, s, u, resolved);
    if |units| == 1 {
      assert units[1..] == [];
      assert AppendAll(s, units) == r;
    } else {
      var (v, done) := units[1];
      assert UnitOk(s.symbols, v, done, s.instructionIndex + 1);
      AppendKept(env, r, v, done);
      assert units[1..] == [(v, done)] && [(v, done)][1..] == [];
      assert AppendAll(r, [(v, done)]) == Append(r, v, done);
    }
  }

  /** Moving the cursor forward and reporting errors disturb nothing. */
  lemma MoveKept(env: Env, s: State, r: State)
    requires Kept(env, s) && s.pos <= r.pos
    requires r == s.(pos := r.pos) || exists line: nat :: r == Fail(s, line).(pos := r.pos)
    ensures Kept(env, r) && Extends(r, s) && (Before(s) ==> Before(r))
    ensures s.pos < r.pos ==> Before(r)
  {
    hide UnitOk, Readable, LabelPlaced;
    MovePlaced(env, s, r);
  }

  lemma MovePlaced(env: Env, s: State, r: State)
    requires Placed(env, s) && s.pos <= r.pos
    requires r.labels == s.labels && r.symbols == s.symbols && r.origins == s.origins
    ensures Placed(env, r)
  {
    forall name | name in r.labels ensures LabelPlaced(env, r, name) {
      assert LabelPlaced(env, s, name);
    }
  }

  lemma ExtendsTwice(t: State, r: State, s: State)
    requires Extends(t, r) && Extends(r, s)
    ensures Extends(t, s)
  {
  }

  lemma RefusedKept(env: Env, s: State, line: nat)
    requires Kept(env, s) && !Current(env, s).kind.Eof?
    ensures var r := SkipLine(env, Fail(s, line)); Kept(env, r) && Extends(r, s) && Before(r)
  {
    hide Kept, Extends, Before;
    var r := SkipLine(env, Fail(s, line));
    assert r == Fail(s, line).(pos := r.pos);
    MoveKept(env, s, r);
  }

  lemma InstructionKept(env: Env, s: State, op: Mnemonic)
    requires Kept(env, s) && Current(env, s).kind == Opcode(op)
    ensures var r := Instruction(env, s, op); Kept(env, r) && Extends(r, s) && Before(r)
  {
    hide Kept, Extends, Before, ParseAny, SkipLine, IsMExtension;
    var line := Current(env, s).line;
    RefusedKept(env, s, line);
    ParseAnyOk(env, s, Syntaxes(op), op);
    ParseAnyReads(env, s, Syntaxes(op), op);
    var parsed := ParseAny(env, s, Syntaxes(op), op);
    if parsed.Parsed? {
      AppendedKept(env, s, parsed.units);
    }
  }

  lemma AppendedKept(env: Env, s: State, units: seq<(Unit, bool)>)
    requires Kept(env, s) && Current(env, s).kind.Opcode?
    requires UnitsOk(s.symbols, units, Current(env, s).line, s.instructionIndex)
    requires ParsedReads(Parsed(units))
    ensures var r := SkipLine(env, AppendAll(s, units).(pos := s.pos)); Kept(env, r) && Extends(r, s) && Before(r)
  {
    hide Kept, Extends, Before, UnitsOk, ParsedReads, AppendAll;
    AppendAllKept(env, s, units);
    var v := AppendAll(s, units);
    assert v.(pos := s.pos) == v;
    var r := SkipLine(env, v);
    assert r == v.(pos := r.pos);
    MoveKept(env, v, r);
    ExtendsTwice(r, v, s);
  }

  /*
   * One label.
   */

  lemma DefineTextKept(env: Env, s: State)
    requires Kept(env, s) && Before(s) && Current(env, s).kind.Label?
    ensures var r := Next(env, DefineText(env, s)); Kept(env, r) && Extends(r, s) && Before(r)
  {
    var t := Current(env, s);
    if t.value in s.symbols {
      var r := Next(env, Fail(s, t.line));
      assert r == Fail(s, t.line).(pos := r.pos);
      MoveKept(env, s, r);
    } else {
      NewLabelKept(env, s);
    }
  }

  lemma NewLabelKept(env: Env, s: State)
    requires Kept(env, s) && Before(s) && Current(env, s).kind.Label? && Current(env, s).value !in s.symbols
    ensures var r := Next(env, DefineText(env, s)); Kept(env, r) && Extends(r, s) && Before(r)
  {
    hide UnitOk, Readable, LabelPlaced, Placed, Aimed;
    var r := Next(env, DefineText(env, s));
    assert s.instructionIndex == |s.code|;
    NewLabelPlaced(env, s);
    MoreAimed(s, r);
  }

  lemma NewLabelPlaced(env: Env, s: State)
    requires Placed(env, s) && Before(s) && s.instructionIndex == |s.origins|
    requires Current(env, s).kind.Label? && Current(env, s).value !in s.symbols
    ensures Placed(env, Next(env, DefineText(env, s)))
  {
    var t := Current(env, s);
    var r := Next(env, DefineText(env, s));
    forall name | name in r.labels ensures LabelPlaced(env, r, name) {
      if name != t.value { assert LabelPlaced(env, s, name); }
    }
  }

  lemma MoreAimed(s: State, r: State)
    requires Aimed(s) && r.code == s.code
    requires forall name <- s.symbols :: name in r.symbols && r.symbols[name] == s.symbols[name]
    ensures Aimed(r)
  {
    hide UnitOk, Readable;
    forall i | 0 <= i < |s.code| ensures UnitOk(r.symbols, s.code[i].0, s.code[i].1, i) {
      MoreSymbols(s.symbols, r.symbols, s.code[i].0, s.code[i].1, i);
    }
  }

  /** A definition of a new label changes no unit's standing. */
  lemma MoreSymbols(
    symbols: map<string, SymbolData>, more: map<string, SymbolData>, u: Unit, resolved: bool, index: int)
    requires UnitOk(symbols, u, resolved, index)
    requires forall name <- symbols :: name in more && more[name] == symbols[name]
    ensures UnitOk(more, u, resolved, index)
  {
  }

  /*
   * The second pass.
   */

  lemma TextStepKept(env: Env, s: State)
    requires Kept(env, s) && Before(s) && !Current(env, s).kind.Eof?
    ensures var r := TextStep(env, s); Kept(env, r) && Extends(r, s) && Before(r)
  {
    hide Kept, Extends, Before, Instruction, DefineText, Next, SkipLine, Fail;
    var t := Current(env, s);
    match t.kind
    case Label => DefineTextKept(env, s);
    case Opcode(op) => InstructionKept(env, s, op);
    case _ => RefusedKept(env, s, t.line);
  }

  lemma {:induction false} TextSectionKept(env: Env, s: State)
    requires Kept(env, s) && Before(s)
    ensures var r := TextSection(env, s); Kept(env, r) && Extends(r, s) && Before(r)
    decreases |env.tokens| - s.pos
  {
    hide Kept, Before, TextStep;
    if TextEnds(Current(env, s)) {
    } else {
      TextStepKept(env, s);
      TextSectionKept(env, TextStep(env, s));
      ExtendsTwice(TextSection(env, TextStep(env, s)), TextStep(env, s), s);
    }
  }

  lemma PassTwoStepKept(env: Env, s: State)
    requires Kept(env, s) && Before(s) && !Current(env, s).kind.Eof?
    ensures var r := PassTwoStep(env, s); Kept(env, r) && Extends(r, s) && Before(r)
  {
    hide Kept, Extends, Before, TextSection;
    var t := Current(env, s);
    var next, failed, past :=
      Next(env, s), Next(env, Fail(s, t.line)), s.(pos := SkipTo(env.tokens, s.pos, SkippedData));
    assert next == s.(pos := next.pos) && failed == Fail(s, t.line).(pos := failed.pos);
    MoveKept(env, s, next);
    MoveKept(env, s, failed);
    MoveKept(env, s, past);
    if IsDirective(t, "text") {
      TextSectionKept(env, next);
      ExtendsTwice(TextSection(env, next), next, s);
    } else if t.kind.Label? || t.kind.Opcode? {
      TextSectionKept(env, s);
    }
  }

  lemma {:induction false} PassTwoKept(env: Env, s: State)
    requires Kept(env, s) && Before(s)
    ensures var r := PassTwo(env, s); Kept(env, r) && Extends(r, s)
    decreases |env.tokens| - s.pos
  {
    hide Kept, Before, PassTwoStep;
    if Current(env, s).kind.Eof? {
    } else {
      PassTwoStepKept(env, s);
      PassTwoKept(env, PassTwoStep(env, s));
      ExtendsTwice(PassTwo(env, PassTwoStep(env, s)), PassTwoStep(env, s), s);
    }
  }

  /*
   * Back-patching.
   */

  /** The unit holds the distance to its label, in reach; only a jump may go to a data label. */
  predicate Arrived(symbols: map<string, SymbolData>, u: Unit, index: int) {
    && u.target in symbols && (u.op.InJ? || (u.op.InB? && !symbols[u.target].isData))
    && var offset := Offset(symbols[u.target].address, index);
       InReach(u, offset) && u.imm == Clip(ToText(offset), IMM_CAPACITY)
  }

  predicate PatchedUnit(symbols: map<string, SymbolData>, u: Unit, resolved: bool, index: int) {
    && Readable(u, resolved)
    && if resolved then u.target == "" || Arrived(symbols, u, index) else u.op.InB? || u.op.InJ?
  }

  predicate PatchedUnits(s: State) {
    forall i :: 0 <= i < |s.code| ==> PatchedUnit(s.symbols, s.code[i].0, s.code[i].1, i)
  }

  /** Only immediates and completeness change, and what is reported. */
  predicate OnlyPatched(r: State, s: State) {
    && r == s.(code := r.code, errors := r.errors, errorCount := r.errorCount)
    && s.errors <= r.errors && r.errorCount - s.errorCount == 2 * (|r.errors| - |s.errors|)
    && |r.code| == |s.code|
    && forall i :: 0 <= i < |s.code| ==> r.code[i].0 == s.code[i].0.(imm := r.code[i].0.imm)
  }

  predicate OpenAmong(s: State, indices: seq<nat>) {
    forall i :: 0 <= i < |s.code| && !s.code[i].1 ==> i in indices
  }

  lemma PatchOneUnits(s: State, index: nat)
    requires index < |s.code| && PatchedUnits(s)
    ensures var r := PatchOne(s, index);
      && OnlyPatched(r, s)
      && (r.errors == s.errors ==> PatchedUnits(r) && r.code[index].1 && r.code == s.code[index := r.code[index]])
  {
    hide Readable, Clip, ToText, Offset;
    var r := PatchOne(s, index);
    var u := s.code[index].0;
    if r.errors == s.errors {
      var offset := Offset(s.symbols[u.target].address, index);
      PatchReads(u, s.code[index].1, offset);
    }
  }

  /** An offset in reach is an immediate that the code generator reads. */
  lemma PatchReads(u: Unit, resolved: bool, offset: int)
    requires Readable(u, resolved) && InReach(u, offset)
    ensures Readable(WithImm(u, offset), true)
  {
    hide RegisterReads, Clip, ToText;
    NumberReads(offset);
  }

  lemma {:induction false} PatchAllUnits(s: State, indices: seq<nat>)
    requires InRange(s, indices) && PatchedUnits(s) && OpenAmong(s, indices)
    ensures var r := PatchAll(s, indices);
      OnlyPatched(r, s) && (r.errors == s.errors ==> PatchedUnits(r) && OpenAmong(r, []))
    decreases |indices|
  {
    hide PatchedUnits, PatchOne;
    if indices == [] {
    } else {
      var r := PatchOne(s, indices[0]);
      PatchOneUnits(s, indices[0]);
      if r.errors == s.errors {
        assert OpenAmong(r, indices[1..]);
        PatchAllUnits(r, indices[1..]);
      } else {
        PatchAllFrame(r, indices[1..]);
      }
      PatchedTwice(PatchAll(r, indices[1..]), r, s);
    }
  }

  lemma PatchedTwice(t: State, r: State, s: State)
    requires OnlyPatched(t, r) && OnlyPatched(r, s)
    ensures OnlyPatched(t, s)
  {
  }

  lemma {:induction false} PatchAllFrame(s: State, indices: seq<nat>)
    requires InRange(s, indices)
    ensures OnlyPatched(PatchAll(s, indices), s)
    decreases |indices|
  {
    if indices == [] {
    } else {
      PatchOneFrame(s, indices[0]);
      PatchAllFrame(PatchOne(s, indices[0]), indices[1..]);
      PatchedTwice(PatchAll(s, indices), PatchOne(s, indices[0]), s);
    }
  }

  lemma PatchOneFrame(s: State, index: nat)
    requires index < |s.code|
    ensures OnlyPatched(PatchOne(s, index), s)
  {
    hide Clip, ToText, Offset;
  }

  /*
   * Both passes and the back-patching.
   */

  lemma RewoundKept(env: Env, s: State)
    requires DataTheorems.Collected(s)
    ensures Kept(env, Rewound(s)) && Before(Rewound(s))
  {
    forall name | name in s.symbols ensures s.symbols[name].isData {
      assert DataTheorems.MarkPlaced(s, name);
    }
  }

  function AfterPassOne(env: Env): State
    requires PassOne.NothingStuck(env.tokens)
  {
    PassOne.Run(env, START)
  }

  function AfterPassTwo(env: Env): State
    requires PassOne.NothingStuck(env.tokens)
  {
    PassTwo(env, Rewound(AfterPassOne(env)))
  }

  lemma PassesKept(env: Env)
    requires PassOne.NothingStuck(env.tokens)
    ensures DataTheorems.Collected(AfterPassOne(env))
    ensures Kept(env, AfterPassTwo(env)) && Extends(AfterPassTwo(env), Rewound(AfterPassOne(env)))
  {
    DataTheorems.RunCollected(env, START);
    RewoundKept(env, AfterPassOne(env));
    PassTwoKept(env, Rewound(AfterPassOne(env)));
  }

  /** `parse`, for the token lists on which its first pass ends. */
  function Parse(env: Env): State
    requires PassOne.NothingStuck(env.tokens)
  {
    PassesKept(env);
    PatchAll(AfterPassTwo(env), AfterPassTwo(env).backPatch)
  }

  /** Every data label is where the data counter stood when it had been aligned for. */
  predicate DataLabelsPlaced(s: State) {
    forall name <- s.symbols :: s.symbols[name].isData ==> name in s.marks && DataTheorems.MarkPlaced(s, name)
  }

  /** Everything a program without errors is promised. */
  ghost predicate WellAssembled(env: Env, s: State) {
    && (forall i :: i in s.lineOf <==> 0 <= i < |s.code|)
    && (forall i :: 0 <= i < |s.code| ==> s.lineOf[i] == s.code[i].0.line)
    && Ordered(env, s) && Placed(env, s)
    && PatchedUnits(s) && OpenAmong(s, [])
    && DataLabelsPlaced(s)
    && s.dataBuffer == Items(s.events) && s.dataIndex == ParserIndex(s.events)
  }

  lemma PatchedStaysOrdered(env: Env, r: State, s: State)
    requires OnlyPatched(r, s) && Ordered(env, s) && Placed(env, s)
    ensures Ordered(env, r) && Placed(env, r)
  {
    forall name | name in r.labels ensures LabelPlaced(env, r, name) {
      assert LabelPlaced(env, s, name);
    }
  }

  lemma DataLabelsStay(r: State, s: State)
    requires DataTheorems.MarksPlaced(s) && r.events == s.events && r.marks == s.marks
    requires forall name <- s.symbols :: name in r.symbols && r.symbols[name] == s.symbols[name]
    requires forall name <- r.symbols :: name in s.symbols || !r.symbols[name].isData
    ensures DataLabelsPlaced(r)
  {
    forall name | name in r.symbols && r.symbols[name].isData
      ensures name in r.marks && DataTheorems.MarkPlaced(r, name)
    {
      assert DataTheorems.MarkPlaced(s, name);
    }
  }

  lemma AimedIsPatched(s: State)
    requires Aimed(s)
    ensures PatchedUnits(s)
  {
    hide Readable, Clip, ToText, Offset;
  }

  /** Each error is counted twice, and a program without errors is well assembled. */
  lemma ParseIsWellAssembled(env: Env)
    requires PassOne.NothingStuck(env.tokens)
    ensures Parse(env).errorCount == 2 * |Parse(env).errors|
    ensures Parse(env).errorCount == 0 ==> WellAssembled(env, Parse(env))
  {
    hide PatchedUnits, Aimed, Placed, Ordered, DataTheorems.MarksPlaced, DataLabelsPlaced, AfterPassOne, AfterPassTwo;
    PassesKept(env);
    var one, two, r := AfterPassOne(env), AfterPassTwo(env), Parse(env);
    AimedIsPatched(two);
    PatchAllUnits(two, two.backPatch);
    if r.errorCount == 0 {
      PatchedStaysOrdered(env, r, two);
      DataLabelsStay(r, one);
    }
  }

  /** What moved the data counter is what the first pass says, and its errors are among the errors. */
  lemma ParseKeepsEvents(env: Env)
    requires PassOne.NothingStuck(env.tokens)
    ensures Parse(env).events == AfterPassOne(env).events
    ensures AfterPassOne(env).errors <= Parse(env).errors
  {
    hide Ordered, Placed, Aimed, DataTheorems.Collected, AfterPassOne, AfterPassTwo;
    PassesKept(env);
    PatchAllFrame(AfterPassTwo(env), AfterPassTwo(env).backPatch);
  }

  /** Back-patching touches only the units it is given. */
  lemma {:induction false} PatchAllElsewhere(s: State, indices: seq<nat>, i: nat)
    requires InRange(s, indices) && i < |s.code| && i !in indices
    ensures i < |PatchAll(s, indices).code| && PatchAll(s, indices).code[i] == s.code[i]
    decreases |indices|
  {
    if indices == [] {
    } else {
      PatchOneFrame(s, indices[0]);
      PatchAllElsewhere(PatchOne(s, indices[0]), indices[1..], i);
    }
  }

  /** Back-patching without errors leaves every unit that it is given holding the distance to its label. */
  lemma {:induction false} PatchAllArrives(s: State, indices: seq<nat>, i: nat)
    requires InRange(s, indices) && i < |s.code|
    requires i in indices || Arrived(s.symbols, s.code[i].0, i)
    requires PatchAll(s, indices).errors == s.errors
    ensures var r := PatchAll(s, indices); i < |r.code| && Arrived(s.symbols, r.code[i].0, i)
    decreases |indices|
  {
    hide Arrived, PatchOne;
    if indices == [] {
    } else {
      var r := PatchOne(s, indices[0]);
      PatchOneFrame(s, indices[0]);
      PatchAllFrame(r, indices[1..]);
      assert s.errors <= r.errors <= PatchAll(r, indices[1..]).errors;
      if i == indices[0] || Arrived(s.symbols, s.code[i].0, i) { PatchOneArrives(s, indices[0], i); }
      PatchAllArrives(r, indices[1..], i);
    }
  }

  lemma PatchedArrives(s: State, index: nat)
    requires index < |s.code| && PatchOne(s, index).errors == s.errors
    ensures Arrived(s.symbols, PatchOne(s, index).code[index].0, index)
  {
    hide Clip, ToText, Offset;
  }

  lemma OthersAreLeft(s: State, index: nat, i: nat)
    requires index < |s.code| && i < |s.code| && i != index
    ensures PatchOne(s, index).code[i] == s.code[i]
  {
    hide Clip, ToText, Offset;
  }

  lemma PatchOneArrives(s: State, index: nat, i: nat)
    requires index < |s.code| && i < |s.code| && PatchOne(s, index).errors == s.errors
    requires i == index || Arrived(s.symbols, s.code[i].0, i)
    ensures Arrived(s.symbols, PatchOne(s, index).code[i].0, i)
  {
    hide Arrived, PatchOne;
    if i == index { PatchedArrives(s, index); } else { OthersAreLeft(s, index, i); }
  }
}
