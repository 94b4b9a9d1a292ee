/**
 The text section and the two passes of src/assembler/parser.cpp: `parseTextDirective`, the outer loops
 of `parse`, and the loop that back-patches label references.
 */
module TextPass {
  import opened Words
  import opened Instructions
  import opened Units
  import opened Tokens
  import opened ParserState
  import opened Operands

  function AppendAll(s: State, units: seq<(Unit, bool)>): State
    decreases |units|
  {
    if units == [] then s else AppendAll(Append(s, units[0].0, units[0].1), units[1..])
  }

  /** A mnemonic and its operands; whatever comes of it, the rest of the line is skipped. */
  function Instruction(env: Env, s: State, op: Mnemonic): State {
    var line := Current(env, s).line;
    if IsMExtension(op) && !env.mExtension then SkipLine(env, Fail(s, line))
    else
      match ParseAny(env, s, Syntaxes(op), op)
      case NoMatch => SkipLine(env, Fail(s, line))
      case Refused => SkipLine(env, Fail(s, line))
      case Parsed(units) => SkipLine(env, AppendAll(s, units).(pos := s.pos))
  }

  /** A text label is defined at the next instruction, unless any label has the name. */
  function DefineText(env: Env, s: State): State {
    var t := Current(env, s);
    if t.value in s.symbols then Fail(s, t.line)
    else
      s.(
      symbols := s.symbols[t.value := SymbolData(4 * s.instructionIndex % TWO32, t.line, false)],
      labels := s.labels[t.value := (s.pos, s.instructionIndex)])
  }

  predicate TextEnds(t: Token) { t.kind.Directive? || t.kind.Eof? }

  /** One iteration of the loop over the text section. */
  function TextStep(env: Env, s: State): (r: State)
    requires !Current(env, s).kind.Eof?
    ensures s.pos < r.pos <= |env.tokens|
  {
    var t := Current(env, s);
    match t.kind
    case Label => Next(env, DefineText(env, s))
    case Opcode(op) => Instruction(env, s, op)
    case _ => SkipLine(env, Fail(s, t.line))
  }

  /** `parseTextDirective`. */
  function TextSection(env: Env, s: State): (r: State)
    ensures s.pos <= r.pos && (s.pos <= |env.tokens| ==> r.pos <= |env.tokens|)
    ensures !TextEnds(Current(env, s)) ==> s.pos < r.pos
    decreases |env.tokens| - s.pos
  {
    if TextEnds(Current(env, s)) then s else TextSection(env, TextStep(env, s))
  }

  predicate IsDirective(t: Token, value: string) { t.kind.Directive? && t.value == value }

  /** One iteration of the second pass, which reads the text. */
  function PassTwoStep(env: Env, s: State): (r: State)
    requires !Current(env, s).kind.Eof?
    ensures s.pos < r.pos <= |env.tokens|
  {
    var t := Current(env, s);
    if IsDirective(t, "section") then Next(env, s)
    else if IsDirective(t, "data") || IsDirective(t, "bss") then
      s.(pos := SkipTo(env.tokens, s.pos, SkippedData))
    else if IsDirective(t, "text") then TextSection(env, Next(env, s))
    else if t.kind.Label? || t.kind.Opcode? then TextSection(env, s)
    else Next(env, Fail(s, t.line))
  }

  /** The second pass. */
  function PassTwo(env: Env, s: State): State
    decreases |env.tokens| - s.pos
  {
    if Current(env, s).kind.Eof? then s else PassTwo(env, PassTwoStep(env, s))
  }

  /*
   * Back-patching.
   */

  predicate InReach(u: Unit, offset: int) {
    if u.op.InB? then -4096 <= offset <= 4095 else -1048576 <= offset <= 1048575
  }

  /** One iteration of the loop over the open units. */
  function PatchOne(s: State, index: nat): (r: State)
    requires index < |s.code|
    ensures |r.code| == |s.code|
  {
    var u := s.code[index].0;
    if u.target !in s.symbols || !(u.op.InB? || u.op.InJ?) then Fail(s, u.line)
    else if u.op.InB? && s.symbols[u.target].isData then
      Fail(s, u.line).(code := s.code[index := (u, true)])
    else
      var offset := Offset(s.symbols[u.target].address, index);
      if InReach(u, offset) then s.(code := s.code[index := (WithImm(u, offset), true)])
      else Fail(s, u.line)
  }

  predicate InRange(s: State, indices: seq<nat>) { forall k :: 0 <= k < |indices| ==> indices[k] < |s.code| }

  function PatchAll(s: State, indices: seq<nat>): State
    requires InRange(s, indices)
    decreases |indices|
  {
    if indices == [] then s else PatchAll(PatchOne(s, indices[0]), indices[1..])
  }
}
