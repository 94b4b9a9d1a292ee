/**
 The state of the parser of src/assembler/parser.cpp and the small steps everything else is made of.
 */
module ParserState {
  import opened Words
  import opened Units
  import opened Layout
  import opened MainMemory
  import opened Tokens

  /** What the parser reads and never changes. */
  datatype Env = Env(tokens: seq<Token>, dataStart: Address, mExtension: bool)

  datatype SymbolData = SymbolData(address: nat, line: nat, isData: bool)

  /**
   The fields of the parser, and three records that the source does not keep: what moved the data
   counter so far and the position in that record of each data label; for each instruction the
   position of its token; and for each text label the position of its token and how many instructions
   came before it.
   */
  datatype State = State(
    pos: nat,
    instructionIndex: nat,
    errors: seq<nat>,
    errorCount: nat,
    dataBuffer: seq<DataItem>,
    dataIndex: nat,
    symbols: map<string, SymbolData>,
    backPatch: seq<nat>,
    code: seq<(Unit, bool)>,
    lineOf: map<nat, nat>,
    events: seq<Event>,
    marks: map<string, nat>,
    origins: seq<nat>,
    labels: map<string, (nat, nat)>)

  const START := State(0, 0, [], 0, [], 0, map[], [], [], map[], [], map[], [], map[])

  function Current(env: Env, s: State): Token { TokenAt(env.tokens, s.pos) }

  function Peek(env: Env, s: State, n: nat): Token { TokenAt(env.tokens, s.pos + n) }

  /** `nextToken`. */
  function Next(env: Env, s: State): State {
    if s.pos < |env.tokens| then s.(pos := s.pos + 1) else s
  }

  function SkipLine(env: Env, s: State): State {
    s.(pos := LineEnd(env.tokens, s.pos, Current(env, s).line))
  }

  /** Reporting an error counts it twice: once at the report and once where it is recorded. */
  function Fail(s: State, line: nat): State {
    s.(errors := s.errors + [line], errorCount := s.errorCount + 2)
  }

  /** `align`, for a data label. */
  function Align(s: State, a: Alignment): State {
    s.(dataIndex := AlignUp(s.dataIndex, a) % TWO64, events := s.events + [Mark(a)])
  }

  /** Aligning for an item, appending it and moving past it. */
  function EmitItem(s: State, item: DataItem): State {
    s.(
    dataIndex := (AlignUp(s.dataIndex, AlignmentOf(item)) % TWO64 + |ItemBytes(item)|) % TWO64,
    dataBuffer := s.dataBuffer + [item],
    events := s.events + [Emit(item)])
  }

  /** Appending one unit, with its line, under the next instruction number; an open one is put up for back-patching. */
  function Append(s: State, u: Unit, resolved: bool): State {
    s.(
    backPatch := if resolved then s.backPatch else s.backPatch + [s.instructionIndex],
    code := s.code + [(u, resolved)],
    lineOf := s.lineOf[s.instructionIndex := u.line],
    instructionIndex := s.instructionIndex + 1,
    origins := s.origins + [s.pos])
  }
}
