/**
 The data section: `parseDataDirective` and `parseBSSDirective` of src/assembler/parser.cpp, as
 functions on the parser's state. Each loop of the source is one recursive function.
 */
module DataPass {
  import opened Words
  import opened Bytes
  import opened Text
  import opened Layout
  import opened Tokens
  import opened ParserState

  datatype DataDirective = DWord | Word | HalfWord | Byte | SingleFloat | DoubleFloat | Zero | String

  function DirectiveOf(value: string): Option<DataDirective> {
    if value == "dword" then Some(DWord)
    else if value == "word" then Some(Word)
    else if value == "halfword" then Some(HalfWord)
    else if value == "byte" then Some(Byte)
    else if value == "float" then Some(SingleFloat)
    else if value == "double" then Some(DoubleFloat)
    else if value == "zero" then Some(Zero)
    else if value == "string" then Some(String)
    else None
  }

  /** The name that a directive is written with. */
  function NameOf(d: DataDirective): string {
    match d
    case DWord => "dword"
    case Word => "word"
    case HalfWord => "halfword"
    case Byte => "byte"
    case SingleFloat => "float"
    case DoubleFloat => "double"
    case Zero => "zero"
    case String => "string"
  }

  /** A word is a directive exactly when it is that directive's name. */
  lemma DirectiveNames(value: string, d: DataDirective)
    ensures DirectiveOf(value) == Some(d) <==> value == NameOf(d)
  {
    assert NameOf(DWord)[0] != NameOf(Word)[0];
  }

  /** Which directives take a number, a float or a string. */
  lemma KindDecides(d: DataDirective, kind: Kind)
    ensures Accepts(d, kind) <==>
      || (kind.Num? && d in {DWord, Word, HalfWord, Byte, Zero})
      || (kind.Float? && d in {SingleFloat, DoubleFloat})
      || (kind.StringLiteral? && d == String)
  {
  }

  /** The words that end a data section, and those that end the text for the first pass. */
  lemma SectionWords(t: Token)
    ensures DataEnds(t) <==> t.kind.Eof? || t.value in {"text", "data", "bss", "section"}
    ensures IsDataWord(t.value) <==> t.value in {"data", "bss", "section"}
  {
  }

  /** The alignment of a label that stands before a directive. */
  function DirectiveAlignment(d: DataDirective): Alignment {
    match d
    case DWord | DoubleFloat => 8
    case Word | SingleFloat => 4
    case HalfWord => 2
    case Byte | Zero | String => 1
  }

  /** The kind of token that gives a directive a value. */
  predicate Accepts(d: DataDirective, kind: Kind) {
    match d
    case DWord | Word | HalfWord | Byte | Zero => kind.Num?
    case SingleFloat | DoubleFloat => kind.Float?
    case String => kind.StringLiteral?
  }

  /** What a backslash and this character stand for; an unknown escape stays as it is. */
  function Replaced(c: bv8): seq<bv8> {
    if c == 110 then [10]
    else if c == 116 then [9]
    else if c == 92 then [92]
    else if c == 34 then [34]
    else [92, c]
  }

  /** The characters of a string literal with its escapes replaced. */
  function Unescape(raw: seq<bv8>): seq<bv8> {
    if raw == [] then []
    else if raw[0] == 92 && |raw| > 1 then Replaced(raw[1]) + Unescape(raw[2..])
    else [raw[0]] + Unescape(raw[1..])
  }

  function Low32(value: bv64): bv32 { (value & 0xFFFF_FFFF) as bv32 }

  function Low16(value: bv64): bv16 { (value & 0xFFFF) as bv16 }

  /** The item for one value. `stoull` takes a negative number modulo 2^64, and the casts keep low bits. */
  function ItemOf(d: DataDirective, kind: Kind): DataItem
    requires Accepts(d, kind)
  {
    match d
    case DWord => U64(FromInt64(kind.n))
    case Word => U32(Low32(FromInt64(kind.n)))
    case HalfWord => U16(Low16(FromInt64(kind.n)))
    case Byte => U8(Low8(FromInt64(kind.n)))
    case SingleFloat => F32(kind.single)
    case DoubleFloat => F64(kind.double)
    case Zero => U8(0)
    case String => Str(Unescape(kind.raw) + [0])
  }

  /** How many items one value emits: `zero` emits as many bytes as it says, modulo 2^64. */
  function Copies(d: DataDirective, kind: Kind): nat
    requires Accepts(d, kind)
  {
    if d.Zero? then kind.n % TWO64 else 1
  }

  function EmitCopies(s: State, item: DataItem, n: nat): State
    decreases n
  {
    if n == 0 then s else EmitCopies(EmitItem(s, item), item, n - 1)
  }

  /** One value of a directive; a `zero` of no bytes is an error. */
  function EmitValue(s: State, d: DataDirective, t: Token): State
    requires Accepts(d, t.kind)
  {
    if Copies(d, t.kind) == 0 then Fail(s, t.line) else EmitCopies(s, ItemOf(d, t.kind), Copies(d, t.kind))
  }

  /** Emitting leaves the cursor alone. */
  lemma {:induction false} EmitCopiesKeepsPos(s: State, item: DataItem, n: nat)
    ensures EmitCopies(s, item, n).pos == s.pos
    decreases n
  {
    if n > 0 { EmitCopiesKeepsPos(EmitItem(s, item), item, n - 1); }
  }

  lemma EmitValueKeepsPos(s: State, d: DataDirective, t: Token)
    requires Accepts(d, t.kind)
    ensures EmitValue(s, d, t).pos == s.pos
  {
    EmitCopiesKeepsPos(s, ItemOf(d, t.kind), Copies(d, t.kind));
  }

  /** The values after a directive, and the commas between them, as far as they go. */
  function Values(env: Env, s: State, d: DataDirective): (r: State)
    ensures s.pos <= r.pos && (s.pos <= |env.tokens| ==> r.pos <= |env.tokens|)
    decreases |env.tokens| - s.pos
  {
    var t := Current(env, s);
    if Accepts(d, t.kind) then
      EmitValueKeepsPos(s, d, t);
      Values(env, Next(env, EmitValue(s, d, t)), d)
    else if t.kind.Comma? then Values(env, Next(env, s), d)
    else s
  }

  /** A label: it is aligned for the directive after it and (re)defined at the data counter. */
  function DefineData(env: Env, s: State): State {
    var t := Current(env, s);
    var aligned :=
      match DirectiveOf(Peek(env, s, 1).value)
      case Some(d) => Align(s, DirectiveAlignment(d))
      case None => Fail(s, t.line).(events := s.events + [Mark(1)]);
    aligned.(
    symbols := aligned.symbols[t.value := SymbolData(aligned.dataIndex, t.line, true)],
    marks := aligned.marks[t.value := |aligned.events| - 1])
  }

  /** One iteration of the loop over the data section. */
  function DataStep(env: Env, s: State): (r: State)
    requires !Current(env, s).kind.Eof?
    ensures s.pos < r.pos <= |env.tokens|
  {
    var t := Current(env, s);
    if t.kind.Label? then Next(env, DefineData(env, s))
    else
      match DirectiveOf(t.value)
      case Some(d) => Values(env, Next(env, s), d)
      case None => Next(env, Fail(s, t.line))
  }

  predicate DataEnds(t: Token) { t.kind.Eof? || IsSectionWord(t.value) }

  /** `parseDataDirective`. */
  function DataSection(env: Env, s: State): (r: State)
    ensures s.pos <= r.pos && (s.pos <= |env.tokens| ==> r.pos <= |env.tokens|)
    ensures DataEnds(Current(env, r))
    decreases |env.tokens| - s.pos
  {
    if DataEnds(Current(env, s)) then s else DataSection(env, DataStep(env, s))
  }

  /** `parseBSSDirective`, which skips everything. */
  function BssSection(env: Env, s: State): (r: State)
    ensures s.pos <= r.pos && (s.pos <= |env.tokens| ==> r.pos <= |env.tokens|)
    ensures DataEnds(Current(env, r))
    decreases |env.tokens| - s.pos
  {
    if DataEnds(Current(env, s)) then s else BssSection(env, Next(env, s))
  }
}
