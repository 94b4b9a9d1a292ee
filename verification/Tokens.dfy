/**
 The token list that the parser starts from. A token's kind carries what the parser reads out of its
 text (a mnemonic, a register number, an integer, ...); the text itself is kept for labels and keywords.
 */
module Tokens {
  import opened Instructions

  type RegisterNumber = r: nat | r < 32
  type Int64Number = n: int | -0x8000_0000_0000_0000 <= n < 0x8000_0000_0000_0000
  type CsrAddress = a: bv32 | a < 0x1000
  type RoundingMode = m: bv32 | m < 8

  /** A float token carries its single and double precision bits, a string token the bytes between its quotes. */
  datatype Kind =
    | Invalid | Eof | Identifier | Directive | Opcode(op: Mnemonic)
    | GpRegister(x: RegisterNumber) | FpRegister(f: RegisterNumber) | VecRegister | CsrRegister(csr: CsrAddress)
    | Num(n: Int64Number) | Float(single: bv32, double: bv64) | Label | LabelRef
    | Comma | LParen | RParen | StringLiteral(raw: seq<bv8>) | Rm(mode: RoundingMode)

  datatype Token = Token(kind: Kind, value: string, line: nat)

  /** What the cursor functions return past the end of the list. */
  const END := Token(Eof, "", 1)

  function TokenAt(tokens: seq<Token>, i: nat): Token { if i < |tokens| then tokens[i] else END }

  /** `skipCurrentLine`: the first position from `pos` on that is not on the given line, or is an end of file. */
  function LineEnd(tokens: seq<Token>, pos: nat, line: nat): (end: nat)
    ensures end >= pos && (pos <= |tokens| ==> end <= |tokens|)
    ensures pos < |tokens| && tokens[pos].line == line && !tokens[pos].kind.Eof? ==> end > pos
    decreases |tokens| - pos
  {
    var t := TokenAt(tokens, pos);
    if t.line == line && !t.kind.Eof? then LineEnd(tokens, pos + 1, line) else pos
  }

  /** The words that end a skipped section, whatever the kind of their token. */
  datatype Skipped = SkippedText | SkippedData

  predicate IsDataWord(value: string) { value == "data" || value == "section" || value == "bss" }

  predicate IsSectionWord(value: string) { value == "text" || IsDataWord(value) }

  predicate Ends(skipped: Skipped, value: string) {
    match skipped
    case SkippedText => IsDataWord(value)
    case SkippedData => value == "text"
  }

  /** The first position from `pos` on with such a word, or at an end of file. */
  function SkipTo(tokens: seq<Token>, pos: nat, skipped: Skipped): (end: nat)
    ensures end >= pos && (pos <= |tokens| ==> end <= |tokens|)
    decreases |tokens| - pos
  {
    var t := TokenAt(tokens, pos);
    if !t.kind.Eof? && !Ends(skipped, t.value) then SkipTo(tokens, pos + 1, skipped) else pos
  }
}
