/**
 The operands that each mnemonic takes, written out token by token, and that the assembler accepts exactly these
 lines: its tables of syntaxes, the shapes of the syntaxes and its operand parsers come to this grammar.
 */
module Grammar {
  import opened Instructions
  import opened Tokens
  import opened ParserState
  import opened Operands
  import opened OperandTheorems
  import opened Acceptance

  /** The `n` tokens after token `p` are on its line, and the line ends after them. */
  predicate HasOperands(tokens: seq<Token>, p: nat, n: nat) {
    && (forall i :: p < i <= p + n ==> TokenAt(tokens, i).line == TokenAt(tokens, p).line)
    && (TokenAt(tokens, p + n + 1).kind.Eof? || TokenAt(tokens, p + n + 1).line != TokenAt(tokens, p).line)
  }

  predicate X(tokens: seq<Token>, i: nat) { TokenAt(tokens, i).kind.GpRegister? }

  predicate F(tokens: seq<Token>, i: nat) { TokenAt(tokens, i).kind.FpRegister? }

  predicate C(tokens: seq<Token>, i: nat) { TokenAt(tokens, i).kind.Comma? }

  /** A number between these bounds. */
  predicate N(tokens: seq<Token>, i: nat, min: int, max: int) {
    TokenAt(tokens, i).kind.Num? && min <= TokenAt(tokens, i).kind.n <= max
  }

  predicate L(tokens: seq<Token>, i: nat) { TokenAt(tokens, i).kind.LabelRef? }

  predicate M(tokens: seq<Token>, i: nat) { TokenAt(tokens, i).kind.Rm? }

  /** `12(x5)` at token `i`. */
  predicate Address(tokens: seq<Token>, i: nat) {
    && N(tokens, i, -2048, 2047) && TokenAt(tokens, i + 1).kind.LParen? && X(tokens, i + 2)
    && TokenAt(tokens, i + 3).kind.RParen?
  }

  predicate ThreeX(tokens: seq<Token>, p: nat) {
    HasOperands(tokens, p, 5) && X(tokens, p + 1) && C(tokens, p + 2) && X(tokens, p + 3) && C(tokens, p + 4) && X(tokens, p + 5)
  }

  /** Two registers and a number. */
  predicate TwoXAndN(tokens: seq<Token>, p: nat, min: int, max: int) {
    && HasOperands(tokens, p, 5) && X(tokens, p + 1) && C(tokens, p + 2) && X(tokens, p + 3) && C(tokens, p + 4)
    && N(tokens, p + 5, min, max)
  }

  predicate XAndN(tokens: seq<Token>, p: nat, min: int, max: int) {
    HasOperands(tokens, p, 3) && X(tokens, p + 1) && C(tokens, p + 2) && N(tokens, p + 3, min, max)
  }

  /** A register and a label. */
  predicate XAndL(tokens: seq<Token>, p: nat) {
    HasOperands(tokens, p, 3) && X(tokens, p + 1) && C(tokens, p + 2) && L(tokens, p + 3)
  }

  predicate XAndAddress(tokens: seq<Token>, p: nat) {
    HasOperands(tokens, p, 6) && X(tokens, p + 1) && C(tokens, p + 2) && Address(tokens, p + 3)
  }

  predicate FAndAddress(tokens: seq<Token>, p: nat) {
    HasOperands(tokens, p, 6) && F(tokens, p + 1) && C(tokens, p + 2) && Address(tokens, p + 3)
  }

  /** A register, a CSR and what comes after it. */
  predicate XAndCsr(tokens: seq<Token>, p: nat) {
    HasOperands(tokens, p, 5) && X(tokens, p + 1) && C(tokens, p + 2) && TokenAt(tokens, p + 3).kind.CsrRegister? && C(tokens, p + 4)
  }

  predicate TwoF(tokens: seq<Token>, p: nat) { F(tokens, p + 1) && C(tokens, p + 2) && F(tokens, p + 3) }

  /** `f1, x2`. */
  predicate FAndX(tokens: seq<Token>, p: nat) { F(tokens, p + 1) && C(tokens, p + 2) && X(tokens, p + 3) }

  /** `x1, f2`. */
  predicate XAndF(tokens: seq<Token>, p: nat) { X(tokens, p + 1) && C(tokens, p + 2) && F(tokens, p + 3) }

  /** A comma and a rounding mode, as the last of `n` tokens. */
  predicate EndsInMode(tokens: seq<Token>, p: nat, n: nat)
    requires n >= 1
  {
    HasOperands(tokens, p, n) && C(tokens, p + n - 1) && M(tokens, p + n)
  }

  /** Nothing known of the name is a text label too far away. */
  predicate NearIfKnown(symbols: map<string, SymbolData>, name: string, k: nat, min: int, max: int) {
    IsTextLabel(symbols, name) ==> min <= DistanceTo(symbols, name, k) <= max
  }

  predicate LoadForm(tokens: seq<Token>, symbols: map<string, SymbolData>, p: nat, name: I1Name) {
    match name
    case kaddi | kxori | kori | kandi | kslti | ksltiu => TwoXAndN(tokens, p, -2048, 2047)
    case kaddiw => false
    case klb | klh | klw | kld =>
      XAndAddress(tokens, p) || (XAndL(tokens, p) && IsDataLabel(symbols, TokenAt(tokens, p + 3).value))
    case _ => XAndAddress(tokens, p)
  }

  predicate ConversionForm(tokens: seq<Token>, p: nat, name: FdR2Name) {
    match name
    case kfsqrt_s | kfsqrt_d => TwoF(tokens, p) && (HasOperands(tokens, p, 3) || EndsInMode(tokens, p, 5))
    case kfcvt_w_s | kfcvt_wu_s | kfcvt_l_s | kfcvt_lu_s =>
      XAndF(tokens, p) && (HasOperands(tokens, p, 3) || EndsInMode(tokens, p, 5))
    case kfcvt_s_d | kfcvt_d_s =>
      (TwoF(tokens, p) && HasOperands(tokens, p, 3)) || (XAndF(tokens, p) && EndsInMode(tokens, p, 5))
    case kfcvt_w_d | kfcvt_wu_d | kfcvt_l_d | kfcvt_lu_d =>
      (XAndF(tokens, p) && HasOperands(tokens, p, 3)) || (FAndX(tokens, p) && EndsInMode(tokens, p, 5))
    case kfcvt_d_w | kfcvt_d_wu =>
      (FAndX(tokens, p) && HasOperands(tokens, p, 3)) || (XAndF(tokens, p) && EndsInMode(tokens, p, 5))
    case _ => FAndX(tokens, p) && (HasOperands(tokens, p, 3) || EndsInMode(tokens, p, 5))
  }

  predicate OtherForm(tokens: seq<Token>, symbols: map<string, SymbolData>, p: nat, name: OtherName) {
    match name
    case kla => XAndL(tokens, p) && IsDataLabel(symbols, TokenAt(tokens, p + 3).value)
    case kli => XAndN(tokens, p, -0x8000_0000, 0x7FFF_FFFF)
    case kmv | knot => HasOperands(tokens, p, 3) && X(tokens, p + 1) && C(tokens, p + 2) && X(tokens, p + 3)
    case knop | kret | kfence | kfence_i => HasOperands(tokens, p, 0)
    case _ => false
  }

  /** The line at token `p`, as instruction `k`, when these symbols are known. */
  predicate IsForm(env: Env, symbols: map<string, SymbolData>, k: nat, p: nat, op: Mnemonic) {
    var tokens := env.tokens;
    match op
    case InR(name) => name !in {kaddw, ksubw, ksllw, ksrlw, ksraw} && ThreeX(tokens, p)
    case InI1(name) => LoadForm(tokens, symbols, p, name)
    case InI2(name) => name !in {kslliw, ksrliw, ksraiw} && TwoXAndN(tokens, p, 0, 31)
    case InI3(_) => HasOperands(tokens, p, 0)
    case InS(_) => XAndAddress(tokens, p)
    case InB(_) =>
      || (TwoXAndN(tokens, p, -4096, 4095) && TokenAt(tokens, p + 5).kind.n % 4 == 0)
      || (HasOperands(tokens, p, 5) && X(tokens, p + 1) && C(tokens, p + 2) && X(tokens, p + 3) && C(tokens, p + 4)
          && L(tokens, p + 5) && NearIfKnown(symbols, TokenAt(tokens, p + 5).value, k, -4096, 4095))
    case InU(_) => XAndN(tokens, p, 0, 1048575)
    case InJ(_) =>
      || (XAndN(tokens, p, -1048576, 1048575) && TokenAt(tokens, p + 3).kind.n % 2 == 0)
      || (XAndL(tokens, p) && NearIfKnown(symbols, TokenAt(tokens, p + 3).value, k, -1048576, 1048575))
    case InCsrR(_) => XAndCsr(tokens, p) && X(tokens, p + 5)
    case InCsrI(_) => XAndCsr(tokens, p) && N(tokens, p + 5, 0, 31)
    case InFdR(name) =>
      && HasOperands(tokens, p, 5) && C(tokens, p + 2) && F(tokens, p + 3) && C(tokens, p + 4) && F(tokens, p + 5)
      && (if name in {kfeq_s, kflt_s, kfle_s, kfeq_d, kflt_d, kfle_d} then X(tokens, p + 1) else F(tokens, p + 1))
    case InFdR1(_) =>
      && TwoF(tokens, p) && C(tokens, p + 4) && F(tokens, p + 5) && (HasOperands(tokens, p, 5) || EndsInMode(tokens, p, 7))
    case InFdR2(name) => ConversionForm(tokens, p, name)
    case InFdR3(name) =>
      HasOperands(tokens, p, 3) && if name == kfmv_w_x || name == kfmv_d_x then FAndX(tokens, p) else XAndF(tokens, p)
    case InFdR4(_) =>
      && TwoF(tokens, p) && C(tokens, p + 4) && F(tokens, p + 5) && C(tokens, p + 6) && F(tokens, p + 7)
      && (HasOperands(tokens, p, 7) || EndsInMode(tokens, p, 9))
    case InFdI(_) | InFdS(_) => FAndAddress(tokens, p)
    case InNone(name) => OtherForm(tokens, symbols, p, name)
  }

  /** Fitting a shape is having its tokens on the line. */
  lemma FitsIs(env: Env, p: nat, tags: seq<Tag>)
    ensures FitsLine(env, LookingAt(p), tags) <==>
      HasOperands(env.tokens, p, |tags|) && forall i :: 0 <= i < |tags| ==> HasTag(TokenAt(env.tokens, p + 1 + i).kind, tags[i])
  {
    hide HasTag;
    var s := LookingAt(p);
    assert Peek(env, s, |tags| + 1) == TokenAt(env.tokens, p + |tags| + 1);
    if FitsLine(env, s, tags) {
      forall i | 0 <= i < |tags|
        ensures TokenAt(env.tokens, p + 1 + i).line == TokenAt(env.tokens, p).line
        ensures HasTag(TokenAt(env.tokens, p + 1 + i).kind, tags[i])
      {
        assert TokenFits(env, s, i + 1, tags[i]);
      }
      forall j | p < j <= p + |tags| ensures TokenAt(env.tokens, j).line == TokenAt(env.tokens, p).line {
        assert TokenFits(env, s, j - p, tags[j - p - 1]);
      }
    } else if HasOperands(env.tokens, p, |tags|) && forall i :: 0 <= i < |tags| ==> HasTag(TokenAt(env.tokens, p + 1 + i).kind, tags[i]) {
      forall i | 0 <= i < |tags| ensures TokenFits(env, s, i + 1, tags[i]) {
        assert HasTag(TokenAt(env.tokens, p + 1 + i).kind, tags[i]);
      }
    }
  }

  /*
   * Shapes of a given length.
   */

  lemma Fits0(env: Env, p: nat)
    ensures FitsLine(env, LookingAt(p), []) <==> HasOperands(env.tokens, p, 0)
  {
    FitsIs(env, p, []);
  }

  lemma Fits3(env: Env, p: nat, t0: Tag, t1: Tag, t2: Tag)
    ensures FitsLine(env, LookingAt(p), [t0, t1, t2]) <==>
      && HasOperands(env.tokens, p, 3)
      && HasTag(TokenAt(env.tokens, p + 1).kind, t0)
      && HasTag(TokenAt(env.tokens, p + 2).kind, t1)
      && HasTag(TokenAt(env.tokens, p + 3).kind, t2)
  {
    hide HasTag, FitsLine, HasOperands;
    var tags := [t0, t1, t2];
    FitsIs(env, p, tags);
    assert tags[0] == t0 && tags[1] == t1 && tags[2] == t2;
    if
      && HasTag(TokenAt(env.tokens, p + 1).kind, t0)
      && HasTag(TokenAt(env.tokens, p + 2).kind, t1)
      && HasTag(TokenAt(env.tokens, p + 3).kind, t2)
    {
      forall i | 0 <= i < 3 ensures HasTag(TokenAt(env.tokens, p + 1 + i).kind, tags[i]) {
        assert i == 0 || i == 1 || i == 2;
      }
    }
  }

  lemma Fits5(env: Env, p: nat, t0: Tag, t1: Tag, t2: Tag, t3: Tag, t4: Tag)
    ensures FitsLine(env, LookingAt(p), [t0, t1, t2, t3, t4]) <==>
      && HasOperands(env.tokens, p, 5)
      && HasTag(TokenAt(env.tokens, p + 1).kind, t0)
      && HasTag(TokenAt(env.tokens, p + 2).kind, t1)
      && HasTag(TokenAt(env.tokens, p + 3).kind, t2)
      && HasTag(TokenAt(env.tokens, p + 4).kind, t3)
      && HasTag(TokenAt(env.tokens, p + 5).kind, t4)
  {
    hide HasTag, FitsLine, HasOperands;
    var tags := [t0, t1, t2, t3, t4];
    FitsIs(env, p, tags);
    assert tags[0] == t0 && tags[1] == t1 && tags[2] == t2 && tags[3] == t3 && tags[4] == t4;
    if
      && HasTag(TokenAt(env.tokens, p + 1).kind, t0)
      && HasTag(TokenAt(env.tokens, p + 2).kind, t1)
      && HasTag(TokenAt(env.tokens, p + 3).kind, t2)
      && HasTag(TokenAt(env.tokens, p + 4).kind, t3)
      && HasTag(TokenAt(env.tokens, p + 5).kind, t4)
    {
      forall i | 0 <= i < 5 ensures HasTag(TokenAt(env.tokens, p + 1 + i).kind, tags[i]) {
        assert i == 0 || i == 1 || i == 2 || i == 3 || i == 4;
      }
    }
  }

  lemma Fits6(env: Env, p: nat, t0: Tag, t1: Tag, t2: Tag, t3: Tag, t4: Tag, t5: Tag)
    ensures FitsLine(env, LookingAt(p), [t0, t1, t2, t3, t4, t5]) <==>
      && HasOperands(env.tokens, p, 6)
      && HasTag(TokenAt(env.tokens, p + 1).kind, t0)
      && HasTag(TokenAt(env.tokens, p + 2).kind, t1)
      && HasTag(TokenAt(env.tokens, p + 3).kind, t2)
      && HasTag(TokenAt(env.tokens, p + 4).kind, t3)
      && HasTag(TokenAt(env.tokens, p + 5).kind, t4)
      && HasTag(TokenAt(env.tokens, p + 6).kind, t5)
  {
    hide HasTag, FitsLine, HasOperands;
    var tags := [t0, t1, t2, t3, t4, t5];
    FitsIs(env, p, tags);
    assert tags[0] == t0 && tags[1] == t1 && tags[2] == t2 && tags[3] == t3 && tags[4] == t4 && tags[5] == t5;
    if
      && HasTag(TokenAt(env.tokens, p + 1).kind, t0)
      && HasTag(TokenAt(env.tokens, p + 2).kind, t1)
      && HasTag(TokenAt(env.tokens, p + 3).kind, t2)
      && HasTag(TokenAt(env.tokens, p + 4).kind, t3)
      && HasTag(TokenAt(env.tokens, p + 5).kind, t4)
      && HasTag(TokenAt(env.tokens, p + 6).kind, t5)
    {
      forall i | 0 <= i < 6 ensures HasTag(TokenAt(env.tokens, p + 1 + i).kind, tags[i]) {
        assert i == 0 || i == 1 || i == 2 || i == 3 || i == 4 || i == 5;
      }
    }
  }

  lemma Fits7(env: Env, p: nat, t0: Tag, t1: Tag, t2: Tag, t3: Tag, t4: Tag, t5: Tag, t6: Tag)
    ensures FitsLine(env, LookingAt(p), [t0, t1, t2, t3, t4, t5, t6]) <==>
      && HasOperands(env.tokens, p, 7)
      && HasTag(TokenAt(env.tokens, p + 1).kind, t0)
      && HasTag(TokenAt(env.tokens, p + 2).kind, t1)
      && HasTag(TokenAt(env.tokens, p + 3).kind, t2)
      && HasTag(TokenAt(env.tokens, p + 4).kind, t3)
      && HasTag(TokenAt(env.tokens, p + 5).kind, t4)
      && HasTag(TokenAt(env.tokens, p + 6).kind, t5)
      && HasTag(TokenAt(env.tokens, p + 7).kind, t6)
  {
    hide HasTag, FitsLine, HasOperands;
    var tags := [t0, t1, t2, t3, t4, t5, t6];
    FitsIs(env, p, tags);
    assert
      && tags[0] == t0 && tags[1] == t1 && tags[2] == t2
      && tags[3] == t3 && tags[4] == t4 && tags[5] == t5 && tags[6] == t6;
    if
      && HasTag(TokenAt(env.tokens, p + 1).kind, t0)
      && HasTag(TokenAt(env.tokens, p + 2).kind, t1)
      && HasTag(TokenAt(env.tokens, p + 3).kind, t2)
      && HasTag(TokenAt(env.tokens, p + 4).kind, t3)
      && HasTag(TokenAt(env.tokens, p + 5).kind, t4)
      && HasTag(TokenAt(env.tokens, p + 6).kind, t5)
      && HasTag(TokenAt(env.tokens, p + 7).kind, t6)
    {
      forall i | 0 <= i < 7 ensures HasTag(TokenAt(env.tokens, p + 1 + i).kind, tags[i]) {
        assert i == 0 || i == 1 || i == 2 || i == 3 || i == 4 || i == 5 || i == 6;
      }
    }
  }

  lemma Fits9(env: Env, p: nat, t0: Tag, t1: Tag, t2: Tag, t3: Tag, t4: Tag, t5: Tag, t6: Tag, t7: Tag, t8: Tag)
    ensures FitsLine(env, LookingAt(p), [t0, t1, t2, t3, t4, t5, t6, t7, t8]) <==>
      && HasOperands(env.tokens, p, 9)
      && HasTag(TokenAt(env.tokens, p + 1).kind, t0)
      && HasTag(TokenAt(env.tokens, p + 2).kind, t1)
      && HasTag(TokenAt(env.tokens, p + 3).kind, t2)
      && HasTag(TokenAt(env.tokens, p + 4).kind, t3)
      && HasTag(TokenAt(env.tokens, p + 5).kind, t4)
      && HasTag(TokenAt(env.tokens, p + 6).kind, t5)
      && HasTag(TokenAt(env.tokens, p + 7).kind, t6)
      && HasTag(TokenAt(env.tokens, p + 8).kind, t7)
      && HasTag(TokenAt(env.tokens, p + 9).kind, t8)
  {
    hide HasTag, FitsLine, HasOperands;
    var tags := [t0, t1, t2, t3, t4, t5, t6, t7, t8];
    FitsIs(env, p, tags);
    assert
      && tags[0] == t0 && tags[1] == t1 && tags[2] == t2 && tags[3] == t3
      && tags[4] == t4 && tags[5] == t5 && tags[6] == t6 && tags[7] == t7 && tags[8] == t8;
    if
      && HasTag(TokenAt(env.tokens, p + 1).kind, t0)
      && HasTag(TokenAt(env.tokens, p + 2).kind, t1)
      && HasTag(TokenAt(env.tokens, p + 3).kind, t2)
      && HasTag(TokenAt(env.tokens, p + 4).kind, t3)
      && HasTag(TokenAt(env.tokens, p + 5).kind, t4)
      && HasTag(TokenAt(env.tokens, p + 6).kind, t5)
      && HasTag(TokenAt(env.tokens, p + 7).kind, t6)
      && HasTag(TokenAt(env.tokens, p + 8).kind, t7)
      && HasTag(TokenAt(env.tokens, p + 9).kind, t8)
    {
      forall i | 0 <= i < 9 ensures HasTag(TokenAt(env.tokens, p + 1 + i).kind, tags[i]) {
        assert i == 0 || i == 1 || i == 2 || i == 3 || i == 4 || i == 5 || i == 6 || i == 7 || i == 8;
      }
    }
  }

  /*
   * Mnemonics.
   */

  /** The line is read by this syntax. */
  predicate SyntaxOk(env: Env, symbols: map<string, SymbolData>, k: nat, p: nat, syntax: SyntaxType, op: Mnemonic) {
    Applies(env, LookingAt(p), syntax, op) && OperandsOk(env, symbols, k, LookingAt(p), syntax, op)
  }

  lemma NoSyntax(env: Env, symbols: map<string, SymbolData>, k: nat, p: nat, op: Mnemonic)
    requires Syntaxes(op) == []
    ensures !LineOk(env, symbols, k, LookingAt(p), op)
  {
    hide Applies, OperandsOk, Syntaxes;
    if LineOk(env, symbols, k, LookingAt(p), op) {
      var syntax: SyntaxType :|
        Applies(env, LookingAt(p), syntax, op) && OperandsOk(env, symbols, k, LookingAt(p), syntax, op);
      HasSyntax(env, LookingAt(p), syntax, op);
    }
  }

  lemma OneSyntax(env: Env, symbols: map<string, SymbolData>, k: nat, p: nat, op: Mnemonic, a: SyntaxType)
    requires Syntaxes(op) == [a]
    ensures LineOk(env, symbols, k, LookingAt(p), op) <==> SyntaxOk(env, symbols, k, p, a, op)
  {
    hide Applies, OperandsOk, Syntaxes;
    if LineOk(env, symbols, k, LookingAt(p), op) {
      var syntax: SyntaxType :|
        Applies(env, LookingAt(p), syntax, op) && OperandsOk(env, symbols, k, LookingAt(p), syntax, op);
      HasSyntax(env, LookingAt(p), syntax, op);
    }
  }

  lemma TwoSyntaxes(env: Env, symbols: map<string, SymbolData>, k: nat, p: nat, op: Mnemonic, a: SyntaxType, b: SyntaxType)
    requires Syntaxes(op) == [a, b]
    ensures LineOk(env, symbols, k, LookingAt(p), op) <==>
      SyntaxOk(env, symbols, k, p, a, op) || SyntaxOk(env, symbols, k, p, b, op)
  {
    hide Applies, OperandsOk, Syntaxes;
    if LineOk(env, symbols, k, LookingAt(p), op) {
      var syntax: SyntaxType :|
        Applies(env, LookingAt(p), syntax, op) && OperandsOk(env, symbols, k, LookingAt(p), syntax, op);
      HasSyntax(env, LookingAt(p), syntax, op);
    }
  }

  /** What each syntax comes to, for a mnemonic that has it. */

  lemma ThreeRegisters(env: Env, symbols: map<string, SymbolData>, k: nat, p: nat, op: Mnemonic)
    requires O_GPR_C_GPR_C_GPR in Syntaxes(op)
    ensures SyntaxOk(env, symbols, k, p, O_GPR_C_GPR_C_GPR, op) <==> ThreeX(env.tokens, p)
  {
    hide FitsLine, Syntaxes, HasOperands, DistanceTo;
    Fits5(env, p, Gp, Com, Gp, Com, Gp);
  }

  lemma TwoAndSmall(env: Env, symbols: map<string, SymbolData>, k: nat, p: nat, op: Mnemonic)
    requires O_GPR_C_GPR_C_I in Syntaxes(op) && (op.InI1?)
    ensures SyntaxOk(env, symbols, k, p, O_GPR_C_GPR_C_I, op) <==> TwoXAndN(env.tokens, p, -2048, 2047)
  {
    hide FitsLine, Syntaxes, HasOperands, DistanceTo;
    Fits5(env, p, Gp, Com, Gp, Com, Number);
  }

  lemma TwoAndShift(env: Env, symbols: map<string, SymbolData>, k: nat, p: nat, op: Mnemonic)
    requires O_GPR_C_GPR_C_I in Syntaxes(op) && (op.InI2?)
    ensures SyntaxOk(env, symbols, k, p, O_GPR_C_GPR_C_I, op) <==> TwoXAndN(env.tokens, p, 0, 31)
  {
    hide FitsLine, Syntaxes, HasOperands, DistanceTo;
    Fits5(env, p, Gp, Com, Gp, Com, Number);
  }

  lemma TwoAndOffset(env: Env, symbols: map<string, SymbolData>, k: nat, p: nat, op: Mnemonic)
    requires O_GPR_C_GPR_C_I in Syntaxes(op) && (op.InB?)
    ensures SyntaxOk(env, symbols, k, p, O_GPR_C_GPR_C_I, op) <==>
      TwoXAndN(env.tokens, p, -4096, 4095) && TokenAt(env.tokens, p + 5).kind.n % 4 == 0
  {
    hide FitsLine, Syntaxes, HasOperands, DistanceTo;
    Fits5(env, p, Gp, Com, Gp, Com, Number);
  }

  lemma OneAndUpper(env: Env, symbols: map<string, SymbolData>, k: nat, p: nat, op: Mnemonic)
    requires O_GPR_C_I in Syntaxes(op) && (op.InU?)
    ensures SyntaxOk(env, symbols, k, p, O_GPR_C_I, op) <==> XAndN(env.tokens, p, 0, 1048575)
  {
    hide FitsLine, Syntaxes, HasOperands, DistanceTo;
    Fits3(env, p, Gp, Com, Number);
  }

  lemma OneAndOffset(env: Env, symbols: map<string, SymbolData>, k: nat, p: nat, op: Mnemonic)
    requires O_GPR_C_I in Syntaxes(op) && (op.InJ?)
    ensures SyntaxOk(env, symbols, k, p, O_GPR_C_I, op) <==>
      XAndN(env.tokens, p, -1048576, 1048575) && TokenAt(env.tokens, p + 3).kind.n % 2 == 0
  {
    hide FitsLine, Syntaxes, HasOperands, DistanceTo;
    Fits3(env, p, Gp, Com, Number);
  }

  lemma BranchTo(env: Env, symbols: map<string, SymbolData>, k: nat, p: nat, op: Mnemonic)
    requires O_GPR_C_GPR_C_IL in Syntaxes(op)
    ensures SyntaxOk(env, symbols, k, p, O_GPR_C_GPR_C_IL, op) <==> 
      && HasOperands(env.tokens, p, 5) && X(env.tokens, p + 1) && C(env.tokens, p + 2) && X(env.tokens, p + 3) && C(env.tokens, p + 4)
      && L(env.tokens, p + 5) && NearIfKnown(symbols, TokenAt(env.tokens, p + 5).value, k, -4096, 4095)
  {
    hide FitsLine, Syntaxes, HasOperands, DistanceTo;
    Fits5(env, p, Gp, Com, Gp, Com, Ref);
  }

  lemma LinkTo(env: Env, symbols: map<string, SymbolData>, k: nat, p: nat, op: Mnemonic)
    requires O_GPR_C_IL in Syntaxes(op)
    ensures SyntaxOk(env, symbols, k, p, O_GPR_C_IL, op) <==>
      XAndL(env.tokens, p) && NearIfKnown(symbols, TokenAt(env.tokens, p + 3).value, k, -1048576, 1048575)
  {
    hide FitsLine, Syntaxes, HasOperands, DistanceTo;
    Fits3(env, p, Gp, Com, Ref);
  }

  lemma LoadFrom(env: Env, symbols: map<string, SymbolData>, k: nat, p: nat, op: Mnemonic)
    requires O_GPR_C_DL in Syntaxes(op)
    ensures SyntaxOk(env, symbols, k, p, O_GPR_C_DL, op) <==>
      XAndL(env.tokens, p) && IsDataLabel(symbols, TokenAt(env.tokens, p + 3).value)
  {
    hide FitsLine, Syntaxes, HasOperands, DistanceTo;
    Fits3(env, p, Gp, Com, Ref);
  }

  lemma AtAddress(env: Env, symbols: map<string, SymbolData>, k: nat, p: nat, op: Mnemonic)
    requires O_GPR_C_I_LP_GPR_RP in Syntaxes(op)
    ensures SyntaxOk(env, symbols, k, p, O_GPR_C_I_LP_GPR_RP, op) <==> XAndAddress(env.tokens, p)
  {
    hide FitsLine, Syntaxes, HasOperands, DistanceTo;
    Fits6(env, p, Gp, Com, Number, Open, Gp, Close);
  }

  lemma FloatAtAddress(env: Env, symbols: map<string, SymbolData>, k: nat, p: nat, op: Mnemonic)
    requires O_FPR_C_I_LP_GPR_RP in Syntaxes(op)
    ensures SyntaxOk(env, symbols, k, p, O_FPR_C_I_LP_GPR_RP, op) <==> FAndAddress(env.tokens, p)
  {
    hide FitsLine, Syntaxes, HasOperands, DistanceTo;
    Fits6(env, p, Fp, Com, Number, Open, Gp, Close);
  }

  lemma BareForm(env: Env, symbols: map<string, SymbolData>, k: nat, p: nat, op: Mnemonic)
    requires O in Syntaxes(op)
    ensures SyntaxOk(env, symbols, k, p, O, op) <==> HasOperands(env.tokens, p, 0)
  {
    hide FitsLine, Syntaxes, HasOperands, DistanceTo;
    Fits0(env, p);
  }

  lemma CsrRegister(env: Env, symbols: map<string, SymbolData>, k: nat, p: nat, op: Mnemonic)
    requires O_GPR_C_CSR_C_GPR in Syntaxes(op)
    ensures SyntaxOk(env, symbols, k, p, O_GPR_C_CSR_C_GPR, op) <==> XAndCsr(env.tokens, p) && X(env.tokens, p + 5)
  {
    hide FitsLine, Syntaxes, HasOperands, DistanceTo;
    Fits5(env, p, Gp, Com, Csr, Com, Gp);
  }

  lemma CsrNumber(env: Env, symbols: map<string, SymbolData>, k: nat, p: nat, op: Mnemonic)
    requires O_GPR_C_CSR_C_I in Syntaxes(op)
    ensures SyntaxOk(env, symbols, k, p, O_GPR_C_CSR_C_I, op) <==> XAndCsr(env.tokens, p) && N(env.tokens, p + 5, 0, 31)
  {
    hide FitsLine, Syntaxes, HasOperands, DistanceTo;
    Fits5(env, p, Gp, Com, Csr, Com, Number);
  }

  lemma FourFloats(env: Env, symbols: map<string, SymbolData>, k: nat, p: nat, op: Mnemonic)
    requires O_FPR_C_FPR_C_FPR_C_FPR in Syntaxes(op)
    ensures SyntaxOk(env, symbols, k, p, O_FPR_C_FPR_C_FPR_C_FPR, op) <==> 
      && HasOperands(env.tokens, p, 7) && TwoF(env.tokens, p) && C(env.tokens, p + 4) && F(env.tokens, p + 5) && C(env.tokens, p + 6) && F(env.tokens, p + 7)
  {
    hide FitsLine, Syntaxes, HasOperands, DistanceTo;
    Fits7(env, p, Fp, Com, Fp, Com, Fp, Com, Fp);
  }

  lemma FourFloatsMode(env: Env, symbols: map<string, SymbolData>, k: nat, p: nat, op: Mnemonic)
    requires O_FPR_C_FPR_C_FPR_C_FPR_C_RM in Syntaxes(op)
    ensures SyntaxOk(env, symbols, k, p, O_FPR_C_FPR_C_FPR_C_FPR_C_RM, op) <==> 
      && EndsInMode(env.tokens, p, 9) && TwoF(env.tokens, p) && C(env.tokens, p + 4) && F(env.tokens, p + 5) && C(env.tokens, p + 6) && F(env.tokens, p + 7)
  {
    hide FitsLine, Syntaxes, HasOperands, DistanceTo;
    Fits9(env, p, Fp, Com, Fp, Com, Fp, Com, Fp, Com, Mode);
  }

  lemma ThreeFloats(env: Env, symbols: map<string, SymbolData>, k: nat, p: nat, op: Mnemonic)
    requires O_FPR_C_FPR_C_FPR in Syntaxes(op)
    ensures SyntaxOk(env, symbols, k, p, O_FPR_C_FPR_C_FPR, op) <==>
      HasOperands(env.tokens, p, 5) && TwoF(env.tokens, p) && C(env.tokens, p + 4) && F(env.tokens, p + 5)
  {
    hide FitsLine, Syntaxes, HasOperands, DistanceTo;
    Fits5(env, p, Fp, Com, Fp, Com, Fp);
  }

  lemma ThreeFloatsMode(env: Env, symbols: map<string, SymbolData>, k: nat, p: nat, op: Mnemonic)
    requires O_FPR_C_FPR_C_FPR_C_RM in Syntaxes(op)
    ensures SyntaxOk(env, symbols, k, p, O_FPR_C_FPR_C_FPR_C_RM, op) <==>
      EndsInMode(env.tokens, p, 7) && TwoF(env.tokens, p) && C(env.tokens, p + 4) && F(env.tokens, p + 5)
  {
    hide FitsLine, Syntaxes, HasOperands, DistanceTo;
    Fits7(env, p, Fp, Com, Fp, Com, Fp, Com, Mode);
  }

  lemma CompareFloats(env: Env, symbols: map<string, SymbolData>, k: nat, p: nat, op: Mnemonic)
    requires O_GPR_C_FPR_C_FPR in Syntaxes(op)
    ensures SyntaxOk(env, symbols, k, p, O_GPR_C_FPR_C_FPR, op) <==>
      HasOperands(env.tokens, p, 5) && XAndF(env.tokens, p) && C(env.tokens, p + 4) && F(env.tokens, p + 5)
  {
    hide FitsLine, Syntaxes, HasOperands, DistanceTo;
    Fits5(env, p, Gp, Com, Fp, Com, Fp);
  }

  lemma ConvertFF(env: Env, symbols: map<string, SymbolData>, k: nat, p: nat, op: Mnemonic)
    requires O_FPR_C_FPR in Syntaxes(op)
    ensures SyntaxOk(env, symbols, k, p, O_FPR_C_FPR, op) <==> HasOperands(env.tokens, p, 3) && TwoF(env.tokens, p)
  {
    hide FitsLine, Syntaxes, HasOperands, DistanceTo;
    Fits3(env, p, Fp, Com, Fp);
  }

  lemma ConvertFFMode(env: Env, symbols: map<string, SymbolData>, k: nat, p: nat, op: Mnemonic)
    requires O_FPR_C_FPR_C_RM in Syntaxes(op)
    ensures SyntaxOk(env, symbols, k, p, O_FPR_C_FPR_C_RM, op) <==> EndsInMode(env.tokens, p, 5) && TwoF(env.tokens, p)
  {
    hide FitsLine, Syntaxes, HasOperands, DistanceTo;
    Fits5(env, p, Fp, Com, Fp, Com, Mode);
  }

  lemma ConvertFX(env: Env, symbols: map<string, SymbolData>, k: nat, p: nat, op: Mnemonic)
    requires O_FPR_C_GPR in Syntaxes(op)
    ensures SyntaxOk(env, symbols, k, p, O_FPR_C_GPR, op) <==> HasOperands(env.tokens, p, 3) && FAndX(env.tokens, p)
  {
    hide FitsLine, Syntaxes, HasOperands, DistanceTo;
    Fits3(env, p, Fp, Com, Gp);
  }

  lemma ConvertFXMode(env: Env, symbols: map<string, SymbolData>, k: nat, p: nat, op: Mnemonic)
    requires O_FPR_C_GPR_C_RM in Syntaxes(op)
    ensures SyntaxOk(env, symbols, k, p, O_FPR_C_GPR_C_RM, op) <==> EndsInMode(env.tokens, p, 5) && FAndX(env.tokens, p)
  {
    hide FitsLine, Syntaxes, HasOperands, DistanceTo;
    Fits5(env, p, Fp, Com, Gp, Com, Mode);
  }

  lemma ConvertXF(env: Env, symbols: map<string, SymbolData>, k: nat, p: nat, op: Mnemonic)
    requires O_GPR_C_FPR in Syntaxes(op)
    ensures SyntaxOk(env, symbols, k, p, O_GPR_C_FPR, op) <==> HasOperands(env.tokens, p, 3) && XAndF(env.tokens, p)
  {
    hide FitsLine, Syntaxes, HasOperands, DistanceTo;
    Fits3(env, p, Gp, Com, Fp);
  }

  lemma ConvertXFMode(env: Env, symbols: map<string, SymbolData>, k: nat, p: nat, op: Mnemonic)
    requires O_GPR_C_FPR_C_RM in Syntaxes(op)
    ensures SyntaxOk(env, symbols, k, p, O_GPR_C_FPR_C_RM, op) <==> EndsInMode(env.tokens, p, 5) && XAndF(env.tokens, p)
  {
    hide FitsLine, Syntaxes, HasOperands, DistanceTo;
    Fits5(env, p, Gp, Com, Fp, Com, Mode);
  }

  /*
   * Every mnemonic.
   */

  lemma RegisterForms(env: Env, symbols: map<string, SymbolData>, k: nat, p: nat, op: Mnemonic)
    requires op.InR?
    ensures LineOk(env, symbols, k, LookingAt(p), op) <==> IsForm(env, symbols, k, p, op)
  {
    hide HasOperands, SyntaxOk, LineOk, Address, EndsInMode, DistanceTo;
    if op.r in {kaddw, ksubw, ksllw, ksrlw, ksraw} {
      NoSyntax(env, symbols, k, p, op);
    } else {
      OneSyntax(env, symbols, k, p, op, O_GPR_C_GPR_C_GPR);
      ThreeRegisters(env, symbols, k, p, op);
    }
  }

  lemma ImmediateForms(env: Env, symbols: map<string, SymbolData>, k: nat, p: nat, op: Mnemonic)
    requires op.InI1? && op.i1 in {kaddi, kxori, kori, kandi, kslti, ksltiu, kaddiw}
    ensures LineOk(env, symbols, k, LookingAt(p), op) <==> IsForm(env, symbols, k, p, op)
  {
    hide HasOperands, SyntaxOk, LineOk, Address, EndsInMode, DistanceTo;
    if op.i1 == kaddiw {
      NoSyntax(env, symbols, k, p, op);
    } else {
      OneSyntax(env, symbols, k, p, op, O_GPR_C_GPR_C_I);
      TwoAndSmall(env, symbols, k, p, op);
    }
  }

  lemma LoadForms(env: Env, symbols: map<string, SymbolData>, k: nat, p: nat, op: Mnemonic)
    requires op.InI1? && op.i1 !in {kaddi, kxori, kori, kandi, kslti, ksltiu, kaddiw}
    ensures LineOk(env, symbols, k, LookingAt(p), op) <==> IsForm(env, symbols, k, p, op)
  {
    hide HasOperands, SyntaxOk, LineOk, Address, EndsInMode, DistanceTo;
    AtAddress(env, symbols, k, p, op);
    if op.i1 in {klb, klh, klw, kld} {
      TwoSyntaxes(env, symbols, k, p, op, O_GPR_C_I_LP_GPR_RP, O_GPR_C_DL);
      LoadFrom(env, symbols, k, p, op);
    } else {
      OneSyntax(env, symbols, k, p, op, O_GPR_C_I_LP_GPR_RP);
    }
  }

  lemma ShiftForms(env: Env, symbols: map<string, SymbolData>, k: nat, p: nat, op: Mnemonic)
    requires op.InI2?
    ensures LineOk(env, symbols, k, LookingAt(p), op) <==> IsForm(env, symbols, k, p, op)
  {
    hide HasOperands, SyntaxOk, LineOk, Address, EndsInMode, DistanceTo;
    if op.i2 in {kslliw, ksrliw, ksraiw} {
      NoSyntax(env, symbols, k, p, op);
    } else {
      OneSyntax(env, symbols, k, p, op, O_GPR_C_GPR_C_I);
      TwoAndShift(env, symbols, k, p, op);
    }
  }

  lemma StoreForms(env: Env, symbols: map<string, SymbolData>, k: nat, p: nat, op: Mnemonic)
    requires op.InS?
    ensures LineOk(env, symbols, k, LookingAt(p), op) <==> IsForm(env, symbols, k, p, op)
  {
    hide HasOperands, SyntaxOk, LineOk, Address, EndsInMode, DistanceTo;
    OneSyntax(env, symbols, k, p, op, O_GPR_C_I_LP_GPR_RP);
    AtAddress(env, symbols, k, p, op);
  }

  lemma BranchForms(env: Env, symbols: map<string, SymbolData>, k: nat, p: nat, op: Mnemonic)
    requires op.InB?
    ensures LineOk(env, symbols, k, LookingAt(p), op) <==> IsForm(env, symbols, k, p, op)
  {
    hide HasOperands, SyntaxOk, LineOk, Address, EndsInMode, DistanceTo;
    TwoSyntaxes(env, symbols, k, p, op, O_GPR_C_GPR_C_I, O_GPR_C_GPR_C_IL);
    TwoAndOffset(env, symbols, k, p, op);
    BranchTo(env, symbols, k, p, op);
  }

  lemma UpperForms(env: Env, symbols: map<string, SymbolData>, k: nat, p: nat, op: Mnemonic)
    requires op.InU?
    ensures LineOk(env, symbols, k, LookingAt(p), op) <==> IsForm(env, symbols, k, p, op)
  {
    hide HasOperands, SyntaxOk, LineOk, Address, EndsInMode, DistanceTo;
    OneSyntax(env, symbols, k, p, op, O_GPR_C_I);
    OneAndUpper(env, symbols, k, p, op);
  }

  lemma LinkForms(env: Env, symbols: map<string, SymbolData>, k: nat, p: nat, op: Mnemonic)
    requires op.InJ?
    ensures LineOk(env, symbols, k, LookingAt(p), op) <==> IsForm(env, symbols, k, p, op)
  {
    hide HasOperands, SyntaxOk, LineOk, Address, EndsInMode, DistanceTo;
    TwoSyntaxes(env, symbols, k, p, op, O_GPR_C_I, O_GPR_C_IL);
    OneAndOffset(env, symbols, k, p, op);
    LinkTo(env, symbols, k, p, op);
  }

  lemma SystemForms(env: Env, symbols: map<string, SymbolData>, k: nat, p: nat, op: Mnemonic)
    requires op.InI3? || op.InCsrR? || op.InCsrI?
    ensures LineOk(env, symbols, k, LookingAt(p), op) <==> IsForm(env, symbols, k, p, op)
  {
    hide HasOperands, SyntaxOk, LineOk, Address, EndsInMode, DistanceTo;
    if op.InI3? {
      OneSyntax(env, symbols, k, p, op, O);
      BareForm(env, symbols, k, p, op);
    } else if op.InCsrR? {
      OneSyntax(env, symbols, k, p, op, O_GPR_C_CSR_C_GPR);
      CsrRegister(env, symbols, k, p, op);
    } else {
      OneSyntax(env, symbols, k, p, op, O_GPR_C_CSR_C_I);
      CsrNumber(env, symbols, k, p, op);
    }
  }

  lemma FloatForms(env: Env, symbols: map<string, SymbolData>, k: nat, p: nat, op: Mnemonic)
    requires op.InFdR?
    ensures LineOk(env, symbols, k, LookingAt(p), op) <==> IsForm(env, symbols, k, p, op)
  {
    hide HasOperands, SyntaxOk, LineOk, Address, EndsInMode, DistanceTo;
    if op.fdR in {kfeq_s, kflt_s, kfle_s, kfeq_d, kflt_d, kfle_d} {
      OneSyntax(env, symbols, k, p, op, O_GPR_C_FPR_C_FPR);
      CompareFloats(env, symbols, k, p, op);
    } else {
      OneSyntax(env, symbols, k, p, op, O_FPR_C_FPR_C_FPR);
      ThreeFloats(env, symbols, k, p, op);
    }
  }

  lemma RoundedForms(env: Env, symbols: map<string, SymbolData>, k: nat, p: nat, op: Mnemonic)
    requires op.InFdR1?
    ensures LineOk(env, symbols, k, LookingAt(p), op) <==> IsForm(env, symbols, k, p, op)
  {
    hide HasOperands, SyntaxOk, LineOk, Address, EndsInMode, DistanceTo;
    TwoSyntaxes(env, symbols, k, p, op, O_FPR_C_FPR_C_FPR, O_FPR_C_FPR_C_FPR_C_RM);
    ThreeFloats(env, symbols, k, p, op);
    ThreeFloatsMode(env, symbols, k, p, op);
  }

  lemma FusedForms(env: Env, symbols: map<string, SymbolData>, k: nat, p: nat, op: Mnemonic)
    requires op.InFdR4?
    ensures LineOk(env, symbols, k, LookingAt(p), op) <==> IsForm(env, symbols, k, p, op)
  {
    hide HasOperands, SyntaxOk, LineOk, Address, EndsInMode, DistanceTo;
    TwoSyntaxes(env, symbols, k, p, op, O_FPR_C_FPR_C_FPR_C_FPR, O_FPR_C_FPR_C_FPR_C_FPR_C_RM);
    FourFloats(env, symbols, k, p, op);
    FourFloatsMode(env, symbols, k, p, op);
  }

  lemma MoveForms(env: Env, symbols: map<string, SymbolData>, k: nat, p: nat, op: Mnemonic)
    requires op.InFdR3?
    ensures LineOk(env, symbols, k, LookingAt(p), op) <==> IsForm(env, symbols, k, p, op)
  {
    hide HasOperands, SyntaxOk, LineOk, Address, EndsInMode, DistanceTo;
    if op.fdR3 == kfmv_w_x || op.fdR3 == kfmv_d_x {
      OneSyntax(env, symbols, k, p, op, O_FPR_C_GPR);
      ConvertFX(env, symbols, k, p, op);
    } else {
      OneSyntax(env, symbols, k, p, op, O_GPR_C_FPR);
      ConvertXF(env, symbols, k, p, op);
    }
  }

  lemma FloatMemoryForms(env: Env, symbols: map<string, SymbolData>, k: nat, p: nat, op: Mnemonic)
    requires op.InFdI? || op.InFdS?
    ensures LineOk(env, symbols, k, LookingAt(p), op) <==> IsForm(env, symbols, k, p, op)
  {
    hide HasOperands, SyntaxOk, LineOk, Address, EndsInMode, DistanceTo;
    OneSyntax(env, symbols, k, p, op, O_FPR_C_I_LP_GPR_RP);
    FloatAtAddress(env, symbols, k, p, op);
  }

  lemma RootForms(env: Env, symbols: map<string, SymbolData>, k: nat, p: nat, op: Mnemonic)
    requires op.InFdR2? && op.fdR2 in {kfsqrt_s, kfsqrt_d}
    ensures LineOk(env, symbols, k, LookingAt(p), op) <==> IsForm(env, symbols, k, p, op)
  {
    hide HasOperands, SyntaxOk, LineOk, Address, EndsInMode, DistanceTo;
    TwoSyntaxes(env, symbols, k, p, op, O_FPR_C_FPR, O_FPR_C_FPR_C_RM);
    ConvertFF(env, symbols, k, p, op);
    ConvertFFMode(env, symbols, k, p, op);
  }

  lemma ToIntegerForms(env: Env, symbols: map<string, SymbolData>, k: nat, p: nat, op: Mnemonic)
    requires op.InFdR2? && op.fdR2 in {kfcvt_w_s, kfcvt_wu_s, kfcvt_l_s, kfcvt_lu_s}
    ensures LineOk(env, symbols, k, LookingAt(p), op) <==> IsForm(env, symbols, k, p, op)
  {
    hide HasOperands, SyntaxOk, LineOk, Address, EndsInMode, DistanceTo;
    TwoSyntaxes(env, symbols, k, p, op, O_GPR_C_FPR, O_GPR_C_FPR_C_RM);
    ConvertXF(env, symbols, k, p, op);
    ConvertXFMode(env, symbols, k, p, op);
  }

  lemma PrecisionForms(env: Env, symbols: map<string, SymbolData>, k: nat, p: nat, op: Mnemonic)
    requires op.InFdR2? && op.fdR2 in {kfcvt_s_d, kfcvt_d_s}
    ensures LineOk(env, symbols, k, LookingAt(p), op) <==> IsForm(env, symbols, k, p, op)
  {
    hide HasOperands, SyntaxOk, LineOk, Address, EndsInMode, DistanceTo;
    TwoSyntaxes(env, symbols, k, p, op, O_FPR_C_FPR, O_GPR_C_FPR_C_RM);
    ConvertFF(env, symbols, k, p, op);
    ConvertXFMode(env, symbols, k, p, op);
  }

  lemma FromDoubleForms(env: Env, symbols: map<string, SymbolData>, k: nat, p: nat, op: Mnemonic)
    requires op.InFdR2? && op.fdR2 in {kfcvt_w_d, kfcvt_wu_d, kfcvt_l_d, kfcvt_lu_d}
    ensures LineOk(env, symbols, k, LookingAt(p), op) <==> IsForm(env, symbols, k, p, op)
  {
    hide HasOperands, SyntaxOk, LineOk, Address, EndsInMode, DistanceTo;
    TwoSyntaxes(env, symbols, k, p, op, O_GPR_C_FPR, O_FPR_C_GPR_C_RM);
    ConvertXF(env, symbols, k, p, op);
    ConvertFXMode(env, symbols, k, p, op);
  }

  lemma ToDoubleForms(env: Env, symbols: map<string, SymbolData>, k: nat, p: nat, op: Mnemonic)
    requires op.InFdR2? && op.fdR2 in {kfcvt_d_w, kfcvt_d_wu}
    ensures LineOk(env, symbols, k, LookingAt(p), op) <==> IsForm(env, symbols, k, p, op)
  {
    hide HasOperands, SyntaxOk, LineOk, Address, EndsInMode, DistanceTo;
    TwoSyntaxes(env, symbols, k, p, op, O_FPR_C_GPR, O_GPR_C_FPR_C_RM);
    ConvertFX(env, symbols, k, p, op);
    ConvertXFMode(env, symbols, k, p, op);
  }

  lemma FromIntegerForms(env: Env, symbols: map<string, SymbolData>, k: nat, p: nat, op: Mnemonic)
    requires op.InFdR2? && op.fdR2 in {kfcvt_s_w, kfcvt_s_wu, kfcvt_s_l, kfcvt_s_lu, kfcvt_d_l, kfcvt_d_lu}
    ensures LineOk(env, symbols, k, LookingAt(p), op) <==> IsForm(env, symbols, k, p, op)
  {
    hide HasOperands, SyntaxOk, LineOk, Address, EndsInMode, DistanceTo;
    TwoSyntaxes(env, symbols, k, p, op, O_FPR_C_GPR, O_FPR_C_GPR_C_RM);
    ConvertFX(env, symbols, k, p, op);
    ConvertFXMode(env, symbols, k, p, op);
  }

  lemma ConversionForms(env: Env, symbols: map<string, SymbolData>, k: nat, p: nat, op: Mnemonic)
    requires op.InFdR2?
    ensures LineOk(env, symbols, k, LookingAt(p), op) <==> IsForm(env, symbols, k, p, op)
  {
    hide LineOk, IsForm;
    match op.fdR2
    case kfsqrt_s | kfsqrt_d => RootForms(env, symbols, k, p, op);
    case kfcvt_w_s | kfcvt_wu_s | kfcvt_l_s | kfcvt_lu_s => ToIntegerForms(env, symbols, k, p, op);
    case kfcvt_s_d | kfcvt_d_s => PrecisionForms(env, symbols, k, p, op);
    case kfcvt_w_d | kfcvt_wu_d | kfcvt_l_d | kfcvt_lu_d => FromDoubleForms(env, symbols, k, p, op);
    case kfcvt_d_w | kfcvt_d_wu => ToDoubleForms(env, symbols, k, p, op);
    case _ => FromIntegerForms(env, symbols, k, p, op);
  }

  lemma AddressForms(env: Env, symbols: map<string, SymbolData>, k: nat, p: nat, op: Mnemonic)
    requires op.InNone? && op.other == kla
    ensures SyntaxOk(env, symbols, k, p, PSEUDO, op) <==> IsForm(env, symbols, k, p, op)
  {
    hide FitsLine, HasOperands, DistanceTo;
    Fits3(env, p, Gp, Com, Ref);
  }

  lemma ConstantForms(env: Env, symbols: map<string, SymbolData>, k: nat, p: nat, op: Mnemonic)
    requires op.InNone? && op.other == kli
    ensures SyntaxOk(env, symbols, k, p, PSEUDO, op) <==> IsForm(env, symbols, k, p, op)
  {
    hide FitsLine, HasOperands, DistanceTo;
    Fits3(env, p, Gp, Com, Number);
  }

  lemma CopyForms(env: Env, symbols: map<string, SymbolData>, k: nat, p: nat, op: Mnemonic)
    requires op.InNone? && (op.other == kmv || op.other == knot)
    ensures SyntaxOk(env, symbols, k, p, PSEUDO, op) <==> IsForm(env, symbols, k, p, op)
  {
    hide FitsLine, HasOperands, DistanceTo;
    Fits3(env, p, Gp, Com, Gp);
  }

  lemma ShortForms(env: Env, symbols: map<string, SymbolData>, k: nat, p: nat, op: Mnemonic)
    requires op.InNone? && (op.other == knop || op.other == kret)
    ensures SyntaxOk(env, symbols, k, p, PSEUDO, op) <==> IsForm(env, symbols, k, p, op)
  {
    hide FitsLine, HasOperands, DistanceTo;
    Fits0(env, p);
  }

  lemma PseudoForms(env: Env, symbols: map<string, SymbolData>, k: nat, p: nat, op: Mnemonic)
    requires op.InNone? && op.other != kfence && op.other != kfence_i
    ensures SyntaxOk(env, symbols, k, p, PSEUDO, op) <==> IsForm(env, symbols, k, p, op)
  {
    hide FitsLine, HasOperands, SyntaxOk, OtherForm;
    match op.other
    case kla => AddressForms(env, symbols, k, p, op);
    case kli => ConstantForms(env, symbols, k, p, op);
    case kmv | knot => CopyForms(env, symbols, k, p, op);
    case knop | kret => ShortForms(env, symbols, k, p, op);
    case _ => UnknownForms(env, symbols, k, p, op);
  }

  lemma UnknownForms(env: Env, symbols: map<string, SymbolData>, k: nat, p: nat, op: Mnemonic)
    requires op.InNone? && op.other !in {kla, kli, kmv, knot, knop, kret, kfence, kfence_i}
    ensures !SyntaxOk(env, symbols, k, p, PSEUDO, op) && !IsForm(env, symbols, k, p, op)
  {
    hide FitsLine, HasOperands;
  }

  lemma OtherForms(env: Env, symbols: map<string, SymbolData>, k: nat, p: nat, op: Mnemonic)
    requires op.InNone?
    ensures LineOk(env, symbols, k, LookingAt(p), op) <==> IsForm(env, symbols, k, p, op)
  {
    hide HasOperands, SyntaxOk, LineOk, IsDataLabel;
    if op.other == kfence || op.other == kfence_i {
      OneSyntax(env, symbols, k, p, op, O);
      BareForm(env, symbols, k, p, op);
    } else {
      OneSyntax(env, symbols, k, p, op, PSEUDO);
      PseudoForms(env, symbols, k, p, op);
    }
  }

  /**
   The operands a mnemonic takes are exactly those of the grammar: for every mnemonic, token list, position, symbols
   and instruction number.
   */
  lemma GrammarIff(env: Env, symbols: map<string, SymbolData>, k: nat, p: nat, op: Mnemonic)
    ensures LineOk(env, symbols, k, LookingAt(p), op) <==> IsForm(env, symbols, k, p, op)
  {
    hide LineOk, IsForm;
    match op
    case InR(_) => RegisterForms(env, symbols, k, p, op);
    case InI1(name) =>
      if name in {kaddi, kxori, kori, kandi, kslti, ksltiu, kaddiw} { ImmediateForms(env, symbols, k, p, op); } else { LoadForms(env, symbols, k, p, op); }
    case InI2(_) => ShiftForms(env, symbols, k, p, op);
    case InI3(_) => SystemForms(env, symbols, k, p, op);
    case InS(_) => StoreForms(env, symbols, k, p, op);
    case InB(_) => BranchForms(env, symbols, k, p, op);
    case InU(_) => UpperForms(env, symbols, k, p, op);
    case InJ(_) => LinkForms(env, symbols, k, p, op);
    case InCsrR(_) => SystemForms(env, symbols, k, p, op);
    case InCsrI(_) => SystemForms(env, symbols, k, p, op);
    case InFdR(_) => FloatForms(env, symbols, k, p, op);
    case InFdR1(_) => RoundedForms(env, symbols, k, p, op);
    case InFdR2(_) => ConversionForms(env, symbols, k, p, op);
    case InFdR3(_) => MoveForms(env, symbols, k, p, op);
    case InFdR4(_) => FusedForms(env, symbols, k, p, op);
    case InFdI(_) => FloatMemoryForms(env, symbols, k, p, op);
    case InFdS(_) => FloatMemoryForms(env, symbols, k, p, op);
    case InNone(_) => OtherForms(env, symbols, k, p, op);
  }
}
