/**
 The first pass of `parse` in src/assembler/parser.cpp, and when it ends. Its loop is the only one of
 the parser that can run forever.
 */
module PassOne {
  import opened Text
  import opened Tokens
  import opened ParserState
  import opened DataPass
  import opened TextPass

  /** One iteration of the first pass, which collects the data. */
  function PassOneStep(env: Env, s: State): (r: State)
    requires !Current(env, s).kind.Eof?
    ensures s.pos <= r.pos <= |env.tokens|
    ensures s.pos == r.pos ==> IsStuck(Current(env, s))
  {
    var t := Current(env, s);
    if IsDirective(t, "section") then Next(env, s)
    else if IsDirective(t, "data") then DataSection(env, Next(env, s))
    else if IsDirective(t, "bss") then BssSection(env, Next(env, s))
    else if IsDirective(t, "text") || t.kind.Label? || t.kind.Opcode? then
      s.(pos := SkipTo(env.tokens, s.pos, SkippedText))
    else Next(env, Fail(s, t.line))
  }

  /** A label or mnemonic at which the first pass cannot move: its own skipping loop stops there at once. */
  predicate IsStuck(t: Token) { (t.kind.Label? || t.kind.Opcode?) && IsDataWord(t.value) }

  predicate NothingStuck(tokens: seq<Token>) { forall t <- tokens :: !IsStuck(t) }

  /** The first pass, where it ends. */
  function Run(env: Env, s: State): (r: State)
    requires NothingStuck(env.tokens)
    ensures Current(env, r).kind.Eof?
    decreases |env.tokens| - s.pos
  {
    if Current(env, s).kind.Eof? then s else Run(env, PassOneStep(env, s))
  }

  /** The state after at most `n` iterations. */
  function Iterations(env: Env, s: State, n: nat): State
    decreases n
  {
    if n == 0 || Current(env, s).kind.Eof? then s else Iterations(env, PassOneStep(env, s), n - 1)
  }

  /** What the lexer delivers: an end of file, and only at the end. */
  predicate EofTerminated(tokens: seq<Token>) {
    && tokens != [] && tokens[|tokens| - 1].kind.Eof?
    && forall i :: 0 <= i < |tokens| - 1 ==> !tokens[i].kind.Eof?
  }

  lemma {:induction false} RunIsReached(env: Env, s: State)
    requires NothingStuck(env.tokens)
    ensures exists n: nat :: Iterations(env, s, n) == Run(env, s)
    decreases |env.tokens| - s.pos
  {
    if Current(env, s).kind.Eof? {
      assert Iterations(env, s, 0) == Run(env, s);
    } else {
      var r := PassOneStep(env, s);
      RunIsReached(env, r);
      var n: nat :| Iterations(env, r, n) == Run(env, r);
      assert Iterations(env, s, n + 1) == Run(env, s);
    }
  }

  /*
   * No loop steps over a token at which the pass is stuck.
   */

  predicate StuckAt(tokens: seq<Token>, i: nat) { i < |tokens| && IsStuck(tokens[i]) }

  lemma {:induction false} ValuesStay(env: Env, s: State, d: DataDirective, i: nat)
    requires s.pos <= i && StuckAt(env.tokens, i)
    ensures Values(env, s, d).pos <= i
    decreases |env.tokens| - s.pos
  {
    var t := Current(env, s);
    if Accepts(d, t.kind) {
      EmitValueKeepsPos(s, d, t);
      ValuesStay(env, Next(env, EmitValue(s, d, t)), d, i);
    } else if t.kind.Comma? {
      ValuesStay(env, Next(env, s), d, i);
    }
  }

  lemma {:induction false} DataStays(env: Env, s: State, i: nat)
    requires s.pos <= i && StuckAt(env.tokens, i)
    ensures DataSection(env, s).pos <= i
    decreases |env.tokens| - s.pos
  {
    var t := Current(env, s);
    if DataEnds(t) {
    } else {
      assert s.pos < i;
      if !t.kind.Label? && DirectiveOf(t.value).Some? {
        ValuesStay(env, Next(env, s), DirectiveOf(t.value).value, i);
      }
      DataStays(env, DataStep(env, s), i);
    }
  }

  lemma {:induction false} BssStays(env: Env, s: State, i: nat)
    requires s.pos <= i && StuckAt(env.tokens, i)
    ensures BssSection(env, s).pos <= i
    decreases |env.tokens| - s.pos
  {
    if DataEnds(Current(env, s)) {
    } else {
      BssStays(env, Next(env, s), i);
    }
  }

  lemma {:induction false} SkipStays(tokens: seq<Token>, pos: nat, i: nat)
    requires pos <= i && StuckAt(tokens, i)
    ensures SkipTo(tokens, pos, SkippedText) <= i
    decreases |tokens| - pos
  {
    var t := TokenAt(tokens, pos);
    if !t.kind.Eof? && !Ends(SkippedText, t.value) { SkipStays(tokens, pos + 1, i); }
  }

  lemma StepStays(env: Env, s: State, i: nat)
    requires s.pos <= i && StuckAt(env.tokens, i) && !Current(env, s).kind.Eof?
    ensures PassOneStep(env, s).pos <= i
  {
    SkipStays(env.tokens, s.pos, i);
    if s.pos < i {
      DataStays(env, Next(env, s), i);
      BssStays(env, Next(env, s), i);
    }
  }

  lemma {:induction false} IterationsStay(env: Env, s: State, i: nat, n: nat)
    requires s.pos <= i && StuckAt(env.tokens, i)
    ensures Iterations(env, s, n).pos <= i
    decreases n
  {
    if n == 0 || Current(env, s).kind.Eof? {
    } else {
      StepStays(env, s, i);
      IterationsStay(env, PassOneStep(env, s), i, n - 1);
    }
  }

  /**
   The first pass reaches the end of file exactly when no label or mnemonic token is named `data`,
   `section` or `bss`.
   */
  lemma EndsIff(env: Env)
    requires EofTerminated(env.tokens)
    ensures (exists n: nat :: Current(env, Iterations(env, START, n)).kind.Eof?) <==> NothingStuck(env.tokens)
  {
    if NothingStuck(env.tokens) {
      RunIsReached(env, START);
    } else {
      var t :| t in env.tokens && IsStuck(t);
      var i :| 0 <= i < |env.tokens| && env.tokens[i] == t;
      forall n: nat ensures !Current(env, Iterations(env, START, n)).kind.Eof? {
        IterationsStay(env, START, i, n);
      }
    }
  }
}
