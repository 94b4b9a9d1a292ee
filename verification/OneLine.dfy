/**
 Programs of a single instruction line: if its operands parse, the program is accepted and its code is what
 they yield.
 */
module OneLine {
  import opened Instructions
  import opened Units
  import opened Tokens
  import opened ParserState
  import opened Operands
  import opened TextPass
  import PassOne
  import Assembly
  import EndToEnd
  import Provenance

  /** A mnemonic, its operands on the same line, and the end of file. */
  predicate IsOneLine(tokens: seq<Token>, op: Mnemonic) {
    && PassOne.EofTerminated(tokens) && |tokens| >= 2 && tokens[0].kind == Opcode(op)
    && forall i :: 0 <= i < |tokens| - 1 ==> tokens[i].line == tokens[0].line && !IsDataWord(tokens[i].value)
  }

  lemma {:induction false} SkipsAll(tokens: seq<Token>, p: nat)
    requires PassOne.EofTerminated(tokens) && p < |tokens|
    requires forall i :: p <= i < |tokens| - 1 ==> !IsDataWord(tokens[i].value)
    ensures SkipTo(tokens, p, SkippedText) == |tokens| - 1
    decreases |tokens| - p
  {
    if p < |tokens| - 1 { SkipsAll(tokens, p + 1); }
  }

  lemma {:induction false} LineIsAll(tokens: seq<Token>, p: nat, line: nat)
    requires PassOne.EofTerminated(tokens) && p < |tokens|
    requires forall i :: p <= i < |tokens| - 1 ==> tokens[i].line == line
    ensures LineEnd(tokens, p, line) == |tokens| - 1
    decreases |tokens| - p
  {
    if p < |tokens| - 1 { LineIsAll(tokens, p + 1, line); }
  }

  predicate AllComplete(units: seq<(Unit, bool)>) { forall k :: 0 <= k < |units| ==> units[k].1 }

  lemma {:induction false} CompleteUnitsAreNotOpen(s: State, units: seq<(Unit, bool)>)
    requires AllComplete(units)
    ensures var r := AppendAll(s, units);
      && r.backPatch == s.backPatch && r.errors == s.errors && r.errorCount == s.errorCount && r.pos == s.pos
      && r.dataBuffer == s.dataBuffer && r.symbols == s.symbols && r.events == s.events && r.marks == s.marks
    decreases |units|
  {
    if units != [] { CompleteUnitsAreNotOpen(Append(s, units[0].0, units[0].1), units[1..]); }
  }

  lemma FirstPassSkips(env: Env, op: Mnemonic)
    requires IsOneLine(env.tokens, op)
    ensures PassOne.NothingStuck(env.tokens) && Assembly.AfterPassOne(env) == START.(pos := |env.tokens| - 1)
  {
    var tokens := env.tokens;
    assert tokens[|tokens| - 1].kind.Eof?;
    forall t | t in tokens ensures !PassOne.IsStuck(t) {
      var i :| 0 <= i < |tokens| && tokens[i] == t;
    }
    SkipsAll(tokens, 0);
    var r := START.(pos := |tokens| - 1);
    assert PassOne.PassOneStep(env, START) == r;
    assert PassOne.Run(env, r) == r;
  }

  lemma SecondPassParses(env: Env, op: Mnemonic, units: seq<(Unit, bool)>)
    requires IsOneLine(env.tokens, op) && !IsMExtension(op) && AllComplete(units)
    requires ParseAny(env, START, Syntaxes(op), op) == Parsed(units)
    ensures PassTwo(env, START) == AppendAll(START, units).(pos := |env.tokens| - 1)
  {
    hide ParseAny, Syntaxes, AppendAll, IsMExtension;
    var s := AppendAll(START, units);
    var r := s.(pos := |env.tokens| - 1);
    CompleteUnitsAreNotOpen(START, units);
    LineIsAll(env.tokens, 0, env.tokens[0].line);
    assert s.(pos := START.pos) == s;
    assert TextStep(env, START) == r;
    assert TextSection(env, r) == r;
    assert PassTwoStep(env, START) == r;
  }

  /** What the program's state is after parsing. */
  lemma OneLineProgram(env: Env, op: Mnemonic, units: seq<(Unit, bool)>)
    requires IsOneLine(env.tokens, op) && !IsMExtension(op) && AllComplete(units)
    requires ParseAny(env, START, Syntaxes(op), op) == Parsed(units)
    ensures EndToEnd.Accepted(env) && Assembly.Parse(env) == AppendAll(START, units).(pos := |env.tokens| - 1)
    ensures Assembly.Parse(env).code == units && Assembly.Parse(env).dataBuffer == []
    ensures |Assembly.Parse(env).origins| == |units| && forall k :: 0 <= k < |units| ==> Assembly.Parse(env).origins[k] == 0
  {
    hide ParseAny, Syntaxes, AppendAll, IsMExtension, PassTwo, Assembly.AfterPassOne;
    FirstPassSkips(env, op);
    assert Assembly.Rewound(Assembly.AfterPassOne(env)) == START;
    SecondPassParses(env, op, units);
    CompleteUnitsAreNotOpen(START, units);
    Provenance.AppendAllIs(START, units);
  }
}
