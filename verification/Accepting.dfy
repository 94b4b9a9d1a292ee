/**
 Which programs the assembler accepts. Everything else that is proved about whole programs starts from there being
 no errors; here that is a condition on the tokens.
 */
module Accepting {
  import opened Words
  import opened Instructions
  import opened Tokens
  import opened ParserState
  import opened Acceptance
  import opened OneLine
  import opened TextSource
  import Assembly
  import DataSource
  import DataTheorems
  import EndToEnd
  import Grammar
  import PassOne
  import TextPass

  lemma {:induction false} NoDataErrors(tokens: seq<Token>, n: nat)
    ensures DataSource.ErrorsBefore(tokens, n) == [] <==> forall p :: 0 <= p < n ==> !DataSource.IsDataError(tokens, p)
    decreases n
  {
    hide DataSource.IsDataError;
    if n > 0 { NoDataErrors(tokens, n - 1); }
  }

  lemma {:induction false} NoTextErrors(env: Env, start: Progress, n: nat)
    ensures |start.errors| <= |TextBefore(env, start, n).errors|
    ensures |TextBefore(env, start, n).errors| == |start.errors| <==>
      forall p :: 0 <= p < n ==> !IsTextError(env, TextBefore(env, start, p), p)
    decreases n
  {
    hide IsTextError, LineLength, JumpsAt, IsStatementAt;
    if n > 0 { NoTextErrors(env, start, n - 1); }
  }

  /** No token is in error in either pass, and every open jump reaches its label. */
  predicate IsProgram(env: Env) {
    && PassOne.NothingStuck(env.tokens)
    && (forall p :: 0 <= p < |env.tokens| ==> !DataSource.IsDataError(env.tokens, p))
    && (forall p :: 0 <= p < |env.tokens| ==> !IsTextError(env, ProgressAt(env, p), p))
    && (forall k :: 0 <= k < |Outcome(env).jumps| ==> Reaches(Outcome(env).symbols, Outcome(env).jumps[k]))
  }

  lemma OutcomeErrors(env: Env)
    ensures Outcome(env).errors == [] <==>
      && DataSource.ErrorsBefore(env.tokens, |env.tokens|) == []
      && forall p :: 0 <= p < |env.tokens| ==> !IsTextError(env, ProgressAt(env, p), p)
  {
    hide IsTextError, TextBefore, DataSource.ErrorsBefore, DataSource.SymbolsBefore;
    NoTextErrors(env, Start(env), |env.tokens|);
    var n := |env.tokens|;
    if Outcome(env).errors == [] {
      forall p | 0 <= p < n ensures !IsTextError(env, ProgressAt(env, p), p) {
        assert !IsTextError(env, TextBefore(env, Start(env), p), p);
      }
    }
    if forall p :: 0 <= p < n ==> !IsTextError(env, ProgressAt(env, p), p) {
      forall p | 0 <= p < n ensures !IsTextError(env, TextBefore(env, Start(env), p), p) {
        assert !IsTextError(env, ProgressAt(env, p), p);
      }
    }
    assert Outcome(env) == TextBefore(env, Start(env), |env.tokens|);
    assert |Outcome(env).errors| == 0 <==> Outcome(env).errors == [];
    assert |Start(env).errors| == 0 <==> Start(env).errors == [];
  }

  /**
   The assembler accepts exactly the programs: no label or mnemonic is named like a section; the tokens of the data
   sections are labels before directives, and directives with values; each statement of the text is a new label, or a
   mnemonic with operands of its grammar; and the jumps reach.
   */
  lemma AcceptedIff(env: Env)
    requires PassOne.EofTerminated(env.tokens)
    ensures EndToEnd.Accepted(env) <==> IsProgram(env)
  {
    hide Assembly.Parse, DataSource.ErrorsBefore, DataSource.IsDataError, Outcome, ProgressAt, JumpErrors,
      Reaches, IsTextError, Assembly.WellAssembled;
    if PassOne.NothingStuck(env.tokens) {
      var x := Outcome(env);
      ErrorsAreThose(env);
      Assembly.ParseIsWellAssembled(env);
      NoDataErrors(env.tokens, |env.tokens|);
      OutcomeErrors(env);
      NoJumpErrors(x.symbols, x.jumps);
      NothingIn(x.errors, JumpErrors(x.symbols, x.jumps));
    }
  }

  lemma NothingIn(s: seq<nat>, t: seq<nat>)
    ensures |s + t| == 0 <==> s == [] && t == []
  {
  }

  /*
   * The back-patching by itself.
   */

  /** The open jumps that a state lists. */
  function OpenJumps(s: State): (jumps: seq<OpenJump>)
    requires TextPass.InRange(s, s.backPatch)
    ensures |jumps| == |s.backPatch|
  {
    seq(|s.backPatch|, k requires 0 <= k < |s.backPatch| =>
      var u := s.code[s.backPatch[k]].0; OpenJump(s.backPatch[k], u.op, u.target, u.line))
  }

  /** Addresses and instruction numbers are small enough for their differences to need no wrapping around. */
  predicate SmallAddresses(s: State) {
    4 * |s.code| <= TWO32 && forall name <- s.symbols :: s.symbols[name].address < TWO63
  }

  /** Unit `i` is a branch to a text label, or a link to any label, that is near enough. */
  predicate InDistance(s: State, i: nat) {
    && i < |s.code| && s.code[i].0.target in s.symbols
    && var u, symbol := s.code[i].0, s.symbols[s.code[i].0.target];
       || (u.op.InB? && !symbol.isData && -4096 <= symbol.address - 4 * i <= 4095)
       || (u.op.InJ? && -1048576 <= symbol.address - 4 * i <= 1048575)
  }

  lemma DistanceInReach(s: State, i: nat)
    requires SmallAddresses(s) && i < |s.code|
    ensures var u := s.code[i].0; Reaches(s.symbols, OpenJump(i, u.op, u.target, u.line)) <==> InDistance(s, i)
  {
    var u := s.code[i].0;
    if u.target in s.symbols {
      assert 4 * i % TWO32 == 4 * i;
      EndToEnd.SmallInt64(s.symbols[u.target].address - 4 * i);
    }
  }

  /**
   Back-patching adds no error exactly when every open unit is a branch to a text label, or a link to any label, at a
   distance that its format holds.
   */
  lemma PatchingAcceptsIff(env: Env)
    requires PassOne.NothingStuck(env.tokens) && SmallAddresses(Assembly.AfterPassTwo(env))
    ensures Assembly.Parse(env).errors == Assembly.AfterPassTwo(env).errors <==>
      forall i <- Assembly.AfterPassTwo(env).backPatch :: InDistance(Assembly.AfterPassTwo(env), i)
  {
    hide Assembly.AfterPassTwo, Assembly.Ordered, Assembly.Placed, Assembly.Aimed, DataTheorems.Collected, TextPass.PatchAll,
      JumpErrors, Reaches, InDistance, SmallAddresses;
    Assembly.PassesKept(env);
    var two := Assembly.AfterPassTwo(env);
    var jumps := OpenJumps(two);
    assert Lists(two, two.backPatch, jumps);
    PatchAllReports(two, two.backPatch, jumps);
    NoJumpErrors(two.symbols, jumps);
    forall k | 0 <= k < |jumps| ensures Reaches(two.symbols, jumps[k]) <==> InDistance(two, two.backPatch[k]) {
      DistanceInReach(two, two.backPatch[k]);
    }
    NoMoreErrors(two.errors, JumpErrors(two.symbols, jumps));
  }

  lemma NoMoreErrors(s: seq<nat>, t: seq<nat>)
    ensures s + t == s <==> t == []
  {
    if s + t == s { assert |s + t| == |s| + |t|; }
  }

  /*
   * One line.
   */

  /** The line is the only statement, and the rest of it adds nothing. */
  lemma {:induction false} OnlyStatement(env: Env, op: Mnemonic, start: Progress, p: nat)
    requires IsOneLine(env.tokens, op) && 1 <= p < |env.tokens|
    ensures PlaceAt(env.tokens, p) == Line(env.tokens[0].line)
    ensures TextBefore(env, start, p) == Read(env, start, 0)
    ensures p < |env.tokens| - 1 ==> !IsTextError(env, TextBefore(env, start, p), p)
    decreases p
  {
    hide IsTextError, InstructionOk, JumpsAt, LineLength;
    if p == 1 {
      assert PlaceAt(env.tokens, 0) == Top;
      assert TextBefore(env, start, 0) == start;
    } else {
      OnlyStatement(env, op, start, p - 1);
      NothingRead(env, TextBefore(env, start, p - 1), p - 1);
    }
    if p < |env.tokens| - 1 { RestIsNoStatement(env, TextBefore(env, start, p), p); }
  }

  lemma RestIsNoStatement(env: Env, x: Progress, p: nat)
    requires PlaceAt(env.tokens, p) == Line(TokenAt(env.tokens, p).line)
    ensures !IsTextError(env, x, p)
  {
    hide InstructionOk;
  }

  lemma {:induction false} NoDataInLine(tokens: seq<Token>, op: Mnemonic, p: nat)
    requires IsOneLine(tokens, op) && 1 <= p < |tokens|
    ensures DataSource.ModeAt(tokens, p) == DataSource.OfText && DataSource.SymbolsBefore(tokens, p) == map[]
    ensures !DataSource.IsDataError(tokens, p) && !DataSource.IsDataError(tokens, 0)
    decreases p
  {
    if p == 1 {
      assert DataSource.ModeAt(tokens, 0) == DataSource.Top;
      assert DataSource.SymbolsBefore(tokens, 0) == map[];
    } else {
      NoDataInLine(tokens, op, p - 1);
    }
  }

  /**
   A program of one instruction line is accepted exactly when the mnemonic's extension is enabled, the line is of its
   grammar, and it names no label to go to, as there is none.
   */
  lemma OneLineAcceptedIff(env: Env, op: Mnemonic)
    requires IsOneLine(env.tokens, op)
    ensures EndToEnd.Accepted(env) <==>
      && (IsMExtension(op) ==> env.mExtension) && TargetAt(env, 0, op).None?
      && Grammar.IsForm(env, map[], 0, 0, op)
  {
    hide InstructionOk, TargetAt, ProgressAt, Outcome, Start, DataSource.IsDataError, IsTextError, Reaches;
    AcceptedIff(env);
    OneLineStart(env, op);
    OneLineOutcome(env, op);
    FirstPassSkips(env, op);
    LineAtStart(env, op);
    if InstructionOk(env, Start(env), 0, op) && TargetAt(env, 0, op).Some? {
      NothingReaches(Outcome(env).jumps[0]);
      assert !Reaches(Outcome(env).symbols, Outcome(env).jumps[0]);
    }
  }

  lemma LineAtStart(env: Env, op: Mnemonic)
    requires Start(env).symbols == map[] && Start(env).index == 0
    ensures InstructionOk(env, Start(env), 0, op) <==> (IsMExtension(op) ==> env.mExtension) && Grammar.IsForm(env, map[], 0, 0, op)
  {
    hide IsMExtension, Grammar.IsForm, Start;
  }

  lemma NothingReaches(j: OpenJump)
    ensures !Reaches(map[], j)
  {
  }

  lemma OneLineStart(env: Env, op: Mnemonic)
    requires IsOneLine(env.tokens, op)
    ensures Start(env).symbols == map[] && Start(env).jumps == [] && Start(env).index == 0
    ensures forall p :: 0 <= p < |env.tokens| ==> !DataSource.IsDataError(env.tokens, p)
  {
    hide DataSource.IsDataError, DataSource.SymbolsBefore, DataSource.ErrorsBefore, DataSource.IsDataLabelAt;
    var n := |env.tokens|;
    forall p | 0 <= p < n ensures !DataSource.IsDataError(env.tokens, p) { NoDataInLine(env.tokens, op, if p == 0 then 1 else p); }
    NoDataInLine(env.tokens, op, n - 1);
    DataSource.NothingAfterEof(env.tokens, n);
  }

  lemma OneLineOutcome(env: Env, op: Mnemonic)
    requires IsOneLine(env.tokens, op) && Start(env).symbols == map[] && Start(env).jumps == [] && Start(env).index == 0
    ensures (forall p :: 0 <= p < |env.tokens| ==> !IsTextError(env, ProgressAt(env, p), p)) <==> InstructionOk(env, Start(env), 0, op)
    ensures InstructionOk(env, Start(env), 0, op) ==>
      && Outcome(env).symbols == map[]
      && Outcome(env).jumps == if TargetAt(env, 0, op).None? then [] else [OpenJump(0, op, TargetAt(env, 0, op).value, env.tokens[0].line)]
  {
    hide InstructionOk, TargetAt, TextBefore, IsTextError, Start, LineLength;
    var n, start := |env.tokens|, Start(env);
    FirstToken(env, op, start);
    forall p | 1 <= p < n ensures !IsTextError(env, ProgressAt(env, p), p) {
      OnlyStatement(env, op, start, p);
      if p == n - 1 { TextSource.EofAddsNothing(env, TextBefore(env, start, p), p); }
    }
    OnlyStatement(env, op, start, n - 1);
    TextSource.NothingAfterEof(env, start, n);
    assert Outcome(env) == Read(env, start, 0);
    assert IsTextError(env, ProgressAt(env, 0), 0) == IsTextError(env, start, 0);
    if InstructionOk(env, start, 0, op) { FirstJump(env, op, start); }
  }

  lemma FirstJump(env: Env, op: Mnemonic, start: Progress)
    requires start.symbols == map[] && start.index == 0 && start.jumps == [] && |env.tokens| > 0
    ensures start.jumps + JumpsAt(env, start, 0, op) ==
      if TargetAt(env, 0, op).None? then [] else [OpenJump(0, op, TargetAt(env, 0, op).value, env.tokens[0].line)]
  {
    hide TargetAt;
  }

  lemma FirstToken(env: Env, op: Mnemonic, start: Progress)
    requires IsOneLine(env.tokens, op)
    ensures TextBefore(env, start, 0) == start
    ensures IsTextError(env, start, 0) <==> !InstructionOk(env, start, 0, op)
    ensures InstructionOk(env, start, 0, op) ==>
      Read(env, start, 0) == start.(index := start.index + LineLength(env, LookingAt(0), op), jumps := start.jumps + JumpsAt(env, start, 0, op))
  {
    hide InstructionOk, JumpsAt, LineLength;
    assert PlaceAt(env.tokens, 0) == Top;
  }
}
