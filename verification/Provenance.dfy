/**
 Where the intermediate code comes from: it is made of the blocks of units that the lines of the text
 sections yield, each read when as many instructions had been made as stand before the block.
 */
module Provenance {
  import opened Instructions
  import opened Units
  import opened Tokens
  import opened ParserState
  import opened Operands
  import opened OperandTheorems
  import opened TextPass
  import opened Assembly
  import DataTheorems
  import PassOne

  /** The symbols of `s` are among those of `r`. */
  predicate SubSymbols(s: map<string, SymbolData>, r: map<string, SymbolData>) {
    forall name <- s :: name in r && r[name] == s[name]
  }

  /** Instructions `b` to `b + n` come from the token at `p`, and the ones before them from earlier tokens. */
  predicate ComeFrom(origins: seq<nat>, b: nat, n: nat, p: nat) {
    && b + n <= |origins|
    && (forall q :: b <= q < b + n ==> origins[q] == p)
    && (forall q :: 0 <= q < b ==> origins[q] < p)
  }

  /** Unit `i` is number `j` of the block that state `t` read with this syntax. */
  predicate BlockAt(env: Env, s: State, i: nat, t: State, syntax: SyntaxType, j: nat) {
    && i < |s.origins| && t.pos == s.origins[i] < |env.tokens| && env.tokens[t.pos].kind.Opcode?
    && j <= i && t.instructionIndex == i - j && SubSymbols(t.symbols, s.symbols)
    && Applies(env, t, syntax, env.tokens[t.pos].kind.op)
    && var p := Build(env, t, syntax, env.tokens[t.pos].kind.op);
       && p.Parsed? && j < |p.units|
       && i - j + |p.units| <= |s.code| && s.code[i - j..i - j + |p.units|] == p.units
       && ComeFrom(s.origins, i - j, |p.units|, t.pos)
  }

  ghost predicate Sourced(env: Env, s: State) {
    && |s.origins| == |s.code|
    && forall i :: 0 <= i < |s.code| ==> HasBlock(env, s, i)
  }

  ghost predicate HasBlock(env: Env, s: State, i: nat) {
    exists t: State, syntax: SyntaxType, j: nat :: BlockAt(env, s, i, t, syntax, j)
  }

  lemma BlockStays(env: Env, s: State, r: State, i: nat, t: State, syntax: SyntaxType, j: nat)
    requires BlockAt(env, s, i, t, syntax, j)
    requires s.code <= r.code && s.origins <= r.origins && SubSymbols(s.symbols, r.symbols)
    ensures BlockAt(env, r, i, t, syntax, j)
  {
    hide Applies, Build;
    var p := Build(env, t, syntax, env.tokens[t.pos].kind.op);
    assert r.code[i - j..i - j + |p.units|] == s.code[i - j..i - j + |p.units|];
  }

  lemma HasBlockStays(env: Env, s: State, r: State, i: nat)
    requires HasBlock(env, s, i)
    requires s.code <= r.code && s.origins <= r.origins && SubSymbols(s.symbols, r.symbols)
    ensures HasBlock(env, r, i)
  {
    hide BlockAt;
    var t: State, syntax: SyntaxType, j: nat :| BlockAt(env, s, i, t, syntax, j);
    BlockStays(env, s, r, i, t, syntax, j);
  }

  lemma SameCodeSourced(env: Env, s: State, r: State)
    requires Sourced(env, s) && r.code == s.code && r.origins == s.origins && SubSymbols(s.symbols, r.symbols)
    ensures Sourced(env, r)
  {
    hide HasBlock;
    forall i | 0 <= i < |r.code| ensures HasBlock(env, r, i) { HasBlockStays(env, s, r, i); }
  }

  lemma {:induction false} AppendAllIs(s: State, units: seq<(Unit, bool)>)
    ensures var r := AppendAll(s, units);
      && r.code == s.code + units && r.symbols == s.symbols
      && |r.origins| == |s.origins| + |units| && s.origins <= r.origins
      && forall k :: |s.origins| <= k < |r.origins| ==> r.origins[k] == s.pos
    decreases |units|
  {
    if units == [] {
    } else {
      AppendAllIs(Append(s, units[0].0, units[0].1), units[1..]);
      assert [units[0]] + units[1..] == units;
    }
  }

  lemma BlockAppended(env: Env, s: State, r: State, op: Mnemonic, syntax: SyntaxType, i: nat)
    requires s.pos < |env.tokens| && env.tokens[s.pos].kind == Opcode(op) && s.instructionIndex == |s.code| == |s.origins|
    requires Before(s)
    requires Applies(env, s, syntax, op) && Build(env, s, syntax, op).Parsed?
    requires var units := Build(env, s, syntax, op).units;
      && r.code == s.code + units && r.symbols == s.symbols && |r.origins| == |r.code| && s.origins <= r.origins
      && forall k :: |s.origins| <= k < |r.origins| ==> r.origins[k] == s.pos
    requires |s.code| <= i < |r.code|
    ensures BlockAt(env, r, i, s, syntax, i - |s.code|)
  {
    hide Applies, Build;
    var units := Build(env, s, syntax, op).units;
    assert r.code[|s.code|..|s.code| + |units|] == units;
  }

  lemma InstructionSourced(env: Env, s: State, op: Mnemonic)
    requires Sourced(env, s) && Kept(env, s) && Before(s) && Current(env, s).kind == Opcode(op)
    ensures Sourced(env, Instruction(env, s, op))
  {
    hide HasBlock, BlockAt, ParseAny, AppendAll, IsMExtension, Syntaxes, Applies, Build, Ordered, Placed, Aimed;
    var r := Instruction(env, s, op);
    var parsed := ParseAny(env, s, Syntaxes(op), op);
    if (IsMExtension(op) && !env.mExtension) || !parsed.Parsed? {
      SameCodeSourced(env, s, r);
    } else {
      ParseAnyYields(env, s, Syntaxes(op), op);
      var syntax: SyntaxType :| Applies(env, s, syntax, op) && Build(env, s, syntax, op) == parsed;
      AppendAllIs(s, parsed.units);
      forall i | 0 <= i < |r.code| ensures HasBlock(env, r, i) {
        if i < |s.code| {
          HasBlockStays(env, s, r, i);
        } else {
          BlockAppended(env, s, r, op, syntax, i);
          BlockIsBlock(env, r, i, s, syntax, i - |s.code|);
        }
      }
    }
  }

  lemma BlockIsBlock(env: Env, s: State, i: nat, t: State, syntax: SyntaxType, j: nat)
    requires BlockAt(env, s, i, t, syntax, j)
    ensures HasBlock(env, s, i)
  {
    hide BlockAt;
  }

  lemma TextStepSourced(env: Env, s: State)
    requires Sourced(env, s) && Kept(env, s) && Before(s) && !TextEnds(Current(env, s))
    ensures Sourced(env, TextStep(env, s))
  {
    hide Sourced, Instruction, Counted, Ordered, Placed, Aimed;
    var t := Current(env, s);
    if t.kind.Opcode? {
      InstructionSourced(env, s, t.kind.op);
    } else {
      SameCodeSourced(env, s, TextStep(env, s));
    }
  }

  lemma {:induction false} TextSectionSourced(env: Env, s: State)
    requires Sourced(env, s) && Kept(env, s) && Before(s)
    ensures Sourced(env, TextSection(env, s))
    decreases |env.tokens| - s.pos
  {
    hide Sourced, TextStep, Kept, Before;
    if TextEnds(Current(env, s)) {
    } else {
      TextStepSourced(env, s);
      TextStepKept(env, s);
      TextSectionSourced(env, TextStep(env, s));
    }
  }

  lemma PassTwoStepSourced(env: Env, s: State)
    requires Sourced(env, s) && Kept(env, s) && Before(s) && !Current(env, s).kind.Eof?
    ensures Sourced(env, PassTwoStep(env, s))
  {
    hide Sourced, TextSection, Kept, Before;
    var t := Current(env, s);
    var next := Next(env, s);
    if IsDirective(t, "text") {
      assert next == s.(pos := next.pos);
      MoveKept(env, s, next);
      SameCodeSourced(env, s, next);
      TextSectionSourced(env, next);
    } else if t.kind.Label? || t.kind.Opcode? {
      TextSectionSourced(env, s);
    } else {
      SameCodeSourced(env, s, PassTwoStep(env, s));
    }
  }

  lemma {:induction false} PassTwoSourced(env: Env, s: State)
    requires Sourced(env, s) && Kept(env, s) && Before(s)
    ensures Sourced(env, PassTwo(env, s))
    decreases |env.tokens| - s.pos
  {
    hide Sourced, PassTwoStep, Kept, Before;
    if Current(env, s).kind.Eof? {
    } else {
      PassTwoStepSourced(env, s);
      PassTwoStepKept(env, s);
      PassTwoSourced(env, PassTwoStep(env, s));
    }
  }

  /**
   After both passes the code consists of the blocks its lines yield; back-patching changes no unit that
   was complete by then, no symbol and no origin.
   */
  lemma ParseIsSourced(env: Env)
    requires PassOne.NothingStuck(env.tokens)
    ensures Sourced(env, AfterPassTwo(env))
    ensures Parse(env).origins == AfterPassTwo(env).origins && Parse(env).symbols == AfterPassTwo(env).symbols
    ensures |Parse(env).code| == |AfterPassTwo(env).code|
    ensures forall i :: 0 <= i < |Parse(env).code| && AfterPassTwo(env).code[i].1 ==>
      Parse(env).code[i] == AfterPassTwo(env).code[i]
  {
    hide Sourced, AfterPassOne, AfterPassTwo, PatchOne, Ordered, Placed, Aimed, Before, DataTheorems.Collected;
    PassesKept(env);
    var two := AfterPassTwo(env);
    TwoIsSourced(env);
    PatchAllFrame(two, two.backPatch);
    forall i | 0 <= i < |Parse(env).code| && two.code[i].1 ensures Parse(env).code[i] == two.code[i] {
      PatchAllElsewhere(two, two.backPatch, i);
    }
  }

  lemma TwoIsSourced(env: Env)
    requires PassOne.NothingStuck(env.tokens)
    ensures Sourced(env, AfterPassTwo(env))
  {
    hide Kept, Before, DataTheorems.Collected, PassTwo, AfterPassOne;
    PassesKept(env);
    RewoundKept(env, AfterPassOne(env));
    NothingSourced(env, AfterPassOne(env));
    PassTwoSourced(env, Rewound(AfterPassOne(env)));
  }

  lemma NothingSourced(env: Env, s: State)
    requires DataTheorems.Collected(s)
    ensures Sourced(env, Rewound(s))
  {
  }
}
