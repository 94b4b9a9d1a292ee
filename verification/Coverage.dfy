/**
 Nothing is dropped: in a program that parses without errors, every mnemonic token of the text sections
 starts an instruction, and every label token there defines its label.
 */
module Coverage {
  import opened Instructions
  import opened Units
  import opened Tokens
  import opened ParserState
  import opened Operands
  import opened OperandTheorems
  import opened TextPass
  import opened Assembly
  import PassOne
  import DataTheorems
  import EndToEnd

  /** Token `p` belongs to a text section: from the start, or a word `text`, up to a data or bss directive. */
  predicate InText(tokens: seq<Token>, p: nat)
    decreases p
  {
    if p == 0 then true
    else
      || (InText(tokens, p - 1) && !OpensData(TokenAt(tokens, p - 1)))
      || TokenAt(tokens, p).value == "text"
  }

  predicate OpensData(t: Token) { IsDirective(t, "data") || IsDirective(t, "bss") }

  /** The token has its instruction or its label. */
  predicate Accounted(env: Env, s: State, p: nat)
    requires p < |env.tokens|
  {
    var t := env.tokens[p];
    && (t.kind.Opcode? ==> p in s.origins)
    && (t.kind.Label? ==> t.value in s.labels && s.labels[t.value].0 == p)
  }

  /** Instructions and labels come from the text sections only. */
  predicate FromText(tokens: seq<Token>, s: State) {
    && (forall i :: 0 <= i < |s.origins| ==> InText(tokens, s.origins[i]))
    && (forall name <- s.labels :: InText(tokens, s.labels[name].0))
  }

  predicate Covered(env: Env, s: State) {
    && s.pos <= |env.tokens| && FromText(env.tokens, s)
    && (forall p :: 0 <= p < s.pos && InText(env.tokens, p) ==> Accounted(env, s, p))
    && (InText(env.tokens, s.pos) || Current(env, s).kind.Eof?)
  }

  /** What is accounted for stays so, and what is new comes from the current token. */
  predicate KeepsAccounts(r: State, s: State) {
    && s.origins <= r.origins
    && (forall i :: |s.origins| <= i < |r.origins| ==> r.origins[i] == s.pos)
    && (forall name <- r.labels :: name in s.labels || r.labels[name].0 == s.pos)
    && (forall name <- s.labels :: name in r.labels && r.labels[name] == s.labels[name])
  }

  lemma AccountsStay(env: Env, s: State, r: State, p: nat)
    requires p < |env.tokens| && Accounted(env, s, p) && KeepsAccounts(r, s)
    ensures Accounted(env, r, p)
  {
  }

  lemma StaysFromText(tokens: seq<Token>, s: State, r: State)
    requires FromText(tokens, s) && KeepsAccounts(r, s) && InText(tokens, s.pos)
    ensures FromText(tokens, r)
  {
    hide InText;
    forall i | 0 <= i < |r.origins| ensures InText(tokens, r.origins[i]) {
      assert i < |s.origins| ==> r.origins[i] == s.origins[i];
    }
  }

  /** Text goes on over tokens that are not directives. */
  lemma {:induction false} TextGoesOn(tokens: seq<Token>, a: nat, b: nat)
    requires a <= b && InText(tokens, a)
    requires forall q :: a <= q < b ==> !TokenAt(tokens, q).kind.Directive?
    ensures InText(tokens, b)
    decreases b
  {
    if a < b { TextGoesOn(tokens, a, b - 1); }
  }

  /** Moving from `s` to `r` over tokens that are neither mnemonics, labels nor directives, the first one apart. */
  lemma MoveCovers(env: Env, s: State, r: State)
    requires Covered(env, s) && InText(env.tokens, s.pos) && s.pos < r.pos <= |env.tokens| && KeepsAccounts(r, s)
    requires Accounted(env, r, s.pos) && !OpensData(env.tokens[s.pos])
    requires forall q :: s.pos < q < r.pos ==>
      var kind := env.tokens[q].kind; !kind.Opcode? && !kind.Label? && !kind.Directive?
    ensures Covered(env, r)
  {
    hide FromText;
    assert InText(env.tokens, s.pos + 1);
    TextGoesOn(env.tokens, s.pos + 1, r.pos);
    StaysFromText(env.tokens, s, r);
    forall p | 0 <= p < r.pos && InText(env.tokens, p) ensures Accounted(env, r, p) {
      if p < s.pos { AccountsStay(env, s, r, p); }
    }
  }

  /*
   * Lines.
   */

  lemma {:induction false} LineEndsThere(tokens: seq<Token>, pos: nat, end: nat, line: nat)
    requires pos <= end <= |tokens|
    requires forall q :: pos <= q < end ==> tokens[q].line == line && !tokens[q].kind.Eof?
    requires TokenAt(tokens, end).kind.Eof? || TokenAt(tokens, end).line != line
    ensures LineEnd(tokens, pos, line) == end
    decreases end - pos
  {
    if pos < end { LineEndsThere(tokens, pos + 1, end, line); }
  }

  /** A line that fits a shape ends right after it, and has no other mnemonic, label or directive. */
  lemma FittingLine(env: Env, s: State, tags: seq<Tag>)
    requires FitsLine(env, s, tags) && s.pos < |env.tokens| && !env.tokens[s.pos].kind.Eof?
    ensures SkipLine(env, s).pos == s.pos + 1 + |tags| <= |env.tokens|
    ensures forall q :: s.pos < q < s.pos + 1 + |tags| ==>
      var kind := env.tokens[q].kind; !kind.Opcode? && !kind.Label? && !kind.Directive?
  {
    var line := Current(env, s).line;
    forall q | s.pos < q < s.pos + 1 + |tags|
      ensures q < |env.tokens| && env.tokens[q].line == line
      ensures var kind := TokenAt(env.tokens, q).kind; !kind.Opcode? && !kind.Label? && !kind.Directive? && !kind.Eof?
    {
      var i := q - s.pos - 1;
      assert TokenFits(env, s, i + 1, tags[i]);
      assert Peek(env, s, i + 1) == TokenAt(env.tokens, q);
      TagIsOperand(Peek(env, s, i + 1).kind, tags[i]);
    }
    if |tags| > 0 { assert !TokenAt(env.tokens, s.pos + |tags|).kind.Eof?; }
    assert Peek(env, s, |tags| + 1) == TokenAt(env.tokens, s.pos + 1 + |tags|);
    LineEndsThere(env.tokens, s.pos, s.pos + 1 + |tags|, line);
  }

  lemma TagIsOperand(kind: Kind, tag: Tag)
    requires HasTag(kind, tag)
    ensures !kind.Opcode? && !kind.Label? && !kind.Directive? && !kind.Eof?
  {
  }

  /*
   * Steps.
   */

  lemma {:induction false} AppendAllAccounts(s: State, units: seq<(Unit, bool)>)
    ensures var r := AppendAll(s, units);
      KeepsAccounts(r, s) && r.pos == s.pos && r.labels == s.labels && (units != [] ==> s.pos in r.origins)
    decreases |units|
  {
    if units == [] {
    } else {
      AppendAllAccounts(Append(s, units[0].0, units[0].1), units[1..]);
      assert s.pos in Append(s, units[0].0, units[0].1).origins;
    }
  }

  lemma InstructionCovers(env: Env, s: State, op: Mnemonic)
    requires Covered(env, s) && InText(env.tokens, s.pos) && Current(env, s).kind == Opcode(op)
    ensures var r := Instruction(env, s, op); r.errors == s.errors ==> Covered(env, r)
  {
    hide Covered, InText, ParseAny, AppendAll, IsMExtension, Syntaxes, FitsLine, Shape, Build;
    var parsed := ParseAny(env, s, Syntaxes(op), op);
    var r := Instruction(env, s, op);
    if r.errors == s.errors {
      assert parsed.Parsed?;
      ParsedFits(env, s, op);
      var tags: seq<Tag> :| FitsLine(env, s, tags);
      FittingLine(env, s, tags);
      ParseAnyOk(env, s, Syntaxes(op), op);
      var v := AppendAll(s, parsed.units);
      AppendAllAccounts(s, parsed.units);
      assert r == SkipLine(env, v) && r.pos == SkipLine(env, s).pos;
      MoveCovers(env, s, r);
    }
  }

  lemma ParsedFits(env: Env, s: State, op: Mnemonic)
    requires ParseAny(env, s, Syntaxes(op), op).Parsed?
    ensures exists tags: seq<Tag> :: FitsLine(env, s, tags)
  {
    hide Build, ParseAny, Syntaxes, Shape, FitsLine;
    ParseAnyYields(env, s, Syntaxes(op), op);
    var syntax: SyntaxType :| Applies(env, s, syntax, op) && Build(env, s, syntax, op) == ParseAny(env, s, Syntaxes(op), op);
    assert FitsLine(env, s, Shape(syntax, op).value);
  }

  lemma LabelCovers(env: Env, s: State)
    requires Covered(env, s) && InText(env.tokens, s.pos) && Current(env, s).kind.Label? && Placed(env, s)
    ensures var r := Next(env, DefineText(env, s)); r.errors == s.errors ==> Covered(env, r)
  {
    hide Covered, InText;
    var r := Next(env, DefineText(env, s));
    if r.errors == s.errors {
      forall name | name in s.labels ensures name in s.symbols { assert LabelPlaced(env, s, name); }
      MoveCovers(env, s, r);
    }
  }

  lemma TextStepCovers(env: Env, s: State)
    requires Covered(env, s) && Placed(env, s) && !TextEnds(Current(env, s))
    ensures var r := TextStep(env, s); r.errors == s.errors ==> Covered(env, r)
  {
    hide Placed, InText, Instruction, DefineText;
    var t := Current(env, s);
    if t.kind.Label? {
      LabelCovers(env, s);
    } else if t.kind.Opcode? {
      InstructionCovers(env, s, t.kind.op);
    }
  }

  lemma {:induction false} TextSectionCovers(env: Env, s: State)
    requires Covered(env, s) && Kept(env, s) && Before(s)
    ensures var r := TextSection(env, s); r.errors == s.errors ==> Covered(env, r)
    decreases |env.tokens| - s.pos
  {
    hide Covered, TextStep, Before, Counted, Ordered, Aimed, Placed;
    if TextEnds(Current(env, s)) {
    } else {
      var r := TextStep(env, s);
      TextStepKept(env, s);
      TextSectionKept(env, r);
      TextStepCovers(env, s);
      if r.errors == s.errors { TextSectionCovers(env, r); }
    }
  }

  /** No token of a skipped data section belongs to the text. */
  lemma {:induction false} SkippedIsNotText(tokens: seq<Token>, pos: nat, q: nat)
    requires pos <= q < SkipTo(tokens, pos, SkippedData) && !InText(tokens, pos)
    ensures !InText(tokens, q)
    decreases q
  {
    SkippedIsNotThere(tokens, pos, q);
    if pos < q { SkippedIsNotText(tokens, pos, q - 1); }
  }

  lemma {:induction false} SkippedIsNotThere(tokens: seq<Token>, pos: nat, q: nat)
    requires pos <= q < SkipTo(tokens, pos, SkippedData)
    ensures TokenAt(tokens, q).value != "text" && !TokenAt(tokens, q).kind.Eof? && q < |tokens|
    decreases |tokens| - pos
  {
    if pos < q { SkippedIsNotThere(tokens, pos + 1, q); }
  }

  lemma {:induction false} SkipEnds(tokens: seq<Token>, pos: nat)
    ensures var t := TokenAt(tokens, SkipTo(tokens, pos, SkippedData)); t.kind.Eof? || t.value == "text"
    decreases |tokens| - pos
  {
    var t := TokenAt(tokens, pos);
    if !t.kind.Eof? && !Ends(SkippedData, t.value) { SkipEnds(tokens, pos + 1); }
  }

  lemma DataSkipCovers(env: Env, s: State)
    requires Covered(env, s) && InText(env.tokens, s.pos) && s.pos < |env.tokens| && OpensData(env.tokens[s.pos])
    ensures Covered(env, s.(pos := SkipTo(env.tokens, s.pos, SkippedData)))
  {
    hide FromText;
    var end := SkipTo(env.tokens, s.pos, SkippedData);
    var r := s.(pos := end);
    StaysFromText(env.tokens, s, r);
    SkipEnds(env.tokens, s.pos);
    forall p | 0 <= p < end && InText(env.tokens, p) ensures Accounted(env, r, p) {
      if p < s.pos {
        AccountsStay(env, s, r, p);
      } else if p > s.pos {
        SkippedIsNotThere(env.tokens, s.pos, p);
        SkippedIsNotThere(env.tokens, s.pos, s.pos + 1);
        assert !InText(env.tokens, s.pos + 1);
        SkippedIsNotText(env.tokens, s.pos + 1, p);
      }
    }
  }

  lemma PassTwoStepCovers(env: Env, s: State)
    requires Covered(env, s) && Kept(env, s) && Before(s) && !Current(env, s).kind.Eof?
    ensures var r := PassTwoStep(env, s); r.errors == s.errors ==> Covered(env, r)
  {
    hide Covered, InText, TextSection, Counted, Ordered, Aimed, Placed, Before;
    var t := Current(env, s);
    var next := Next(env, s);
    CoveredHere(env, s);
    if OpensData(t) {
      DataSkipCovers(env, s);
    } else if t.kind.Label? || t.kind.Opcode? {
      TextSectionCovers(env, s);
    } else if IsDirective(t, "section") || IsDirective(t, "text") {
      MoveKept(env, s, next);
      MoveCovers(env, s, next);
      if IsDirective(t, "text") { TextSectionCovers(env, next); }
    }
  }

  lemma CoveredHere(env: Env, s: State)
    requires Covered(env, s) && !Current(env, s).kind.Eof?
    ensures s.pos < |env.tokens| && InText(env.tokens, s.pos)
  {
  }

  lemma {:induction false} PassTwoCovers(env: Env, s: State)
    requires Covered(env, s) && Kept(env, s) && Before(s)
    ensures var r := PassTwo(env, s);
      r.errors == s.errors ==> Covered(env, r) && Current(env, r).kind.Eof?
    decreases |env.tokens| - s.pos
  {
    hide Covered, PassTwoStep, Before, Counted, Ordered, Aimed, Placed;
    if Current(env, s).kind.Eof? {
    } else {
      var r := PassTwoStep(env, s);
      PassTwoStepKept(env, s);
      PassTwoKept(env, r);
      PassTwoStepCovers(env, s);
      if r.errors == s.errors { PassTwoCovers(env, r); }
    }
  }

  /**
   In an accepted program the mnemonics of the text sections, and no other tokens, start instructions, and
   every label there is defined at its own token, and no other.
   */
  lemma TextIsComplete(env: Env)
    requires EndToEnd.Accepted(env) && PassOne.EofTerminated(env.tokens)
    ensures FromText(env.tokens, Parse(env))
    ensures forall p :: 0 <= p < |env.tokens| && InText(env.tokens, p) ==> Accounted(env, Parse(env), p)
  {
    hide Covered, InText, Kept, Before, DataTheorems.Collected, AfterPassOne, AfterPassTwo, PatchOne, FromText, Accounted;
    PassesKept(env);
    var one, two := AfterPassOne(env), AfterPassTwo(env);
    ErrorsOfPasses(env);
    RewoundKept(env, one);
    NothingYet(env, one);
    PassTwoCovers(env, Rewound(one));
    CoveredIsFromText(env, two);
    PatchedFromText(env);
    forall p | 0 <= p < |env.tokens| && InText(env.tokens, p) ensures Accounted(env, Parse(env), p) {
      CoveredToTheEnd(env, two, p);
      PatchedAccounts(env, p);
    }
  }

  lemma NothingYet(env: Env, s: State)
    requires DataTheorems.Collected(s)
    ensures Covered(env, Rewound(s))
  {
  }

  lemma CoveredIsFromText(env: Env, s: State)
    requires Covered(env, s)
    ensures FromText(env.tokens, s)
  {
  }

  lemma PatchedFromText(env: Env)
    requires PassOne.NothingStuck(env.tokens) && FromText(env.tokens, AfterPassTwo(env))
    ensures FromText(env.tokens, Parse(env))
  {
    hide AfterPassTwo, AfterPassOne, PatchOne, InRange;
    InRangeAfterPassTwo(env);
    PatchAllFrame(AfterPassTwo(env), AfterPassTwo(env).backPatch);
  }

  lemma ErrorsOfPasses(env: Env)
    requires EndToEnd.Accepted(env)
    ensures AfterPassTwo(env).errors == Rewound(AfterPassOne(env)).errors == []
    ensures AfterPassTwo(env) == PassTwo(env, Rewound(AfterPassOne(env)))
  {
    hide Kept, DataTheorems.Collected, PatchOne, PassTwo, AfterPassOne, WellAssembled;
    PassesKept(env);
    ParseIsWellAssembled(env);
    InRangeAfterPassTwo(env);
    PatchAllFrame(AfterPassTwo(env), AfterPassTwo(env).backPatch);
  }

  lemma InRangeAfterPassTwo(env: Env)
    requires PassOne.NothingStuck(env.tokens)
    ensures InRange(AfterPassTwo(env), AfterPassTwo(env).backPatch)
  {
    hide Ordered, Placed, Aimed, DataTheorems.Collected, AfterPassTwo, AfterPassOne;
    PassesKept(env);
  }

  lemma PatchedAccounts(env: Env, p: nat)
    requires PassOne.NothingStuck(env.tokens) && p < |env.tokens| && Accounted(env, AfterPassTwo(env), p)
    ensures Accounted(env, Parse(env), p)
  {
    hide AfterPassTwo, AfterPassOne, PatchOne, InRange;
    InRangeAfterPassTwo(env);
    PatchAllFrame(AfterPassTwo(env), AfterPassTwo(env).backPatch);
  }

  /** The cursor that stands on the end of file has passed every other token. */
  lemma CoveredToTheEnd(env: Env, s: State, p: nat)
    requires Covered(env, s) && Current(env, s).kind.Eof? && PassOne.EofTerminated(env.tokens)
    requires p < |env.tokens| && InText(env.tokens, p)
    ensures Accounted(env, s, p)
  {
    hide InText;
    assert s.pos >= |env.tokens| - 1;
  }
}
