/**
 When every labelled data directive is written with a value, each data label of an error-free program is
 directly followed, in the layout, by an item of the alignment it was given.
 */
module LabelCarrying {
  import opened Text
  import opened Layout
  import opened Tokens
  import opened ParserState
  import opened DataPass
  import opened PassOne

  /** Something that can be read off the tokens: a labelled directive has a value right after its name. */
  predicate LabelledDirectivesHaveValues(tokens: seq<Token>) {
    forall i :: 0 <= i < |tokens| && tokens[i].kind.Label? ==>
      HasValue(TokenAt(tokens, i + 1), TokenAt(tokens, i + 2))
  }

  predicate HasValue(directive: Token, value: Token) {
    match DirectiveOf(directive.value)
    case None => true
    case Some(d) =>
      !directive.kind.Label? && !directive.kind.Eof? && Accepts(d, value.kind) && Copies(d, value.kind) > 0
  }

  /** The cursor is at a directive of this alignment, with its first value. */
  predicate Awaits(env: Env, s: State, a: Alignment) {
    var t := Current(env, s);
    match DirectiveOf(t.value)
    case None => false
    case Some(d) =>
      && !t.kind.Label? && !t.kind.Eof? && DirectiveAlignment(d) == a
      && Accepts(d, Peek(env, s, 1).kind) && Copies(d, Peek(env, s, 1).kind) > 0
  }

  /** All labels but the last carry an item, and the last is a label of this alignment. */
  predicate EndsWithLabel(events: seq<Event>, a: Alignment) {
    events != [] && events[|events| - 1] == Mark(a) && LabelsCarryItems(events[..|events| - 1])
  }

  ghost predicate Carrying(env: Env, s: State) {
    LabelsCarryItems(s.events) || exists a: Alignment :: EndsWithLabel(s.events, a) && Awaits(env, s, a)
  }

  lemma ItemCarried(events: seq<Event>, item: DataItem)
    requires LabelsCarryItems(events) || EndsWithLabel(events, AlignmentOf(item))
    ensures LabelsCarryItems(events + [Emit(item)])
  {
    var n := |events|;
    forall j | 0 <= j < n + 1 && (events + [Emit(item)])[j].Mark?
      ensures j + 1 < n + 1 && (events + [Emit(item)])[j + 1].Emit?
        && AlignmentOf((events + [Emit(item)])[j + 1].item) == (events + [Emit(item)])[j].alignment
    {
      if !LabelsCarryItems(events) && j < n - 1 { assert events[..n - 1][j].Mark?; }
    }
  }

  lemma {:induction false} CopiesCarried(s: State, item: DataItem, n: nat)
    requires LabelsCarryItems(s.events) || (n > 0 && EndsWithLabel(s.events, AlignmentOf(item)))
    ensures LabelsCarryItems(EmitCopies(s, item, n).events)
    ensures EmitCopies(s, item, n).errors == s.errors
    decreases n
  {
    hide LabelsCarryItems, EndsWithLabel;
    if n > 0 {
      ItemCarried(s.events, item);
      CopiesCarried(EmitItem(s, item), item, n - 1);
    }
  }

  lemma ValueCarried(s: State, d: DataDirective, t: Token)
    requires Accepts(d, t.kind)
    requires LabelsCarryItems(s.events) || (Copies(d, t.kind) > 0 && EndsWithLabel(s.events, DirectiveAlignment(d)))
    ensures LabelsCarryItems(EmitValue(s, d, t).events) && s.errors <= EmitValue(s, d, t).errors
  {
    hide LabelsCarryItems, EndsWithLabel;
    ItemAlignment(d, t.kind);
    if Copies(d, t.kind) > 0 { CopiesCarried(s, ItemOf(d, t.kind), Copies(d, t.kind)); }
  }

  lemma ItemAlignment(d: DataDirective, kind: Kind)
    requires Accepts(d, kind)
    ensures AlignmentOf(ItemOf(d, kind)) == DirectiveAlignment(d)
  {
  }

  lemma {:induction false} ValuesCarried(env: Env, s: State, d: DataDirective)
    requires LabelsCarryItems(s.events)
      || (Accepts(d, Current(env, s).kind) && Copies(d, Current(env, s).kind) > 0 && EndsWithLabel(s.events, DirectiveAlignment(d)))
    ensures LabelsCarryItems(Values(env, s, d).events) && s.errors <= Values(env, s, d).errors
    decreases |env.tokens| - s.pos
  {
    hide LabelsCarryItems, EndsWithLabel, EmitValue, Copies;
    var t := Current(env, s);
    if Accepts(d, t.kind) {
      ValueCarried(s, d, t);
      EmitValueKeepsPos(s, d, t);
      ValuesCarried(env, Next(env, EmitValue(s, d, t)), d);
    } else if t.kind.Comma? {
      ValuesCarried(env, Next(env, s), d);
    }
  }

  lemma LabelEvents(env: Env, s: State, d: DataDirective)
    requires DirectiveOf(Peek(env, s, 1).value) == Some(d)
    ensures var r := DefineData(env, s);
      r.events == s.events + [Mark(DirectiveAlignment(d))] && r.errors == s.errors && r.pos == s.pos
  {
    hide AlignUp, DirectiveOf, DirectiveAlignment;
  }

  lemma UnknownDirective(env: Env, s: State)
    requires DirectiveOf(Peek(env, s, 1).value) == None
    ensures var r := DefineData(env, s); s.errors < r.errors
  {
    hide DirectiveOf;
  }

  lemma LabelCarried(env: Env, s: State)
    requires LabelledDirectivesHaveValues(env.tokens)
    requires Current(env, s).kind.Label? && Carrying(env, s)
    ensures var r := Next(env, DefineData(env, s)); s.errors <= r.errors && (r.errors == [] ==> Carrying(env, r))
  {
    hide LabelsCarryItems, HasValue, DefineData, DirectiveOf, DirectiveAlignment;
    var r := Next(env, DefineData(env, s));
    assert LabelsCarryItems(s.events);
    assert HasValue(Peek(env, s, 1), Peek(env, s, 2));
    match DirectiveOf(Peek(env, s, 1).value)
    case None => UnknownDirective(env, s);
    case Some(d) =>
      LabelEvents(env, s, d);
      assert r.events[..|s.events|] == s.events;
      assert EndsWithLabel(r.events, DirectiveAlignment(d));
      DirectiveAwaits(env, s, r, d);
  }

  lemma DirectiveAwaits(env: Env, s: State, r: State, d: DataDirective)
    requires r.pos == s.pos + 1 && DirectiveOf(Current(env, r).value) == Some(d)
    requires HasValue(Peek(env, s, 1), Peek(env, s, 2))
    ensures Awaits(env, r, DirectiveAlignment(d))
  {
  }

  lemma DirectiveCarried(env: Env, s: State, d: DataDirective)
    requires DirectiveOf(Current(env, s).value) == Some(d) && !Current(env, s).kind.Eof? && Carrying(env, s)
    ensures var r := Values(env, Next(env, s), d); LabelsCarryItems(r.events) && s.errors <= r.errors
  {
    hide LabelsCarryItems;
    assert Current(env, Next(env, s)) == Peek(env, s, 1);
    ValuesCarried(env, Next(env, s), d);
  }

  lemma DataStepCarried(env: Env, s: State)
    requires LabelledDirectivesHaveValues(env.tokens)
    requires !DataEnds(Current(env, s)) && (s.errors == [] ==> Carrying(env, s))
    ensures var r := DataStep(env, s); s.errors <= r.errors && (r.errors == [] ==> Carrying(env, r))
  {
    hide LabelsCarryItems, LabelledDirectivesHaveValues, EndsWithLabel, Awaits, Values;
    var t := Current(env, s);
    if s.errors == [] {
      if t.kind.Label? { LabelCarried(env, s); }
      else if DirectiveOf(t.value).Some? { DirectiveCarried(env, s, DirectiveOf(t.value).value); }
    } else {
      DataStepErrors(env, s);
    }
  }

  lemma {:induction false} ValuesErrors(env: Env, s: State, d: DataDirective)
    ensures s.errors <= Values(env, s, d).errors
    decreases |env.tokens| - s.pos
  {
    var t := Current(env, s);
    if Accepts(d, t.kind) {
      CopiesErrors(s, ItemOf(d, t.kind), Copies(d, t.kind));
      EmitValueKeepsPos(s, d, t);
      ValuesErrors(env, Next(env, EmitValue(s, d, t)), d);
    } else if t.kind.Comma? {
      ValuesErrors(env, Next(env, s), d);
    }
  }

  lemma {:induction false} CopiesErrors(s: State, item: DataItem, n: nat)
    ensures EmitCopies(s, item, n).errors == s.errors
    decreases n
  {
    if n > 0 { CopiesErrors(EmitItem(s, item), item, n - 1); }
  }

  lemma DataStepErrors(env: Env, s: State)
    requires !Current(env, s).kind.Eof?
    ensures s.errors <= DataStep(env, s).errors
  {
    var t := Current(env, s);
    if !t.kind.Label? && DirectiveOf(t.value).Some? { ValuesErrors(env, Next(env, s), DirectiveOf(t.value).value); }
  }

  /** At the end of a section no label is left waiting. */
  lemma {:induction false} DataSectionCarried(env: Env, s: State)
    requires LabelledDirectivesHaveValues(env.tokens) && (s.errors == [] ==> Carrying(env, s))
    ensures var r := DataSection(env, s); s.errors <= r.errors && (r.errors == [] ==> LabelsCarryItems(r.events))
    decreases |env.tokens| - s.pos
  {
    hide LabelsCarryItems, LabelledDirectivesHaveValues, DataStep;
    if DataEnds(Current(env, s)) {
      SectionWordsAreNoDirectives(Current(env, s).value);
    } else {
      hide Carrying;
      DataStepCarried(env, s);
      DataSectionCarried(env, DataStep(env, s));
    }
  }

  lemma SectionWordsAreNoDirectives(value: string)
    ensures IsSectionWord(value) ==> DirectiveOf(value) == None
  {
  }

  lemma PassOneStepCarried(env: Env, s: State)
    requires LabelledDirectivesHaveValues(env.tokens) && !Current(env, s).kind.Eof?
    requires s.errors == [] ==> LabelsCarryItems(s.events)
    ensures var r := PassOneStep(env, s); s.errors <= r.errors && (r.errors == [] ==> LabelsCarryItems(r.events))
  {
    hide LabelsCarryItems, LabelledDirectivesHaveValues, DataSection, BssSection;
    var next := Next(env, s);
    DataSectionCarried(env, next);
    BssErrors(env, next);
  }

  lemma {:induction false} BssErrors(env: Env, s: State)
    ensures BssSection(env, s).errors == s.errors && BssSection(env, s).events == s.events
    decreases |env.tokens| - s.pos
  {
    if DataEnds(Current(env, s)) {
    } else {
      BssErrors(env, Next(env, s));
    }
  }

  lemma {:induction false} RunCarried(env: Env, s: State)
    requires NothingStuck(env.tokens) && LabelledDirectivesHaveValues(env.tokens)
    requires s.errors == [] ==> LabelsCarryItems(s.events)
    ensures var r := PassOne.Run(env, s); s.errors <= r.errors && (r.errors == [] ==> LabelsCarryItems(r.events))
    decreases |env.tokens| - s.pos
  {
    hide LabelsCarryItems, LabelledDirectivesHaveValues, PassOneStep;
    if Current(env, s).kind.Eof? {
    } else {
      PassOneStepCarried(env, s);
      RunCarried(env, PassOneStep(env, s));
    }
  }
}
