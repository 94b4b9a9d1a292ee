/**
 What the first pass leaves behind: the data counter is the one that the layout theorems speak of, every
 data label is where that counter stood, and labels are followed by the items they were aligned for.
 */
module DataTheorems {
  import opened Words
  import opened Text
  import opened Layout
  import opened Tokens
  import opened ParserState
  import opened DataPass
  import opened PassOne

  /** Nothing of the text has been looked at. */
  predicate NoText(s: State) {
    && s.instructionIndex == 0 && s.code == [] && s.origins == [] && s.backPatch == []
    && s.lineOf == map[] && s.labels == map[]
  }

  /** The label is where the counter stood when it had been aligned. */
  predicate MarkPlaced(s: State, name: string)
    requires name in s.symbols && name in s.marks
  {
    var j := s.marks[name];
    && s.symbols[name].isData && j < |s.events| && s.events[j].Mark?
    && s.symbols[name].address == ParserIndex(s.events[..j + 1])
  }

  predicate MarksPlaced(s: State) { forall name <- s.symbols :: name in s.marks && MarkPlaced(s, name) }

  predicate Collected(s: State) {
    && NoText(s) && MarksPlaced(s) && s.errorCount == 2 * |s.errors|
    && s.dataBuffer == Items(s.events) && s.dataIndex == ParserIndex(s.events)
  }

  /** Where an event moves the counter. */
  function Moved(x: nat, e: Event): nat {
    match e
    case Mark(a) => AlignUp(x, a) % TWO64
    case Emit(item) => (AlignUp(x, AlignmentOf(item)) % TWO64 + |ItemBytes(item)|) % TWO64
  }

  function Emitted(e: Event): seq<DataItem> {
    match e
    case Mark(_) => []
    case Emit(item) => [item]
  }

  lemma EventAppended(events: seq<Event>, e: Event)
    ensures ParserIndex(events + [e]) == Moved(ParserIndex(events), e)
    ensures Items(events + [e]) == Items(events) + Emitted(e)
  {
    assert (events + [e])[..|events|] == events;
  }

  /** More events leave a label where it is. */
  lemma MarkStays(s: State, r: State, name: string)
    requires name in s.symbols && name in s.marks && MarkPlaced(s, name) && s.events <= r.events
    requires name in r.symbols && r.symbols[name] == s.symbols[name] && name in r.marks && r.marks[name] == s.marks[name]
    ensures MarkPlaced(r, name)
  {
    hide ParserIndex;
    var j := s.marks[name];
    assert r.events[..j + 1] == s.events[..j + 1];
  }

  lemma MarksStay(s: State, r: State, e: Event)
    requires MarksPlaced(s) && r.events == s.events + [e] && r.symbols == s.symbols && r.marks == s.marks
    ensures MarksPlaced(r)
  {
    hide MarkPlaced;
    forall name | name in r.symbols ensures MarkPlaced(r, name) { MarkStays(s, r, name); }
  }

  lemma EmitItemCollected(s: State, item: DataItem)
    requires Collected(s)
    ensures Collected(EmitItem(s, item))
  {
    hide AlignUp, ItemBytes, AlignmentOf, MarkPlaced, MarksPlaced;
    EventAppended(s.events, Emit(item));
    MarksStay(s, EmitItem(s, item), Emit(item));
  }

  lemma {:induction false} EmitCopiesCollected(s: State, item: DataItem, n: nat)
    requires Collected(s)
    ensures Collected(EmitCopies(s, item, n))
    decreases n
  {
    hide Collected;
    if n > 0 {
      EmitItemCollected(s, item);
      EmitCopiesCollected(EmitItem(s, item), item, n - 1);
    }
  }

  /** Moving the cursor and reporting errors leave the data alone. */
  lemma MoveCollected(s: State, r: State)
    requires Collected(s)
    requires r == s.(pos := r.pos) || exists line: nat :: r == Fail(s, line).(pos := r.pos)
    ensures Collected(r)
  {
    hide Items, ParserIndex, MarkPlaced;
    forall name | name in r.symbols ensures name in r.marks && MarkPlaced(r, name) { MarkMoved(s, r, name); }
  }

  lemma MarkMoved(s: State, r: State, name: string)
    requires MarksPlaced(s) && name in s.symbols
    requires r.symbols == s.symbols && r.marks == s.marks && r.events == s.events
    ensures MarkPlaced(r, name)
  {
    assert MarkPlaced(s, name);
  }

  lemma NextCollected(env: Env, s: State)
    requires Collected(s)
    ensures Collected(Next(env, s))
    ensures forall line: nat :: Collected(Fail(s, line)) && Collected(Next(env, Fail(s, line)))
  {
    hide Collected;
    MoveCollected(s, Next(env, s));
    forall line: nat ensures Collected(Fail(s, line)) && Collected(Next(env, Fail(s, line))) {
      var failed := Fail(s, line);
      assert failed == Fail(s, line).(pos := failed.pos);
      MoveCollected(s, failed);
      MoveCollected(failed, Next(env, failed));
    }
  }

  lemma EmitValueCollected(s: State, d: DataDirective, t: Token)
    requires Collected(s) && Accepts(d, t.kind)
    ensures Collected(EmitValue(s, d, t))
  {
    hide Collected, ItemOf;
    if Copies(d, t.kind) == 0 {
      var failed := Fail(s, t.line);
      assert failed == Fail(s, t.line).(pos := failed.pos);
      MoveCollected(s, failed);
    } else {
      EmitCopiesCollected(s, ItemOf(d, t.kind), Copies(d, t.kind));
    }
  }

  lemma {:induction false} ValuesCollected(env: Env, s: State, d: DataDirective)
    requires Collected(s)
    ensures Collected(Values(env, s, d))
    decreases |env.tokens| - s.pos
  {
    hide Collected, EmitValue;
    var t := Current(env, s);
    if Accepts(d, t.kind) {
      EmitValueCollected(s, d, t);
      EmitValueKeepsPos(s, d, t);
      NextCollected(env, EmitValue(s, d, t));
      ValuesCollected(env, Next(env, EmitValue(s, d, t)), d);
    } else if t.kind.Comma? {
      NextCollected(env, s);
      ValuesCollected(env, Next(env, s), d);
    }
  }

  /** What the alignment of a label is, and what defining it does to the counter and the record. */
  lemma DefineDataMoves(env: Env, s: State, a: Alignment)
    requires a == (match DirectiveOf(Peek(env, s, 1).value) case Some(d) => DirectiveAlignment(d) case None => 1)
    requires s.dataIndex < TWO64
    ensures var r := DefineData(env, s);
      && r.events == s.events + [Mark(a)] && r.dataIndex == Moved(s.dataIndex, Mark(a)) && r.dataBuffer == s.dataBuffer
      && r.symbols == s.symbols[Current(env, s).value := SymbolData(r.dataIndex, Current(env, s).line, true)]
      && r.marks == s.marks[Current(env, s).value := |s.events|]
      && (r.errorCount - s.errorCount == 2 * (|r.errors| - |s.errors|))
      && r == s.(events := r.events, dataIndex := r.dataIndex, symbols := r.symbols, marks := r.marks,
                 errors := r.errors, errorCount := r.errorCount)
  {
    hide AlignUp, DirectiveOf, DirectiveAlignment;
    AlignToOne(s.dataIndex);
  }

  lemma DefineDataCollected(env: Env, s: State)
    requires Collected(s)
    ensures Collected(DefineData(env, s))
  {
    hide AlignUp, DirectiveOf, DirectiveAlignment, DefineData, Items, ParserIndex;
    var t := Current(env, s);
    var a := match DirectiveOf(Peek(env, s, 1).value) case Some(d) => DirectiveAlignment(d) case None => 1;
    EventAppended(s.events, Mark(a));
    DefineDataMoves(env, s, a);
    var r := DefineData(env, s);
    forall name | name in r.symbols ensures name in r.marks && MarkPlaced(r, name) {
      if name == t.value {
        assert r.events[..|r.events|] == r.events;
      } else {
        MarkStays(s, r, name);
      }
    }
  }

  lemma AlignToOne(x: nat)
    ensures AlignUp(x, 1) == x
    ensures x < TWO64 ==> x % TWO64 == x
  {
  }

  lemma DataStepCollected(env: Env, s: State)
    requires Collected(s) && !Current(env, s).kind.Eof?
    ensures Collected(DataStep(env, s))
  {
    hide Collected, DefineData, Values, DirectiveOf;
    var t := Current(env, s);
    NextCollected(env, s);
    if t.kind.Label? {
      DefineDataCollected(env, s);
      NextCollected(env, DefineData(env, s));
    } else if DirectiveOf(t.value).Some? {
      ValuesCollected(env, Next(env, s), DirectiveOf(t.value).value);
    }
  }

  lemma {:induction false} DataSectionCollected(env: Env, s: State)
    requires Collected(s)
    ensures Collected(DataSection(env, s))
    decreases |env.tokens| - s.pos
  {
    hide Collected, DataStep;
    if DataEnds(Current(env, s)) {
    } else {
      DataStepCollected(env, s);
      DataSectionCollected(env, DataStep(env, s));
    }
  }

  lemma {:induction false} BssSectionMoves(env: Env, s: State)
    ensures BssSection(env, s) == s.(pos := BssSection(env, s).pos)
    decreases |env.tokens| - s.pos
  {
    if DataEnds(Current(env, s)) {
    } else {
      BssSectionMoves(env, Next(env, s));
    }
  }

  lemma PassOneStepCollected(env: Env, s: State)
    requires Collected(s) && !Current(env, s).kind.Eof?
    ensures Collected(PassOneStep(env, s))
  {
    hide Collected, DataSection, BssSection;
    var t := Current(env, s);
    var next := Next(env, s);
    NextCollected(env, s);
    DataSectionCollected(env, next);
    BssSectionMoves(env, next);
    MoveCollected(next, BssSection(env, next));
    MoveCollected(s, s.(pos := SkipTo(env.tokens, s.pos, SkippedText)));
  }

  /** The first pass leaves the layout of its items, and its labels on it. */
  lemma {:induction false} RunCollected(env: Env, s: State)
    requires NothingStuck(env.tokens) && Collected(s)
    ensures Collected(PassOne.Run(env, s))
    decreases |env.tokens| - s.pos
  {
    hide Collected, PassOneStep;
    if Current(env, s).kind.Eof? {
    } else {
      PassOneStepCollected(env, s);
      RunCollected(env, PassOneStep(env, s));
    }
  }
}
