/**
 Where the data comes from: reading the token list once, from left to right, says for each token whether it
 stands in a data section and under which directive, and so which items and labels it adds. The first pass
 records exactly these, in this order.
 */
module DataSource {
  import opened Words
  import opened Text
  import opened Layout
  import opened MainMemory
  import opened Tokens
  import opened ParserState
  import opened DataPass
  import opened TextPass
  import opened PassOne
  import opened EndToEnd
  import Assembly
  import DataTheorems
  import LabelCarrying
  import MemoryTheorems

  /**
   What a token is read as: a word at the top level, a part of the skipped text or bss, an entry of a data section,
   or something after the directive of an entry.
   */
  datatype Mode = Top | OfText | OfBss | Entry | Under(d: DataDirective)

  /** What a word at the top level opens. */
  function AfterTop(t: Token): Mode {
    if IsDirective(t, "section") then Top
    else if IsDirective(t, "data") then Entry
    else if IsDirective(t, "bss") then OfBss
    else if IsDirective(t, "text") || t.kind.Label? || t.kind.Opcode? then OfText
    else Top
  }

  /** A section word ends a data section and stands at the top level. */
  function AfterEntry(t: Token): Mode {
    if DataEnds(t) then AfterTop(t)
    else if t.kind.Label? then Entry
    else
      match DirectiveOf(t.value)
      case Some(d) => Under(d)
      case None => Entry
  }

  /** A value, or a comma between values. */
  predicate Continues(d: DataDirective, t: Token) { Accepts(d, t.kind) || t.kind.Comma? }

  /** Skipped text goes on to the next word that could open a data section, skipped bss to the next section word. */
  function After(mode: Mode, t: Token): Mode {
    match mode
    case Top => AfterTop(t)
    case OfText => if IsDataWord(t.value) then AfterTop(t) else OfText
    case OfBss => if DataEnds(t) then AfterTop(t) else OfBss
    case Entry => AfterEntry(t)
    case Under(d) => if Continues(d, t) then mode else AfterEntry(t)
  }

  /** How token `p` is read. */
  function ModeAt(tokens: seq<Token>, p: nat): Mode {
    if p == 0 then Top else After(ModeAt(tokens, p - 1), TokenAt(tokens, p - 1))
  }

  /** Token `p` is not a value of what stands before it. */
  predicate AtEntry(tokens: seq<Token>, p: nat) {
    var mode := ModeAt(tokens, p);
    mode.Entry? || (mode.Under? && !Continues(mode.d, TokenAt(tokens, p)))
  }

  predicate IsDataLabelAt(tokens: seq<Token>, p: nat) {
    var t := TokenAt(tokens, p);
    AtEntry(tokens, p) && t.kind.Label? && !DataEnds(t)
  }

  /** The directive after a label decides its alignment. */
  function LabelAlignment(tokens: seq<Token>, p: nat): Alignment {
    match DirectiveOf(TokenAt(tokens, p + 1).value)
    case Some(d) => DirectiveAlignment(d)
    case None => 1
  }

  /** Token `p` is a value of directive `d`. */
  predicate IsValueAt(tokens: seq<Token>, p: nat, d: DataDirective) {
    ModeAt(tokens, p) == Under(d) && Accepts(d, TokenAt(tokens, p).kind)
  }

  /** What token `p` adds to the record. */
  function EventsAt(tokens: seq<Token>, p: nat): seq<Event> {
    var mode, t := ModeAt(tokens, p), TokenAt(tokens, p);
    if mode.Under? && Accepts(mode.d, t.kind) then Repeated(ItemOf(mode.d, t.kind), Copies(mode.d, t.kind))
    else if IsDataLabelAt(tokens, p) then [Mark(LabelAlignment(tokens, p))]
    else []
  }

  function Repeated(item: DataItem, n: nat): (events: seq<Event>)
    ensures |events| == n && forall k :: 0 <= k < n ==> events[k] == Emit(item)
  {
    if n == 0 then [] else [Emit(item)] + Repeated(item, n - 1)
  }

  function EventsBefore(tokens: seq<Token>, n: nat): seq<Event> {
    if n == 0 then [] else EventsBefore(tokens, n - 1) + EventsAt(tokens, n - 1)
  }

  /** The data symbols of the first `n` tokens: each label at the data counter after its alignment, redefinitions winning. */
  function SymbolsBefore(tokens: seq<Token>, n: nat): map<string, SymbolData> {
    if n == 0 then map[]
    else if IsDataLabelAt(tokens, n - 1) then
      var t := TokenAt(tokens, n - 1);
      SymbolsBefore(tokens, n - 1)[t.value := SymbolData(ParserIndex(EventsBefore(tokens, n)), t.line, true)]
    else SymbolsBefore(tokens, n - 1)
  }

  /** Where in the record each label's last mark is. */
  function MarksBefore(tokens: seq<Token>, n: nat): map<string, nat> {
    if n == 0 then map[]
    else if IsDataLabelAt(tokens, n - 1) then
      MarksBefore(tokens, n - 1)[TokenAt(tokens, n - 1).value := |EventsBefore(tokens, n - 1)|]
    else MarksBefore(tokens, n - 1)
  }

  /** At the top level only the four section directives, labels and mnemonics are known. */
  predicate IsStrayWord(t: Token) {
    && !IsDirective(t, "section") && !IsDirective(t, "data") && !IsDirective(t, "bss") && !IsDirective(t, "text")
    && !t.kind.Label? && !t.kind.Opcode?
  }

  /** In a data section a label needs a directive after it, and anything else has to be a directive. */
  predicate IsBadEntry(tokens: seq<Token>, p: nat) {
    var t := TokenAt(tokens, p);
    if DataEnds(t) then IsStrayWord(t)
    else if t.kind.Label? then DirectiveOf(TokenAt(tokens, p + 1).value).None?
    else DirectiveOf(t.value).None?
  }

  /** The first pass finds token `p` in error. A `zero` of no bytes is one, too. */
  predicate IsDataError(tokens: seq<Token>, p: nat) {
    var t := TokenAt(tokens, p);
    && !t.kind.Eof?
    && match ModeAt(tokens, p)
       case Top => IsStrayWord(t)
       case OfText => IsDataWord(t.value) && IsStrayWord(t)
       case OfBss => DataEnds(t) && IsStrayWord(t)
       case Entry => IsBadEntry(tokens, p)
       case Under(d) =>
         if Accepts(d, t.kind) then d.Zero? && t.kind.n % TWO64 == 0 else !t.kind.Comma? && IsBadEntry(tokens, p)
  }

  /** The lines of the errors among the first `n` tokens. */
  function ErrorsBefore(tokens: seq<Token>, n: nat): seq<nat> {
    if n == 0 then []
    else ErrorsBefore(tokens, n - 1) + (if IsDataError(tokens, n - 1) then [TokenAt(tokens, n - 1).line] else [])
  }

  /** The last definition of a data label before token `n` is the one that stands. */
  predicate IsLastBefore(tokens: seq<Token>, p: nat, n: nat) {
    && p < n && IsDataLabelAt(tokens, p)
    && forall q :: p < q < n && IsDataLabelAt(tokens, q) ==> TokenAt(tokens, q).value != TokenAt(tokens, p).value
  }

  predicate MarkAt(tokens: seq<Token>, s: State, p: nat) {
    var name := TokenAt(tokens, p).value;
    && name in s.symbols && s.symbols[name].isData
    && name in s.marks && s.marks[name] == |EventsBefore(tokens, p)|
  }

  /** The record, the symbols and the errors are those of the tokens before the cursor. */
  predicate Traced(tokens: seq<Token>, s: State) {
    && s.events == EventsBefore(tokens, s.pos) && s.dataIndex == ParserIndex(s.events)
    && s.symbols == SymbolsBefore(tokens, s.pos) && s.marks == MarksBefore(tokens, s.pos)
    && s.errors == ErrorsBefore(tokens, s.pos)
  }

  lemma {:induction false} LastStands(tokens: seq<Token>, p: nat, n: nat)
    requires IsLastBefore(tokens, p, n)
    ensures var name := TokenAt(tokens, p).value;
      && name in SymbolsBefore(tokens, n) && SymbolsBefore(tokens, n)[name].isData
      && name in MarksBefore(tokens, n) && MarksBefore(tokens, n)[name] == |EventsBefore(tokens, p)|
    decreases n
  {
    hide IsDataLabelAt, ParserIndex, EventsBefore;
    if p < n - 1 { LastStands(tokens, p, n - 1); }
  }

  /*
   * Single steps.
   */

  /** Passing a token that is not a label. */
  lemma PassedTraced(tokens: seq<Token>, s: State, r: State)
    requires Traced(tokens, s) && r.pos == s.pos + 1 && !IsDataLabelAt(tokens, s.pos)
    requires r.events == s.events + EventsAt(tokens, s.pos) && r.marks == s.marks && r.symbols == s.symbols
    requires r.dataIndex == ParserIndex(r.events)
    requires r.errors == s.errors + (if IsDataError(tokens, s.pos) then [TokenAt(tokens, s.pos).line] else [])
    ensures Traced(tokens, r)
  {
    hide IsDataLabelAt, EventsAt, IsDataError, ParserIndex;
  }

  lemma {:induction false} EmitCopiesRepeats(s: State, item: DataItem, n: nat)
    requires s.dataIndex == ParserIndex(s.events)
    ensures var r := EmitCopies(s, item, n);
      && r.events == s.events + Repeated(item, n) && r.marks == s.marks && r.symbols == s.symbols && r.pos == s.pos
      && r.errors == s.errors && r.dataIndex == ParserIndex(r.events)
    decreases n
  {
    hide ParserIndex, AlignUp, ItemBytes, AlignmentOf;
    if n > 0 {
      DataTheorems.EventAppended(s.events, Emit(item));
      EmitCopiesRepeats(EmitItem(s, item), item, n - 1);
      assert s.events + [Emit(item)] + Repeated(item, n - 1) == s.events + Repeated(item, n);
    }
  }

  lemma EmitValueRepeats(s: State, d: DataDirective, t: Token)
    requires Accepts(d, t.kind) && s.dataIndex == ParserIndex(s.events)
    ensures var r := EmitValue(s, d, t);
      && r.events == s.events + Repeated(ItemOf(d, t.kind), Copies(d, t.kind))
      && r.marks == s.marks && r.symbols == s.symbols && r.pos == s.pos && r.dataIndex == ParserIndex(r.events)
      && r.errors == s.errors + (if d.Zero? && t.kind.n % TWO64 == 0 then [t.line] else [])
  {
    hide ParserIndex, ItemOf;
    EmitCopiesRepeats(s, ItemOf(d, t.kind), Copies(d, t.kind));
  }

  lemma ValueErrors(tokens: seq<Token>, p: nat, d: DataDirective)
    requires ModeAt(tokens, p) == Under(d) && Continues(d, TokenAt(tokens, p))
    ensures var t := TokenAt(tokens, p);
      IsDataError(tokens, p) <==> Accepts(d, t.kind) && d.Zero? && t.kind.n % TWO64 == 0
    ensures EventsAt(tokens, p) ==
      (if Accepts(d, TokenAt(tokens, p).kind) then Repeated(ItemOf(d, TokenAt(tokens, p).kind), Copies(d, TokenAt(tokens, p).kind)) else [])
    ensures ModeAt(tokens, p + 1) == Under(d) && !IsDataLabelAt(tokens, p)
  {
    hide ItemOf, Copies, IsBadEntry, DataEnds;
  }

  lemma {:induction false} ValuesTraced(env: Env, s: State, d: DataDirective)
    requires Traced(env.tokens, s) && ModeAt(env.tokens, s.pos) == Under(d)
    ensures var r := Values(env, s, d); Traced(env.tokens, r) && AtEntry(env.tokens, r.pos)
    decreases |env.tokens| - s.pos
  {
    hide Traced, EmitValue, Copies, ItemOf, ModeAt, EventsAt, IsDataError, IsDataLabelAt;
    var t := Current(env, s);
    if Continues(d, t) {
      TracedIndex(env.tokens, s);
      ValueErrors(env.tokens, s.pos, d);
      if Accepts(d, t.kind) {
        EmitValueRepeats(s, d, t);
        var r := Next(env, EmitValue(s, d, t));
        PassedTraced(env.tokens, s, r);
        ValuesTraced(env, r, d);
      } else {
        assert s.events + [] == s.events && s.errors + [] == s.errors;
        PassedTraced(env.tokens, s, Next(env, s));
        ValuesTraced(env, Next(env, s), d);
      }
    }
  }

  lemma TracedIndex(tokens: seq<Token>, s: State)
    requires Traced(tokens, s)
    ensures s.dataIndex == ParserIndex(s.events)
  {
  }

  lemma LabelTraced(env: Env, s: State)
    requires Traced(env.tokens, s) && IsDataLabelAt(env.tokens, s.pos) && s.pos < |env.tokens|
    ensures Traced(env.tokens, Next(env, DefineData(env, s)))
  {
    hide IsDataLabelAt, DefineData, EventsAt, ParserIndex, IsDataError;
    LabelEvent(env.tokens, s.pos);
    LabelDefined(env, s);
  }

  /** What defining a label changes. */
  lemma LabelDefined(env: Env, s: State)
    requires s.dataIndex == ParserIndex(s.events)
    ensures var r, t := DefineData(env, s), Current(env, s);
      && r.pos == s.pos && r.events == s.events + [Mark(LabelAlignment(env.tokens, s.pos))]
      && r.dataIndex == ParserIndex(r.events)
      && r.symbols == s.symbols[t.value := SymbolData(r.dataIndex, t.line, true)]
      && r.marks == s.marks[t.value := |s.events|]
      && r.errors == s.errors + (if DirectiveOf(Peek(env, s, 1).value).None? then [t.line] else [])
  {
    hide AlignUp, DirectiveOf, DirectiveAlignment, ParserIndex, DefineData;
    var a := LabelAlignment(env.tokens, s.pos);
    DataTheorems.EventAppended(s.events, Mark(a));
    DataTheorems.DefineDataMoves(env, s, a);
    LabelErrors(env, s);
  }

  lemma LabelErrors(env: Env, s: State)
    ensures DefineData(env, s).errors ==
      s.errors + (if DirectiveOf(Peek(env, s, 1).value).None? then [Current(env, s).line] else [])
  {
    hide DirectiveOf, DirectiveAlignment, AlignUp;
  }

  lemma LabelEvent(tokens: seq<Token>, p: nat)
    requires IsDataLabelAt(tokens, p)
    ensures EventsAt(tokens, p) == [Mark(LabelAlignment(tokens, p))]
    ensures IsDataError(tokens, p) <==> DirectiveOf(TokenAt(tokens, p + 1).value).None?
  {
    hide DirectiveOf;
  }

  /** An entry that is not a label adds nothing itself. */
  lemma EntryAddsNothing(tokens: seq<Token>, p: nat)
    requires AtEntry(tokens, p) && (!TokenAt(tokens, p).kind.Label? || DataEnds(TokenAt(tokens, p)))
    ensures EventsAt(tokens, p) == [] && !IsDataLabelAt(tokens, p)
    ensures ModeAt(tokens, p + 1) == AfterEntry(TokenAt(tokens, p))
  {
    hide DataEnds, DirectiveOf;
  }

  lemma LabelIsEntry(tokens: seq<Token>, p: nat)
    requires AtEntry(tokens, p)
    ensures ModeAt(tokens, p + 1) == AfterEntry(TokenAt(tokens, p))
  {
    hide DataEnds, DirectiveOf;
  }

  lemma DirectiveErrors(tokens: seq<Token>, p: nat)
    requires AtEntry(tokens, p) && !TokenAt(tokens, p).kind.Label? && !DataEnds(TokenAt(tokens, p))
    ensures IsDataError(tokens, p) <==> DirectiveOf(TokenAt(tokens, p).value).None?
  {
    hide DirectiveOf;
  }

  lemma DirectiveTraced(env: Env, s: State)
    requires Traced(env.tokens, s) && AtEntry(env.tokens, s.pos) && s.pos < |env.tokens|
    requires !Current(env, s).kind.Label? && !Current(env, s).kind.Eof? && !DataEnds(Current(env, s))
    ensures var r := DataStep(env, s); Traced(env.tokens, r) && AtEntry(env.tokens, r.pos)
  {
    hide Traced, DirectiveOf, DataEnds, AtEntry, EventsAt, IsDataLabelAt, IsDataError, ModeAt;
    var t, next, failed := Current(env, s), Next(env, s), Next(env, Fail(s, Current(env, s).line));
    EntryAddsNothing(env.tokens, s.pos);
    DirectiveErrors(env.tokens, s.pos);
    TracedIndex(env.tokens, s);
    assert s.events + [] == s.events && s.errors + [] == s.errors;
    if DirectiveOf(t.value).Some? {
      PassedTraced(env.tokens, s, next);
      ValuesTraced(env, next, DirectiveOf(t.value).value);
    } else {
      PassedTraced(env.tokens, s, failed);
      EntryMode(env.tokens, s.pos + 1);
    }
  }

  lemma EntryMode(tokens: seq<Token>, p: nat)
    requires ModeAt(tokens, p).Entry?
    ensures AtEntry(tokens, p)
  {
  }

  lemma DataStepTraced(env: Env, s: State)
    requires Traced(env.tokens, s) && AtEntry(env.tokens, s.pos) && !DataEnds(Current(env, s))
    ensures var r := DataStep(env, s); Traced(env.tokens, r) && AtEntry(env.tokens, r.pos)
  {
    hide Traced, DirectiveOf, AtEntry, DefineData, ModeAt;
    if Current(env, s).kind.Label? {
      LabelIsEntry(env.tokens, s.pos);
      assert IsDataLabelAt(env.tokens, s.pos);
      LabelTraced(env, s);
      TracedIndex(env.tokens, s);
      LabelDefined(env, s);
      EntryMode(env.tokens, s.pos + 1);
    } else {
      DirectiveTraced(env, s);
    }
  }

  lemma {:induction false} DataSectionTraced(env: Env, s: State)
    requires Traced(env.tokens, s) && AtEntry(env.tokens, s.pos)
    ensures var r := DataSection(env, s); Traced(env.tokens, r) && AtEntry(env.tokens, r.pos)
    decreases |env.tokens| - s.pos
  {
    hide Traced, AtEntry, DataStep;
    if DataEnds(Current(env, s)) {
    } else {
      DataStepTraced(env, s);
      DataSectionTraced(env, DataStep(env, s));
    }
  }

  /** Where the outer loop stands: at a word of the top level, or at the end of file. */
  predicate AtTop(tokens: seq<Token>, p: nat) {
    var t := TokenAt(tokens, p);
    || t.kind.Eof? || ModeAt(tokens, p).Top? || (ModeAt(tokens, p).OfText? && IsDataWord(t.value))
    || (ModeAt(tokens, p).OfBss? && DataEnds(t)) || (AtEntry(tokens, p) && DataEnds(t))
  }

  lemma TopAddsNothing(tokens: seq<Token>, p: nat)
    requires AtTop(tokens, p) && !TokenAt(tokens, p).kind.Eof?
    ensures EventsAt(tokens, p) == [] && !IsDataLabelAt(tokens, p)
    ensures ModeAt(tokens, p + 1) == AfterTop(TokenAt(tokens, p))
    ensures IsDataError(tokens, p) <==> IsStrayWord(TokenAt(tokens, p))
  {
    hide DirectiveOf, AfterTop, IsStrayWord;
    ValuesAreNotEnds(tokens, p);
  }

  lemma ValuesAreNotEnds(tokens: seq<Token>, p: nat)
    requires AtEntry(tokens, p)  || !ModeAt(tokens, p).Under?
    ensures ModeAt(tokens, p).Under? ==> !Continues(ModeAt(tokens, p).d, TokenAt(tokens, p))
  {
    hide ModeAt;
  }

  /** Stepping over a word of the top level. */
  lemma TopStepTraced(env: Env, s: State, r: State)
    requires Traced(env.tokens, s) && AtTop(env.tokens, s.pos) && r.pos == s.pos + 1 && !Current(env, s).kind.Eof?
    requires r.events == s.events && r.marks == s.marks && r.symbols == s.symbols && r.dataIndex == s.dataIndex
    requires r.errors == s.errors + (if IsStrayWord(Current(env, s)) then [Current(env, s).line] else [])
    ensures Traced(env.tokens, r) && ModeAt(env.tokens, r.pos) == AfterTop(Current(env, s))
  {
    hide Traced, AtTop, EventsAt, IsDataLabelAt, ModeAt, AfterTop, IsStrayWord, IsDataError;
    TopAddsNothing(env.tokens, s.pos);
    TracedIndex(env.tokens, s);
    assert s.events + [] == s.events && s.errors + [] == s.errors;
    PassedTraced(env.tokens, s, r);
  }

  /** Tokens of a skipped section add nothing. */
  lemma SkippedTraced(env: Env, s: State, r: State)
    requires Traced(env.tokens, s) && r == s.(pos := s.pos + 1)
    requires var mode, t := ModeAt(env.tokens, s.pos), Current(env, s);
      (mode.OfText? && !IsDataWord(t.value)) || (mode.OfBss? && !DataEnds(t))
    ensures Traced(env.tokens, r) && ModeAt(env.tokens, r.pos) == ModeAt(env.tokens, s.pos)
  {
    hide Traced, DataEnds;
    TracedIndex(env.tokens, s);
    assert s.events + [] == s.events && s.errors + [] == s.errors;
    PassedTraced(env.tokens, s, r);
  }

  lemma {:induction false} BssTraced(env: Env, s: State)
    requires Traced(env.tokens, s) && ModeAt(env.tokens, s.pos).OfBss?
    ensures var r := BssSection(env, s); Traced(env.tokens, r) && AtTop(env.tokens, r.pos)
    decreases |env.tokens| - s.pos
  {
    hide Traced, ModeAt;
    if DataEnds(Current(env, s)) {
    } else {
      SkippedTraced(env, s, Next(env, s));
      BssTraced(env, Next(env, s));
    }
  }

  /** Skipping the text, which stops at every word that could open a data section. */
  lemma {:induction false} SkipTraced(env: Env, s: State)
    requires Traced(env.tokens, s) && ModeAt(env.tokens, s.pos).OfText? && s.pos <= |env.tokens|
    ensures var r := s.(pos := SkipTo(env.tokens, s.pos, SkippedText)); Traced(env.tokens, r) && AtTop(env.tokens, r.pos)
    decreases |env.tokens| - s.pos
  {
    hide Traced, ModeAt, AtEntry, DataEnds;
    var t := Current(env, s);
    if !t.kind.Eof? && !IsDataWord(t.value) {
      var r := s.(pos := s.pos + 1);
      SkippedTraced(env, s, r);
      SkipTraced(env, r);
      assert s.(pos := SkipTo(env.tokens, s.pos, SkippedText)) == r.(pos := SkipTo(env.tokens, r.pos, SkippedText));
    } else {
      assert s.(pos := SkipTo(env.tokens, s.pos, SkippedText)) == s;
    }
  }

  lemma DataSectionAtTop(env: Env, s: State)
    requires AtEntry(env.tokens, DataSection(env, s).pos)
    ensures AtTop(env.tokens, DataSection(env, s).pos)
  {
    hide AtEntry, ModeAt, DataEnds;
  }

  /** A word that opens the text, or starts it. */
  lemma TextTraced(env: Env, s: State)
    requires NothingStuck(env.tokens) && Traced(env.tokens, s) && AtTop(env.tokens, s.pos) && s.pos < |env.tokens|
    requires var t := Current(env, s); IsDirective(t, "text") || t.kind.Label? || t.kind.Opcode?
    ensures var r := s.(pos := SkipTo(env.tokens, s.pos, SkippedText)); Traced(env.tokens, r) && AtTop(env.tokens, r.pos)
  {
    hide Traced, ModeAt, AtTop;
    var t, next := Current(env, s), s.(pos := s.pos + 1);
    assert !IsStuck(t) && !IsDataWord(t.value);
    assert s.errors + [] == s.errors;
    TopStepTraced(env, s, next);
    SkipTraced(env, next);
    assert s.(pos := SkipTo(env.tokens, s.pos, SkippedText)) == next.(pos := SkipTo(env.tokens, next.pos, SkippedText));
  }

  lemma PassOneStepTraced(env: Env, s: State)
    requires NothingStuck(env.tokens) && Traced(env.tokens, s) && AtTop(env.tokens, s.pos) && !Current(env, s).kind.Eof?
    ensures var r := PassOneStep(env, s); Traced(env.tokens, r) && AtTop(env.tokens, r.pos)
  {
    hide Traced, ModeAt, AtEntry, DataEnds, DataSection, BssSection;
    var t, next, failed := Current(env, s), Next(env, s), Next(env, Fail(s, Current(env, s).line));
    assert s.errors + [] == s.errors;
    if IsStrayWord(t) {
      TopStepTraced(env, s, failed);
    } else if IsDirective(t, "text") || t.kind.Label? || t.kind.Opcode? {
      TextTraced(env, s);
    } else {
      TopStepTraced(env, s, next);
      if IsDirective(t, "data") {
        EntryMode(env.tokens, next.pos);
        DataSectionTraced(env, next);
        DataSectionAtTop(env, next);
      } else if IsDirective(t, "bss") {
        BssTraced(env, next);
      }
    }
  }

  lemma {:induction false} RunTraced(env: Env, s: State)
    requires NothingStuck(env.tokens) && Traced(env.tokens, s) && AtTop(env.tokens, s.pos)
    ensures Traced(env.tokens, PassOne.Run(env, s))
    decreases |env.tokens| - s.pos
  {
    hide Traced, AtTop, PassOneStep;
    if Current(env, s).kind.Eof? {
    } else {
      PassOneStepTraced(env, s);
      RunTraced(env, PassOneStep(env, s));
    }
  }

  /*
   * Whole programs.
   */

  lemma NothingTraced(env: Env)
    ensures Traced(env.tokens, START) && AtTop(env.tokens, START.pos)
  {
  }

  lemma EofAddsNothing(tokens: seq<Token>, p: nat)
    requires TokenAt(tokens, p).kind.Eof?
    ensures EventsAt(tokens, p) == [] && !IsDataLabelAt(tokens, p) && !IsDataError(tokens, p)
  {
  }

  /** What the tokens up to there add up to. */
  predicate SameBefore(tokens: seq<Token>, m: nat, n: nat) {
    && EventsBefore(tokens, m) == EventsBefore(tokens, n) && SymbolsBefore(tokens, m) == SymbolsBefore(tokens, n)
    && MarksBefore(tokens, m) == MarksBefore(tokens, n) && ErrorsBefore(tokens, m) == ErrorsBefore(tokens, n)
  }

  /** Nothing comes after the end of file. */
  lemma {:induction false} NothingAfterEof(tokens: seq<Token>, n: nat)
    requires EofTerminated(tokens) && |tokens| - 1 <= n
    ensures SameBefore(tokens, |tokens| - 1, n)
    decreases n
  {
    hide EventsAt, IsDataLabelAt, IsDataError, ParserIndex;
    if |tokens| - 1 < n {
      NothingAfterEof(tokens, n - 1);
      EofAddsNothing(tokens, n - 1);
    }
  }

  /**
   The first pass, for every token list on which it ends, whether or not there are errors: its record, its symbols
   and the lines of its errors are those that reading the tokens once from left to right gives.
   */
  lemma FirstPassIs(env: Env)
    requires NothingStuck(env.tokens) && EofTerminated(env.tokens)
    ensures var s, n := Assembly.AfterPassOne(env), |env.tokens|;
      && s.events == EventsBefore(env.tokens, n) && s.symbols == SymbolsBefore(env.tokens, n)
      && s.marks == MarksBefore(env.tokens, n) && s.errors == ErrorsBefore(env.tokens, n)
  {
    hide IsDataLabelAt, EventsBefore, SymbolsBefore, MarksBefore, ErrorsBefore, PassOne.Run;
    NothingTraced(env);
    RunTraced(env, START);
    NothingAfterEof(env.tokens, Assembly.AfterPassOne(env).pos);
    NothingAfterEof(env.tokens, |env.tokens|);
  }

  /** The record of a parse is that of its tokens. */
  lemma EventsAreTokens(env: Env)
    requires Accepted(env) && EofTerminated(env.tokens)
    ensures Assembly.Parse(env).events == EventsBefore(env.tokens, |env.tokens|)
    ensures forall p :: IsLastBefore(env.tokens, p, |env.tokens|) ==> MarkAt(env.tokens, Assembly.Parse(env), p)
  {
    hide EventsBefore, SymbolsBefore, MarksBefore, ErrorsBefore, Assembly.Parse, Assembly.AfterPassOne, IsLastBefore, MarkAt;
    FirstPassIs(env);
    Assembly.ParseKeepsEvents(env);
    SymbolsStay(env);
    forall p | IsLastBefore(env.tokens, p, |env.tokens|) ensures MarkAt(env.tokens, Assembly.Parse(env), p) {
      LastStands(env.tokens, p, |env.tokens|);
      LastIsMarked(env.tokens, Assembly.AfterPassOne(env), p);
      MarkStays(env.tokens, Assembly.AfterPassOne(env), Assembly.Parse(env), p);
    }
  }

  lemma LastIsMarked(tokens: seq<Token>, s: State, p: nat)
    requires IsLastBefore(tokens, p, |tokens|)
    requires s.symbols == SymbolsBefore(tokens, |tokens|) && s.marks == MarksBefore(tokens, |tokens|)
    ensures MarkAt(tokens, s, p)
  {
    hide IsDataLabelAt;
    LastStands(tokens, p, |tokens|);
  }

  lemma SymbolsStay(env: Env)
    requires NothingStuck(env.tokens)
    ensures var one, r := Assembly.AfterPassOne(env), Assembly.Parse(env);
      r.marks == one.marks && forall name <- one.symbols :: name in r.symbols && r.symbols[name] == one.symbols[name]
  {
    hide Assembly.AfterPassOne, Assembly.AfterPassTwo, Assembly.Ordered, Assembly.Placed, Assembly.Aimed,
      DataTheorems.Collected, PatchOne;
    Assembly.PassesKept(env);
    Assembly.PatchAllFrame(Assembly.AfterPassTwo(env), Assembly.AfterPassTwo(env).backPatch);
  }

  lemma MarkStays(tokens: seq<Token>, s: State, r: State, p: nat)
    requires MarkAt(tokens, s, p) && r.marks == s.marks
    requires forall name <- s.symbols :: name in r.symbols && r.symbols[name] == s.symbols[name]
    ensures MarkAt(tokens, r, p)
  {
  }

  /** The items that token `p` stands for: none, if it is not a value. */
  function ItemsAt(tokens: seq<Token>, p: nat): seq<DataItem> {
    var mode, t := ModeAt(tokens, p), TokenAt(tokens, p);
    if mode.Under? && Accepts(mode.d, t.kind) then seq(Copies(mode.d, t.kind), _ => ItemOf(mode.d, t.kind)) else []
  }

  /** The items that the values among the first `n` tokens of the list stand for, in their order. */
  function ValuesBefore(tokens: seq<Token>, n: nat): seq<DataItem> {
    if n == 0 then [] else ValuesBefore(tokens, n - 1) + ItemsAt(tokens, n - 1)
  }

  lemma RepeatedStep(events: seq<Event>, item: DataItem, n: nat)
    ensures events + Repeated(item, 0) == events
    ensures n > 0 ==> events + Repeated(item, n) == events + [Emit(item)] + Repeated(item, n - 1)
  {
  }

  lemma CopiesStep(items: seq<DataItem>, item: DataItem, n: nat)
    ensures items + seq(0, _ => item) == items
    ensures n > 0 ==> items + [item] + seq(n - 1, _ => item) == items + seq(n, _ => item)
  {
  }

  lemma {:induction false} ItemsOfRepeated(events: seq<Event>, item: DataItem, n: nat)
    ensures Items(events + Repeated(item, n)) == Items(events) + seq(n, _ => item)
    decreases n
  {
    hide Items, Repeated;
    RepeatedStep(events, item, n);
    CopiesStep(Items(events), item, n);
    if n > 0 {
      ItemsOfRepeated(events + [Emit(item)], item, n - 1);
      DataTheorems.EventAppended(events, Emit(item));
    }
  }

  lemma ItemsOfToken(tokens: seq<Token>, p: nat, events: seq<Event>)
    ensures Items(events + EventsAt(tokens, p)) == Items(events) + ItemsAt(tokens, p)
  {
    hide ModeAt, IsDataLabelAt, ItemOf, Copies, Items, Repeated;
    var mode, t := ModeAt(tokens, p), TokenAt(tokens, p);
    if mode.Under? && Accepts(mode.d, t.kind) {
      ItemsOfRepeated(events, ItemOf(mode.d, t.kind), Copies(mode.d, t.kind));
    } else if IsDataLabelAt(tokens, p) {
      DataTheorems.EventAppended(events, Mark(LabelAlignment(tokens, p)));
    } else {
      assert events + [] == events;
    }
  }

  lemma NoItems()
    ensures Items([]) == []
  {
  }

  lemma {:induction false} ItemsAreValues(tokens: seq<Token>, n: nat)
    ensures Items(EventsBefore(tokens, n)) == ValuesBefore(tokens, n)
    decreases n
  {
    hide EventsAt, ItemsAt, Items;
    NoItems();
    if n > 0 {
      ItemsAreValues(tokens, n - 1);
      ItemsOfToken(tokens, n - 1, EventsBefore(tokens, n - 1));
    }
  }

  /** Every value of the data sections emits its items, in the order of the tokens, and nothing else does. */
  lemma DataIsComplete(env: Env)
    requires Accepted(env) && EofTerminated(env.tokens)
    ensures Assembly.Parse(env).dataBuffer == ValuesBefore(env.tokens, |env.tokens|)
  {
    hide Assembly.Parse, EventsBefore, ValuesBefore, IsLastBefore, Assembly.Ordered, Assembly.Placed, Assembly.PatchedUnits,
      Assembly.DataLabelsPlaced, Items;
    EventsAreTokens(env);
    Assembly.ParseIsWellAssembled(env);
    ItemsAreValues(env.tokens, |env.tokens|);
  }

  /*
   * From a data line to memory.
   */

  lemma {:induction false} BeforeIsPrefix(tokens: seq<Token>, m: nat, n: nat)
    requires m <= n
    ensures EventsBefore(tokens, m) <= EventsBefore(tokens, n)
    decreases n
  {
    hide EventsAt;
    if m < n { BeforeIsPrefix(tokens, m, n - 1); }
  }

  /** A label, a directive and a value give a label and an item in the record. */
  lemma LabelledValueEvents(tokens: seq<Token>, p: nat, d: DataDirective)
    requires IsDataLabelAt(tokens, p) && DirectiveOf(TokenAt(tokens, p + 1).value) == Some(d)
    requires LabelCarrying.HasValue(TokenAt(tokens, p + 1), TokenAt(tokens, p + 2))
    ensures var j := |EventsBefore(tokens, p)|;
      var events := EventsBefore(tokens, p + 3);
      && j + 1 < |events| && events[j] == Mark(DirectiveAlignment(d))
      && events[j + 1] == Emit(ItemOf(d, TokenAt(tokens, p + 2).kind))
  {
    hide DirectiveOf, ItemOf, EventsBefore, DataEnds, EventsAt, IsDataLabelAt, AtEntry;
    var item, n := ItemOf(d, TokenAt(tokens, p + 2).kind), Copies(d, TokenAt(tokens, p + 2).kind);
    LabelEvent(tokens, p);
    LabelledModes(tokens, p, d);
    EntryAddsNothing(tokens, p + 1);
    ThreeMore(tokens, p);
    assert EventsAt(tokens, p + 2) == Repeated(item, n) by { ValueEvents(tokens, p + 2, d); }
  }

  lemma ThreeMore(tokens: seq<Token>, p: nat)
    ensures EventsBefore(tokens, p + 3) ==
      EventsBefore(tokens, p) + EventsAt(tokens, p) + EventsAt(tokens, p + 1) + EventsAt(tokens, p + 2)
  {
    hide EventsAt;
    assert EventsBefore(tokens, p + 1) == EventsBefore(tokens, p) + EventsAt(tokens, p);
    assert EventsBefore(tokens, p + 2) == EventsBefore(tokens, p + 1) + EventsAt(tokens, p + 1);
    assert EventsBefore(tokens, p + 3) == EventsBefore(tokens, p + 2) + EventsAt(tokens, p + 2);
  }

  lemma ValueEvents(tokens: seq<Token>, p: nat, d: DataDirective)
    requires IsValueAt(tokens, p, d)
    ensures EventsAt(tokens, p) == Repeated(ItemOf(d, TokenAt(tokens, p).kind), Copies(d, TokenAt(tokens, p).kind))
  {
    hide ModeAt, ItemOf, Copies;
  }

  lemma LabelledModes(tokens: seq<Token>, p: nat, d: DataDirective)
    requires IsDataLabelAt(tokens, p) && DirectiveOf(TokenAt(tokens, p + 1).value) == Some(d)
    requires LabelCarrying.HasValue(TokenAt(tokens, p + 1), TokenAt(tokens, p + 2))
    ensures AtEntry(tokens, p + 1) && !TokenAt(tokens, p + 1).kind.Label? && IsValueAt(tokens, p + 2, d)
  {
    hide DirectiveOf, DataEnds, Copies;
    LabelIsAtEntry(tokens, p);
    LabelIsEntry(tokens, p);
    EntryMode(tokens, p + 1);
    LabelIsEntry(tokens, p + 1);
    DirectiveEnds(TokenAt(tokens, p + 1));
  }

  lemma LabelIsAtEntry(tokens: seq<Token>, p: nat)
    requires IsDataLabelAt(tokens, p)
    ensures AtEntry(tokens, p) && TokenAt(tokens, p).kind.Label? && !DataEnds(TokenAt(tokens, p))
  {
  }

  lemma DirectiveEnds(t: Token)
    requires DirectiveOf(t.value).Some? && !t.kind.Eof?
    ensures !DataEnds(t)
  {
  }

  /** The last data label of its name, followed by a directive. */
  predicate IsLabelledDirective(tokens: seq<Token>, p: nat, d: DataDirective) {
    IsLastBefore(tokens, p, |tokens|) && DirectiveOf(TokenAt(tokens, p + 1).value) == Some(d)
  }

  /** Where the record has the label and its first value. */
  lemma LabelledValueIsThere(env: Env, p: nat, d: DataDirective)
    requires Accepted(env) && EofTerminated(env.tokens) && IsLabelledDirective(env.tokens, p, d)
    requires LabelCarrying.HasValue(TokenAt(env.tokens, p + 1), TokenAt(env.tokens, p + 2))
    ensures var s, j := Assembly.Parse(env), |EventsBefore(env.tokens, p)|;
      && IsDataLabel(env, env.tokens[p].value, j)
      && j + 1 < |s.events| && s.events[j + 1] == Emit(ItemOf(d, TokenAt(env.tokens, p + 2).kind))
  {
    hide Assembly.Parse, EventsBefore, ItemOf, DirectiveOf, IsDataLabelAt;
    EventsAreTokens(env);
    assert MarkAt(env.tokens, Assembly.Parse(env), p);
    LabelledValueEvents(env.tokens, p, d);
    ValueIsInside(env.tokens, p, d);
    BeforeIsPrefix(env.tokens, p + 3, |env.tokens|);
  }

  lemma ValueIsInside(tokens: seq<Token>, p: nat, d: DataDirective)
    requires DirectiveOf(TokenAt(tokens, p + 1).value) == Some(d)
    requires LabelCarrying.HasValue(TokenAt(tokens, p + 1), TokenAt(tokens, p + 2))
    ensures p + 3 <= |tokens|
  {
    hide DirectiveOf, Copies;
  }

  /**
   In a loaded program, where a label stands before a directive and a value, the bytes of that value are at the
   section base plus the label's address, unless the label is defined again.
   */
  lemma DataTokenReachesMemory(env: Env, m: Mem, p: nat, d: DataDirective)
    requires Loads(env, m) && EofTerminated(env.tokens) && LabelCarrying.LabelledDirectivesHaveValues(env.tokens)
    requires IsLabelledDirective(env.tokens, p, d)
    ensures var s, name, value := Assembly.Parse(env), env.tokens[p].value, TokenAt(env.tokens, p + 2);
      && name in s.symbols && s.symbols[name].isData && Accepts(d, value.kind)
      && var item, a := ItemOf(d, value.kind), env.dataStart + s.symbols[name].address;
         && a + |ItemBytes(item)| <= m.size
         && MemoryTheorems.BytesAt(EndToEnd.Memory(env, m), a, |ItemBytes(item)|) == ItemBytes(item)
  {
    hide Assembly.Parse, EventsBefore, ItemOf, DirectiveOf, IsDataLabelAt, MemoryTheorems.BytesAt, EndToEnd.Memory, Code, ItemBytes;
    LabelHasValue(env.tokens, p, d);
    LabelledValueIsThere(env, p, d);
    DataLabelReachesData(env, m, env.tokens[p].value, |EventsBefore(env.tokens, p)|);
  }

  lemma LabelHasValue(tokens: seq<Token>, p: nat, d: DataDirective)
    requires LabelCarrying.LabelledDirectivesHaveValues(tokens) && IsLabelledDirective(tokens, p, d)
    ensures LabelCarrying.HasValue(TokenAt(tokens, p + 1), TokenAt(tokens, p + 2)) && Accepts(d, TokenAt(tokens, p + 2).kind)
  {
    hide DirectiveOf, DataEnds, Copies, AtEntry;
  }
}
