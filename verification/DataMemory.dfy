/**
 From a data line to memory: the values of a labelled directive, one after the other, are the bytes that a loaded
 program has from its label on.
 */
module DataMemory {
  import opened Words
  import opened Text
  import opened Layout
  import opened MainMemory
  import opened Tokens
  import opened ParserState
  import opened DataPass
  import opened PassOne
  import opened EndToEnd
  import opened DataItems
  import opened DataSource
  import Assembly
  import DataTheorems
  import LabelCarrying
  import Loader
  import MemoryTheorems

  /** A labelled directive with `n` values and commas between them. */
  predicate IsArray(tokens: seq<Token>, p: nat, d: DataDirective, n: nat) {
    && IsLabelledDirective(tokens, p, d) && n > 0
    && (forall k :: 0 <= k < n ==> Accepts(d, ValueAt(tokens, p, k).kind))
    && (forall k :: 0 <= k < n - 1 ==> TokenAt(tokens, p + 3 + 2 * k).kind.Comma?)
  }

  /** The token of value `k`. */
  function ValueAt(tokens: seq<Token>, p: nat, k: nat): Token { TokenAt(tokens, p + 2 + 2 * k) }

  /** The bytes of the first `n` values. */
  function ArrayBytes(tokens: seq<Token>, p: nat, d: DataDirective, n: nat): seq<bv8>
    requires forall k :: 0 <= k < n ==> Accepts(d, ValueAt(tokens, p, k).kind)
  {
    if n == 0 then [] else ArrayBytes(tokens, p, d, n - 1) + ValueBytes(d, ValueAt(tokens, p, n - 1).kind)
  }

  function ArrayItems(tokens: seq<Token>, p: nat, d: DataDirective, n: nat): seq<DataItem>
    requires forall k :: 0 <= k < n ==> Accepts(d, ValueAt(tokens, p, k).kind)
  {
    if n == 0 then []
    else
      var kind := ValueAt(tokens, p, n - 1).kind;
      ArrayItems(tokens, p, d, n - 1) + seq(Copies(d, kind), _ => ItemOf(d, kind))
  }

  /*
   * Items and their bytes.
   */

  lemma {:induction false} FlatJoins(s: seq<DataItem>, t: seq<DataItem>)
    ensures Flat(s + t) == Flat(s) + Flat(t)
    decreases |t|
  {
    hide ItemBytes;
    if t == [] {
      assert s + t == s;
    } else {
      var n := |t| - 1;
      FlatJoins(s, t[..n]);
      assert (s + t)[..|s + t| - 1] == s + t[..n];
    }
  }

  lemma {:induction false} ArrayIsFlat(tokens: seq<Token>, p: nat, d: DataDirective, n: nat)
    requires forall k :: 0 <= k < n ==> Accepts(d, ValueAt(tokens, p, k).kind)
    ensures Flat(ArrayItems(tokens, p, d, n)) == ArrayBytes(tokens, p, d, n)
    decreases n
  {
    hide Flat, ValueBytes, Copies, ItemOf;
    if n == 0 {
      NothingIsFlat();
    } else {
      var kind := ValueAt(tokens, p, n - 1).kind;
      ArrayIsFlat(tokens, p, d, n - 1);
      FlatJoins(ArrayItems(tokens, p, d, n - 1), seq(Copies(d, kind), _ => ItemOf(d, kind)));
      ItemsHoldValue(d, kind);
    }
  }

  lemma NothingIsFlat()
    ensures Flat([]) == []
  {
  }

  /** All items have this alignment, and fill it. */
  predicate Packed(items: seq<DataItem>, a: Alignment) {
    forall item <- items :: AlignmentOf(item) == a && Rest(|ItemBytes(item)|, a) == 0
  }

  lemma PackedItem(d: DataDirective, kind: Kind)
    requires Accepts(d, kind)
    ensures var item := ItemOf(d, kind); AlignmentOf(item) == DirectiveAlignment(d) && Rest(|ItemBytes(item)|, DirectiveAlignment(d)) == 0
  {
    hide Unescape, FromInt64, Bytes.ToBytes;
  }

  lemma {:induction false} ArrayIsPacked(tokens: seq<Token>, p: nat, d: DataDirective, n: nat)
    requires forall k :: 0 <= k < n ==> Accepts(d, ValueAt(tokens, p, k).kind)
    ensures Packed(ArrayItems(tokens, p, d, n), DirectiveAlignment(d))
    decreases n
  {
    hide ItemOf, Copies, ItemBytes, AlignmentOf, DirectiveAlignment, Rest;
    if n > 0 {
      ArrayIsPacked(tokens, p, d, n - 1);
      PackedItem(d, ValueAt(tokens, p, n - 1).kind);
    }
  }

  lemma RestOfSum(x: nat, y: nat, a: Alignment)
    requires Rest(x, a) == 0 && Rest(y, a) == 0
    ensures Rest(x + y, a) == 0
  {
  }

  /** Items that fill their common alignment lie one directly after the other. */
  lemma {:induction false} PackedIsContiguous(items: seq<DataItem>, q: nat, c: nat, a: Alignment)
    requires c > 0 && q + c <= |items| && Packed(items[q..q + c], a)
    ensures Start(items, q + c - 1) == Start(items, q) + |Flat(items[q..q + c - 1])|
    ensures Rest(Start(items, q + c - 1), a) == 0
    decreases c
  {
    hide ItemBytes, AlignmentOf, End, Start, Rest, Flat, Packed;
    PackedAt(items, q, c, a, c - 1);
    StartIsMultiple(items, q + c - 1);
    if c == 1 {
      assert items[q..q] == [];
      NothingIsFlat();
    } else {
      var k := q + c - 2;
      PackedAt(items, q, c, a, c - 2);
      PackedPrefix(items, q, c, a);
      PackedIsContiguous(items, q, c - 1, a);
      NextStart(items, k, a);
      assert items[q..q + c - 1] == items[q..k] + [items[k]];
      FlatLast(items[q..k], items[k]);
    }
  }

  lemma PackedAt(items: seq<DataItem>, q: nat, c: nat, a: Alignment, i: nat)
    requires i < c && q + c <= |items| && Packed(items[q..q + c], a)
    ensures AlignmentOf(items[q + i]) == a && Rest(|ItemBytes(items[q + i])|, a) == 0
  {
    hide ItemBytes, AlignmentOf, Rest;
    assert items[q..q + c][i] == items[q + i];
  }

  lemma PackedPrefix(items: seq<DataItem>, q: nat, c: nat, a: Alignment)
    requires c > 0 && q + c <= |items| && Packed(items[q..q + c], a)
    ensures Packed(items[q..q + (c - 1)], a)
  {
    hide ItemBytes, AlignmentOf, Rest;
    assert items[q..q + (c - 1)] == items[q..q + c][..c - 1];
  }

  lemma FlatLast(items: seq<DataItem>, item: DataItem)
    ensures Flat(items + [item]) == Flat(items) + ItemBytes(item)
  {
    assert (items + [item])[..|items|] == items;
  }

  lemma StartIsMultiple(items: seq<DataItem>, k: nat)
    requires k < |items|
    ensures Rest(Start(items, k), AlignmentOf(items[k])) == 0
  {
    hide End, AlignmentOf;
    AlignUpIs(End(items[..k]), AlignmentOf(items[k]));
  }

  lemma NextStart(items: seq<DataItem>, k: nat, a: Alignment)
    requires k + 1 < |items| && AlignmentOf(items[k]) == AlignmentOf(items[k + 1]) == a
    requires Rest(Start(items, k), a) == 0 && Rest(|ItemBytes(items[k])|, a) == 0
    ensures Start(items, k + 1) == Start(items, k) + |ItemBytes(items[k])|
  {
    hide ItemBytes, AlignmentOf;
    assert items[..k + 1][..k] == items[..k] && items[..k + 1][k] == items[k];
    assert End(items[..k + 1]) == Start(items, k) + |ItemBytes(items[k])| by { EndAfter(items, k); }
    RestOfSum(Start(items, k), |ItemBytes(items[k])|, a);
  }

  lemma EndAfter(items: seq<DataItem>, k: nat)
    requires k < |items|
    ensures End(items[..k + 1]) == Start(items, k) + |ItemBytes(items[k])|
  {
    hide ItemBytes, AlignmentOf;
    assert items[..k + 1][..k] == items[..k];
  }

  /*
   * Memory.
   */

  lemma BytesJoin(w: Mem, a: nat, x: nat, y: nat)
    requires Valid(w)
    ensures MemoryTheorems.BytesAt(w, a, x + y) == MemoryTheorems.BytesAt(w, a, x) + MemoryTheorems.BytesAt(w, a + x, y)
  {
    hide At, Valid;
  }

  /** Bytes at the end of bytes that are there. */
  lemma BytesAppended(w: Mem, a: nat, s: seq<bv8>, t: seq<bv8>)
    requires Valid(w) && MemoryTheorems.BytesAt(w, a, |s|) == s && MemoryTheorems.BytesAt(w, a + |s|, |t|) == t
    ensures MemoryTheorems.BytesAt(w, a, |s + t|) == s + t
  {
    hide Valid, MemoryTheorems.BytesAt;
    BytesJoin(w, a, |s|, |t|);
  }

  /** The bytes of the first `c` items from item `q` on. */
  function RunBytes(items: seq<DataItem>, q: nat, c: nat): seq<bv8>
    requires q + c <= |items|
  {
    Flat(items[q..q + c])
  }

  lemma RunStep(items: seq<DataItem>, q: nat, c: nat)
    requires c > 0 && q + c <= |items|
    ensures RunBytes(items, q, c) == RunBytes(items, q, c - 1) + ItemBytes(items[q + c - 1])
    ensures RunBytes(items, q, 0) == []
  {
    hide ItemBytes;
    assert items[q..q + c] == items[q..q + (c - 1)] + [items[q + c - 1]];
    FlatLast(items[q..q + (c - 1)], items[q + c - 1]);
    assert items[q..q] == [];
    NothingIsFlat();
  }

  /** After loading, packed items are stored one directly after the other. */
  lemma {:induction false} RunIsStored(
    m: Mem, words: seq<bv32>, base: Address, items: seq<DataItem>, q: nat, c: nat, a: Alignment)
    requires Valid(m) && Loader.SectionsFit(m, |words|, base, items)
    requires c > 0 && q + c <= |items| && Packed(items[q..q + c], a)
    ensures var w, bytes := Loader.LoadAll(m, words, base, items).mem, RunBytes(items, q, c);
      base + Start(items, q) + |bytes| <= m.size && MemoryTheorems.BytesAt(w, base + Start(items, q), |bytes|) == bytes
    decreases c
  {
    hide ItemBytes, AlignmentOf, Start, Loader.LoadAll, MemoryTheorems.BytesAt, Load, Loader.ScalarOf, Loader.SectionsFit, Valid,
      RunBytes, Flat;
    var w, k := Loader.LoadAll(m, words, base, items).mem, q + c - 1;
    Loader.LoadedItem(m, words, base, items, k);
    RunStep(items, q, c);
    RunStart(items, q, c, a);
    if c > 1 {
      PackedPrefix(items, q, c, a);
      RunIsStored(m, words, base, items, q, c - 1, a);
      BytesAppended(w, base + Start(items, q), RunBytes(items, q, c - 1), ItemBytes(items[k]));
    }
  }

  lemma RunStart(items: seq<DataItem>, q: nat, c: nat, a: Alignment)
    requires c > 0 && q + c <= |items| && Packed(items[q..q + c], a)
    ensures Start(items, q + c - 1) == Start(items, q) + |RunBytes(items, q, c - 1)|
  {
    hide Start, Flat, Packed;
    PackedIsContiguous(items, q, c, a);
    assert q + (c - 1) == q + c - 1;
  }

  /*
   * Tokens.
   */

  lemma {:induction false} ArrayModes(tokens: seq<Token>, p: nat, d: DataDirective, n: nat, k: nat)
    requires IsArray(tokens, p, d, n) && k < n && LabelCarrying.HasValue(TokenAt(tokens, p + 1), TokenAt(tokens, p + 2))
    ensures ModeAt(tokens, p + 2 + 2 * k) == Under(d)
    decreases k
  {
    hide ModeAt, DirectiveOf, DataEnds, Copies, AtEntry, AfterEntry;
    if k == 0 {
      LabelledModes(tokens, p, d);
    } else {
      ArrayModes(tokens, p, d, n, k - 1);
      var value, comma := ValueAt(tokens, p, k - 1), TokenAt(tokens, p + 3 + 2 * (k - 1));
      assert Accepts(d, value.kind) && comma.kind.Comma?;
      NextMode(tokens, p + 2 + 2 * (k - 1));
      NextMode(tokens, p + 3 + 2 * (k - 1));
    }
  }

  lemma NextMode(tokens: seq<Token>, p: nat)
    ensures ModeAt(tokens, p + 1) == After(ModeAt(tokens, p), TokenAt(tokens, p))
  {
  }

  /** What the tokens up to value `k` stand for. */
  lemma {:induction false} ArrayValues(tokens: seq<Token>, p: nat, d: DataDirective, n: nat, k: nat)
    requires IsArray(tokens, p, d, n) && k < n && LabelCarrying.HasValue(TokenAt(tokens, p + 1), TokenAt(tokens, p + 2))
    ensures ValuesBefore(tokens, p + 3 + 2 * k) == ValuesBefore(tokens, p) + ArrayItems(tokens, p, d, k + 1)
    decreases k
  {
    hide ModeAt, DirectiveOf, ItemOf, Copies, ItemsAt, ValuesBefore, ArrayItems, IsLabelledDirective;
    ArrayModes(tokens, p, d, n, k);
    var kind := ValueAt(tokens, p, k).kind;
    assert Accepts(d, kind);
    OneMoreValue(tokens, p + 2 + 2 * k, d);
    NextItems(tokens, p, d, k);
    if k == 0 {
      LabelledHead(tokens, p, d);
      BeforeValues(tokens, p, d);
    } else {
      ArrayValues(tokens, p, d, n, k - 1);
      ArrayModes(tokens, p, d, n, k - 1);
      assert TokenAt(tokens, p + 3 + 2 * (k - 1)).kind.Comma?;
      CommaAddsNothing(tokens, p + 1 + 2 * k);
    }
  }

  lemma NextItems(tokens: seq<Token>, p: nat, d: DataDirective, k: nat)
    requires forall i :: 0 <= i < k + 1 ==> Accepts(d, ValueAt(tokens, p, i).kind)
    ensures var kind := ValueAt(tokens, p, k).kind;
      ArrayItems(tokens, p, d, k + 1) == ArrayItems(tokens, p, d, k) + seq(Copies(d, kind), _ => ItemOf(d, kind))
    ensures ArrayItems(tokens, p, d, 0) == []
  {
    hide ItemOf, Copies;
  }

  lemma OneMoreValue(tokens: seq<Token>, p: nat, d: DataDirective)
    requires IsValueAt(tokens, p, d)
    ensures var kind := TokenAt(tokens, p).kind;
      ValuesBefore(tokens, p + 1) == ValuesBefore(tokens, p) + seq(Copies(d, kind), _ => ItemOf(d, kind))
  {
    hide ModeAt, ItemOf, Copies;
  }

  lemma CommaAddsNothing(tokens: seq<Token>, p: nat)
    requires TokenAt(tokens, p).kind.Comma?
    ensures ValuesBefore(tokens, p + 1) == ValuesBefore(tokens, p)
  {
    hide ModeAt;
  }

  lemma BeforeValues(tokens: seq<Token>, p: nat, d: DataDirective)
    requires IsDataLabelAt(tokens, p) && DirectiveOf(TokenAt(tokens, p + 1).value) == Some(d)
    requires LabelCarrying.HasValue(TokenAt(tokens, p + 1), TokenAt(tokens, p + 2))
    ensures ValuesBefore(tokens, p + 2) == ValuesBefore(tokens, p)
  {
    hide ModeAt, DirectiveOf, DataEnds, Copies, ItemOf, AfterEntry;
    LabelledModes(tokens, p, d);
    EntryIsNoValue(tokens, p);
    EntryIsNoValue(tokens, p + 1);
  }

  lemma EntryIsNoValue(tokens: seq<Token>, p: nat)
    requires AtEntry(tokens, p)
    ensures ValuesBefore(tokens, p + 1) == ValuesBefore(tokens, p)
  {
    hide ModeAt;
  }

  lemma {:induction false} ValuesPrefix(tokens: seq<Token>, m: nat, n: nat)
    requires m <= n
    ensures ValuesBefore(tokens, m) <= ValuesBefore(tokens, n)
    decreases n
  {
    hide ItemsAt;
    if m < n { ValuesPrefix(tokens, m, n - 1); }
  }

  lemma LabelledHead(tokens: seq<Token>, p: nat, d: DataDirective)
    requires IsLabelledDirective(tokens, p, d)
    ensures IsDataLabelAt(tokens, p) && DirectiveOf(TokenAt(tokens, p + 1).value) == Some(d)
  {
    hide DirectiveOf, AtEntry, DataEnds;
  }

  /** Where the items of the values are in the data buffer: from the label's item on. */
  lemma ArrayIsInBuffer(env: Env, p: nat, d: DataDirective, n: nat)
    requires Accepted(env) && EofTerminated(env.tokens) && IsArray(env.tokens, p, d, n)
    requires LabelCarrying.HasValue(TokenAt(env.tokens, p + 1), TokenAt(env.tokens, p + 2))
    ensures var items, q, xs := Assembly.Parse(env).dataBuffer, |ValuesBefore(env.tokens, p)|, ArrayItems(env.tokens, p, d, n);
      q + |xs| <= |items| && items[q..q + |xs|] == xs
  {
    hide Assembly.Parse, ValuesBefore, ArrayItems, IsLabelledDirective, DirectiveOf, Copies;
    DataIsComplete(env);
    ArrayValues(env.tokens, p, d, n, n - 1);
    ArrayIsInside(env.tokens, p, d, n);
    ValuesPrefix(env.tokens, p + 3 + 2 * (n - 1), |env.tokens|);
  }

  lemma ArrayIsInside(tokens: seq<Token>, p: nat, d: DataDirective, n: nat)
    requires IsArray(tokens, p, d, n)
    ensures p + 3 + 2 * (n - 1) <= |tokens|
  {
    hide IsLabelledDirective;
    assert Accepts(d, ValueAt(tokens, p, n - 1).kind);
  }

  /** The items before the label are those that the layout counts before its mark. */
  lemma ItemsBeforeLabel(env: Env, p: nat)
    requires Accepted(env) && EofTerminated(env.tokens) && IsDataLabelAt(env.tokens, p) && p < |env.tokens|
    ensures var events, j := Assembly.Parse(env).events, |EventsBefore(env.tokens, p)|;
      j < |events| && Items(events[..j + 1]) == ValuesBefore(env.tokens, p)
  {
    hide Assembly.Parse, EventsBefore, ValuesBefore, IsDataLabelAt, EventsAt, Items;
    EventsAreTokens(env);
    BeforeIsPrefix(env.tokens, p + 1, |env.tokens|);
    LabelEvent(env.tokens, p);
    EventsStep(env.tokens, p);
    ItemsAreValues(env.tokens, p);
    var before := EventsBefore(env.tokens, p);
    DataTheorems.EventAppended(before, Mark(LabelAlignment(env.tokens, p)));
    assert Assembly.Parse(env).events[..|before| + 1] == before + [Mark(LabelAlignment(env.tokens, p))];
  }

  lemma EventsStep(tokens: seq<Token>, p: nat)
    ensures EventsBefore(tokens, p + 1) == EventsBefore(tokens, p) + EventsAt(tokens, p)
  {
    hide EventsAt;
  }

  /** Where the label's first item starts is the label's address. */
  lemma LabelIsAtArray(env: Env, p: nat, d: DataDirective, n: nat)
    requires Accepted(env) && EofTerminated(env.tokens) && IsArray(env.tokens, p, d, n)
    requires LabelCarrying.LabelledDirectivesHaveValues(env.tokens)
    ensures var s, name, q := Assembly.Parse(env), env.tokens[p].value, |ValuesBefore(env.tokens, p)|;
      && name in s.symbols && s.symbols[name].isData && q < |s.dataBuffer|
      && s.symbols[name].address == Start(s.dataBuffer, q) % TWO64
  {
    hide Assembly.Parse, ValuesBefore, EventsBefore, DirectiveOf, Start, IsDataLabelAt, Items, Copies, ItemOf;
    LabelHasValue(env.tokens, p, d);
    LabelledValueIsThere(env, p, d);
    LabelledHead(env.tokens, p, d);
    ItemsBeforeLabel(env, p);
    DataLabelIsAtItem(env, env.tokens[p].value, |EventsBefore(env.tokens, p)|);
  }

  /** At least one item: the first value has copies. */
  lemma {:induction false} ArrayHasItems(tokens: seq<Token>, p: nat, d: DataDirective, n: nat)
    requires n > 0 && forall k :: 0 <= k < n ==> Accepts(d, ValueAt(tokens, p, k).kind)
    requires Copies(d, ValueAt(tokens, p, 0).kind) > 0
    ensures |ArrayItems(tokens, p, d, n)| > 0
    decreases n
  {
    hide ItemOf, Copies;
    if n > 1 { ArrayHasItems(tokens, p, d, n - 1); }
  }

  /**
   In a loaded program, where a label stands before a directive and values with commas between them, the bytes of the
   values, one value after the other, are in memory from the section base plus the label's address on.
   */
  lemma ArrayReachesMemory(env: Env, m: Mem, p: nat, d: DataDirective, n: nat)
    requires Loads(env, m) && EofTerminated(env.tokens) && LabelCarrying.LabelledDirectivesHaveValues(env.tokens)
    requires IsArray(env.tokens, p, d, n)
    ensures var s, name, bytes := Assembly.Parse(env), env.tokens[p].value, ArrayBytes(env.tokens, p, d, n);
      && name in s.symbols && s.symbols[name].isData
      && var a := env.dataStart + s.symbols[name].address;
         a + |bytes| <= m.size && MemoryTheorems.BytesAt(EndToEnd.Memory(env, m), a, |bytes|) == bytes
  {
    hide Assembly.Parse, ValuesBefore, ArrayItems, ArrayBytes, Start, Flat, MemoryTheorems.BytesAt, Loader.LoadAll, Copies,
      ItemOf, Packed, DirectiveOf, Code, IsLabelledDirective, LabelCarrying.LabelledDirectivesHaveValues;
    var s, q, xs := Assembly.Parse(env), |ValuesBefore(env.tokens, p)|, ArrayItems(env.tokens, p, d, n);
    ArrayStart(env.tokens, p, d, n);
    LabelIsAtArray(env, p, d, n);
    ArrayIsInBuffer(env, p, d, n);
    ArrayIsPacked(env.tokens, p, d, n);
    ArrayIsFlat(env.tokens, p, d, n);
    ArrayHasItems(env.tokens, p, d, n);
    RunIsStored(m, Code(env), env.dataStart, s.dataBuffer, q, |xs|, DirectiveAlignment(d));
    StartIsSmall(s.dataBuffer, q);
  }

  lemma ArrayStart(tokens: seq<Token>, p: nat, d: DataDirective, n: nat)
    requires LabelCarrying.LabelledDirectivesHaveValues(tokens) && IsArray(tokens, p, d, n)
    ensures LabelCarrying.HasValue(TokenAt(tokens, p + 1), TokenAt(tokens, p + 2))
    ensures Copies(d, ValueAt(tokens, p, 0).kind) > 0
  {
    hide DirectiveOf, Copies, IsDataLabelAt;
    LabelHasValue(tokens, p, d);
  }

  /** One string, written with escapes: its characters and a terminating zero are at its label. */
  lemma StringReachesMemory(env: Env, m: Mem, p: nat, text: seq<bv8>)
    requires Loads(env, m) && EofTerminated(env.tokens) && LabelCarrying.LabelledDirectivesHaveValues(env.tokens)
    requires IsLabelledDirective(env.tokens, p, String) && TokenAt(env.tokens, p + 2).kind == StringLiteral(Escape(text))
    ensures var s, name := Assembly.Parse(env), env.tokens[p].value;
      && name in s.symbols && s.symbols[name].isData
      && var a := env.dataStart + s.symbols[name].address;
         a + |text| + 1 <= m.size && MemoryTheorems.BytesAt(EndToEnd.Memory(env, m), a, |text| + 1) == text + [0]
  {
    hide Assembly.Parse, MemoryTheorems.BytesAt, EndToEnd.Memory, IsLabelledDirective, ValueBytes, Loads, Escape;
    StringValue(text);
    OneValue(env.tokens, p, String);
    ArrayReachesMemory(env, m, p, String, 1);
  }

  lemma OneValue(tokens: seq<Token>, p: nat, d: DataDirective)
    requires Accepts(d, TokenAt(tokens, p + 2).kind)
    ensures ArrayBytes(tokens, p, d, 1) == ValueBytes(d, TokenAt(tokens, p + 2).kind)
    ensures IsLabelledDirective(tokens, p, d) ==> IsArray(tokens, p, d, 1)
  {
    hide ValueBytes, IsLabelledDirective;
    assert ArrayBytes(tokens, p, d, 0) == [];
  }
}
