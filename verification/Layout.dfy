/**
 Data layout. The parser and the loader each place the items of the data section with an aligning
 counter of their own: the parser's is 64 bits wide and is also moved by labels, the loader's is 32
 bits wide and sees only the items.
 */
module Layout {
  import opened Words
  import opened Bytes

  /** The alternatives of the `std::variant` in the data buffer; floats are held as their bits. */
  datatype DataItem =
    | U8(byte: bv8) | U16(half: bv16) | U32(word: bv32) | U64(double: bv64)
    | Str(text: seq<bv8>) | F32(bits32: bv32) | F64(bits64: bv64)

  function ItemBytes(item: DataItem): seq<bv8> {
    match item
    case U8(b) => ToBytes(Wide(b), 1)
    case U16(h) => ToBytes(Wide16(h), 2)
    case U32(w) => ToBytes(Wide32(w), 4)
    case U64(d) => ToBytes(d, 8)
    case Str(s) => s
    case F32(w) => ToBytes(Wide32(w), 4)
    case F64(d) => ToBytes(d, 8)
  }

  type Alignment = n: nat | n == 1 || n == 2 || n == 4 || n == 8 witness 1

  function AlignmentOf(item: DataItem): Alignment {
    match item
    case U8(_) => 1
    case U16(_) => 2
    case U32(_) => 4
    case U64(_) => 8
    case Str(_) => 1
    case F32(_) => 4
    case F64(_) => 8
  }

  /** `x % alignment`, for the alignments that occur. */
  function Rest(x: nat, a: Alignment): (r: nat)
    ensures r < a
  {
    match a
    case 1 => 0
    case 2 => x % 2
    case 4 => x % 4
    case _ => x % 8
  }

  /** The `align` lambda: move up to the next multiple. */
  function AlignUp(x: nat, a: Alignment): nat {
    if Rest(x, a) != 0 then x + (a - Rest(x, a)) else x
  }

  /** What moves the parser's counter: a data label with a directive after it, and an emitted item. */
  datatype Event = Mark(alignment: Alignment) | Emit(item: DataItem)

  function Items(events: seq<Event>): seq<DataItem> {
    if events == [] then []
    else
      var before := Items(events[..|events| - 1]);
      match events[|events| - 1]
      case Mark(_) => before
      case Emit(item) => before + [item]
  }

  /** The parser's `data_index_`, a `uint64_t`. */
  function ParserIndex(events: seq<Event>): (x: nat)
    ensures x < TWO64
  {
    if events == [] then 0
    else
      var x := ParserIndex(events[..|events| - 1]);
      match events[|events| - 1]
      case Mark(a) => AlignUp(x, a) % TWO64
      case Emit(item) => (AlignUp(x, AlignmentOf(item)) % TWO64 + |ItemBytes(item)|) % TWO64
  }

  /** Where the parser's counter stands when it places an item after `events`. */
  function ParserStart(events: seq<Event>, item: DataItem): nat {
    AlignUp(ParserIndex(events), AlignmentOf(item)) % TWO64
  }

  /** The loader's `data_counter`, an `unsigned int`. */
  function LoaderCounter(items: seq<DataItem>): (x: nat)
    ensures x < TWO32
    decreases |items|, 0
  {
    if items == [] then 0
    else
      var item := items[|items| - 1];
      (LoaderStart(items[..|items| - 1], item) + |ItemBytes(item)|) % TWO32
  }

  /** Where the loader stores an item that comes after `items`. */
  function LoaderStart(items: seq<DataItem>, item: DataItem): nat
    decreases |items|, 1
  {
    AlignUp(LoaderCounter(items), AlignmentOf(item)) % TWO32
  }

  /** The end of the items, each at the next multiple of its alignment, in unbounded arithmetic. */
  function End(items: seq<DataItem>): nat
    decreases |items|, 0
  {
    if items == [] then 0
    else Start(items, |items| - 1) + |ItemBytes(items[|items| - 1])|
  }

  /** Where item `k` starts. */
  function Start(items: seq<DataItem>, k: nat): nat
    requires k < |items|
    decreases k, 1
  {
    AlignUp(End(items[..k]), AlignmentOf(items[k]))
  }

  /*
   * Aligning.
   */

  lemma RestShift(x: nat, a: Alignment, k: nat)
    ensures Rest(x + 8 * k, a) == Rest(x, a)
  {
    match a
    case 1 =>
    case 2 => RestShift2(x, k);
    case 4 => RestShift4(x, k);
    case _ => RestShift8(x, k);
  }

  lemma RestShift2(x: nat, k: nat)
    ensures (x + 8 * k) % 2 == x % 2
  {
    assert (x + 8 * k) / 2 == x / 2 + 4 * k;
  }

  lemma RestShift4(x: nat, k: nat)
    ensures (x + 8 * k) % 4 == x % 4
  {
    assert (x + 8 * k) / 4 == x / 4 + 2 * k;
  }

  lemma RestShift8(x: nat, k: nat)
    ensures (x + 8 * k) % 8 == x % 8
  {
    assert (x + 8 * k) / 8 == x / 8 + k;
  }

  /** Aligned up means: the least multiple that is not smaller. */
  lemma AlignUpIs(x: nat, a: Alignment)
    ensures x <= AlignUp(x, a) < x + a && Rest(AlignUp(x, a), a) == 0
  {
    match a case 1 => case 2 => case 4 => case _ =>
  }

  lemma AlignUpLeast(x: nat, a: Alignment, y: nat)
    requires x <= y && Rest(y, a) == 0
    ensures AlignUp(x, a) <= y
  {
    match a case 1 => case 2 => case 4 => case _ =>
  }

  lemma RestCoarser(x: nat, a: Alignment, b: Alignment)
    requires a <= b && Rest(x, b) == 0
    ensures Rest(x, a) == 0
  {
    match a
    case 1 =>
    case 2 => match b { case 2 => case 4 => case _ => }
    case 4 => match b { case 4 => case _ => }
    case _ =>
  }

  function Larger(a: Alignment, b: Alignment): Alignment { if a <= b then b else a }

  /** Aligning twice aligns to the larger of the two. */
  lemma AlignUpTwice(x: nat, a: Alignment, b: Alignment)
    ensures AlignUp(AlignUp(x, a), b) == AlignUp(x, Larger(a, b))
  {
    var y, z := AlignUp(x, a), AlignUp(x, b);
    AlignUpIs(x, a);
    AlignUpIs(y, b);
    AlignUpIs(x, b);
    if a <= b {
      RestCoarser(z, a, b);
      AlignUpLeast(x, a, z);
      AlignUpLeast(y, b, z);
      AlignUpLeast(x, b, AlignUp(y, b));
    } else {
      RestCoarser(y, b, a);
    }
  }

  lemma AlignUpShift(x: nat, a: Alignment, k: nat)
    ensures AlignUp(x + 8 * k, a) == AlignUp(x, a) + 8 * k
  {
    RestShift(x, a, k);
  }

  lemma RestModulo(x: nat, a: Alignment)
    ensures Rest(x % TWO32, a) == Rest(x, a)
  {
    RestShift(x % TWO32, a, 0x2000_0000 * (x / TWO32));
    assert x == x % TWO32 + 8 * (0x2000_0000 * (x / TWO32));
  }

  /* Aligning may be done before or after wrapping around. */

  lemma AlignUpModulo32(x: nat, a: Alignment)
    ensures AlignUp(x, a) % TWO32 == AlignUp(x % TWO32, a) % TWO32
  {
    var q, r := x / TWO32, x % TWO32;
    assert x == r + 8 * (0x2000_0000 * q);
    AlignUpShift(r, a, 0x2000_0000 * q);
    WrapMultiple32(AlignUp(r, a), q);
  }

  lemma AlignUpModulo64(x: nat, a: Alignment)
    ensures AlignUp(x, a) % TWO64 == AlignUp(x % TWO64, a) % TWO64
  {
    var q, r := x / TWO64, x % TWO64;
    assert x == r + 8 * (0x2000_0000_0000_0000 * q);
    AlignUpShift(r, a, 0x2000_0000_0000_0000 * q);
    WrapMultiple64(AlignUp(r, a), q);
  }

  lemma WrapMultiple32(x: nat, q: nat)
    ensures (x + TWO32 * q) % TWO32 == x % TWO32
  {
    assert (x + TWO32 * q) / TWO32 == x / TWO32 + q;
  }

  lemma WrapMultiple64(x: nat, q: nat)
    ensures (x + TWO64 * q) % TWO64 == x % TWO64
  {
    assert (x + TWO64 * q) / TWO64 == x / TWO64 + q;
  }

  lemma AddModulo32(x: nat, y: nat)
    ensures (x % TWO32 + y) % TWO32 == (x + y) % TWO32
  {
  }

  lemma AddModulo64(x: nat, y: nat)
    ensures (x % TWO64 + y) % TWO64 == (x + y) % TWO64
  {
  }

  /*
   * The two counters against the unbounded layout.
   */

  lemma {:induction false} LoaderFollowsLayout(items: seq<DataItem>)
    ensures LoaderCounter(items) == End(items) % TWO32
    decreases |items|, 0
  {
    if items == [] {
    } else {
      var n := |items| - 1;
      StartFollowsLayout(items, n);
      AddModulo32(Start(items, n), |ItemBytes(items[n])|);
    }
  }

  /** The loader stores item `k` at its start, as far as 32 bits can tell. */
  lemma {:induction false} StartFollowsLayout(items: seq<DataItem>, k: nat)
    requires k < |items|
    ensures LoaderStart(items[..k], items[k]) == Start(items, k) % TWO32
    decreases k, 1
  {
    LoaderFollowsLayout(items[..k]);
    AlignUpModulo32(End(items[..k]), AlignmentOf(items[k]));
  }

  /** The largest alignment of the labels since the last item. */
  function Pending(events: seq<Event>): Alignment {
    if events == [] then 1
    else
      match events[|events| - 1]
      case Mark(a) => Larger(Pending(events[..|events| - 1]), a)
      case Emit(_) => 1
  }

  /**
   Every item that directly follows labels starts, where the loader puts it, on the alignment that the
   labels asked for.
   */
  predicate LabelsAligned(events: seq<Event>) {
    if events == [] then true
    else
      var before := events[..|events| - 1];
      && LabelsAligned(before)
      && match events[|events| - 1]
         case Mark(_) => true
         case Emit(item) => Rest(LoaderStart(Items(before), item), Pending(before)) == 0
  }

  /** At every item, the parser's counter is the loader's (as far as 32 bits can tell). */
  predicate CountersAgree(events: seq<Event>) {
    if events == [] then true
    else
      var before := events[..|events| - 1];
      && CountersAgree(before)
      && match events[|events| - 1]
         case Mark(_) => true
         case Emit(item) => ParserStart(before, item) % TWO32 == LoaderStart(Items(before), item)
  }

  /** The end of the layout after `events`, moved up for the labels that still wait for their item. */
  function Cursor(events: seq<Event>): nat { AlignUp(End(Items(events)), Pending(events)) }

  lemma EndOfEmit(events: seq<Event>, item: DataItem)
    requires events != [] && events[|events| - 1] == Emit(item)
    ensures var before := Items(events[..|events| - 1]);
      && Items(events) == before + [item]
      && End(Items(events)) == AlignUp(End(before), AlignmentOf(item)) + |ItemBytes(item)|
  {
    var before := Items(events[..|events| - 1]);
    assert (before + [item])[..|before|] == before;
  }

  lemma LoaderStartIs(items: seq<DataItem>, item: DataItem)
    ensures LoaderStart(items, item) == AlignUp(End(items), AlignmentOf(item)) % TWO32
  {
    LoaderFollowsLayout(items);
    AlignUpModulo32(End(items), AlignmentOf(item));
  }

  /** Aligning for the labels first changes nothing exactly when the item's own start satisfies them. */
  lemma StartSatisfiesLabels(e: nat, p: Alignment, b: Alignment)
    ensures Rest(AlignUp(e, b), p) == 0 <==> AlignUp(AlignUp(e, p), b) == AlignUp(e, b)
    ensures AlignUp(AlignUp(e, p), b) < AlignUp(e, b) + 8
    ensures AlignUp(AlignUp(e, p), b) >= AlignUp(e, b)
  {
    AlignUpTwice(e, p, b);
    AlignUpIs(e, b);
    AlignUpIs(e, p);
    if p <= b {
      RestCoarser(AlignUp(e, b), p, b);
    } else {
      RestCoarser(AlignUp(e, p), b, p);
      AlignUpLeast(e, b, AlignUp(e, p));
      if Rest(AlignUp(e, b), p) == 0 { AlignUpLeast(e, p, AlignUp(e, b)); }
    }
  }

  lemma CloseNumbersModulo(x: nat, y: nat)
    requires x <= y < x + 8
    ensures x % TWO32 == y % TWO32 <==> x == y
  {
  }

  /** Where the parser places an item, when its counter has followed the layout so far. */
  lemma ParserStartIs(events: seq<Event>, item: DataItem)
    requires ParserIndex(events) == Cursor(events) % TWO64
    ensures ParserStart(events, item) == AlignUp(Cursor(events), AlignmentOf(item)) % TWO64
  {
    AlignUpModulo64(Cursor(events), AlignmentOf(item));
  }

  lemma WrapTwice(x: nat)
    ensures x % TWO64 % TWO32 == x % TWO32
  {
  }

  lemma AgreementStep(events: seq<Event>, item: DataItem)
    requires ParserIndex(events) == Cursor(events) % TWO64
    ensures ParserStart(events, item) % TWO32 == LoaderStart(Items(events), item)
      <==> Rest(LoaderStart(Items(events), item), Pending(events)) == 0
    ensures Rest(LoaderStart(Items(events), item), Pending(events)) == 0
      <==> AlignUp(Cursor(events), AlignmentOf(item)) == AlignUp(End(Items(events)), AlignmentOf(item))
  {
    var e, p, b := End(Items(events)), Pending(events), AlignmentOf(item);
    ParserStartIs(events, item);
    LoaderStartIs(Items(events), item);
    WrapTwice(AlignUp(AlignUp(e, p), b));
    StartSatisfiesLabels(e, p, b);
    RestModulo(AlignUp(e, b), p);
    CloseNumbersModulo(AlignUp(e, b), AlignUp(AlignUp(e, p), b));
  }

  /** As long as the labels were aligned, the parser's counter follows the layout. */
  lemma {:induction false} ParserFollowsLayout(events: seq<Event>)
    requires LabelsAligned(events)
    ensures ParserIndex(events) == Cursor(events) % TWO64
  {
    if events == [] {
    } else {
      var before := events[..|events| - 1];
      ParserFollowsLayout(before);
      match events[|events| - 1]
      case Mark(a) =>
        AlignUpModulo64(Cursor(before), a);
        AlignUpTwice(End(Items(before)), Pending(before), a);
      case Emit(item) =>
        AgreementStep(before, item);
        ParserStartIs(before, item);
        EndOfEmit(events, item);
        AddModulo64(AlignUp(End(Items(before)), AlignmentOf(item)), |ItemBytes(item)|);
    }
  }

  /**
   Parser and loader place every item at the same offset exactly when every item that follows labels
   starts, where the loader puts it, on the alignments the labels asked for.
   */
  lemma {:induction false} CountersAgreeIff(events: seq<Event>)
    ensures CountersAgree(events) <==> LabelsAligned(events)
  {
    if events == [] {
    } else {
      var before := events[..|events| - 1];
      CountersAgreeIff(before);
      if LabelsAligned(before) {
        ParserFollowsLayout(before);
        match events[|events| - 1]
        case Mark(_) =>
        case Emit(item) => AgreementStep(before, item);
      }
    }
  }

  /** Every data label is directly followed by an item of the alignment it asked for. */
  predicate LabelsCarryItems(events: seq<Event>) {
    forall j :: 0 <= j < |events| && events[j].Mark? ==>
      j + 1 < |events| && events[j + 1].Emit? && AlignmentOf(events[j + 1].item) == events[j].alignment
  }

  /** So a data section whose labelled directives all emit something is laid out alike by both. */
  lemma {:induction false} CarriedLabelsAreAligned(events: seq<Event>, n: nat)
    requires LabelsCarryItems(events) && n <= |events|
    ensures LabelsAligned(events[..n])
    ensures n < |events| && events[n].Emit? ==>
      Pending(events[..n]) == 1 || Pending(events[..n]) == AlignmentOf(events[n].item)
    ensures n < |events| && events[n].Mark? ==> Pending(events[..n]) == 1
  {
    if n == 0 {
    } else {
      CarriedLabelsAreAligned(events, n - 1);
      assert events[..n][..n - 1] == events[..n - 1];
      match events[n - 1]
      case Mark(_) =>
      case Emit(item) =>
        var items := Items(events[..n - 1]);
        LoaderStartIs(items, item);
        AlignUpIs(End(items), AlignmentOf(item));
        RestModulo(AlignUp(End(items), AlignmentOf(item)), Pending(events[..n - 1]));
        RestCoarser(AlignUp(End(items), AlignmentOf(item)), 1, AlignmentOf(item));
    }
  }

  lemma CarriedLabelsAgree(events: seq<Event>)
    requires LabelsCarryItems(events)
    ensures CountersAgree(events)
  {
    CarriedLabelsAreAligned(events, |events|);
    assert events[..|events|] == events;
    CountersAgreeIff(events);
  }

  lemma {:induction false} ItemsPrefix(events: seq<Event>, n: nat)
    requires n <= |events|
    ensures Items(events[..n]) <= Items(events)
    ensures n < |events| && events[n].Emit? ==> Items(events[..n]) + [events[n].item] <= Items(events)
  {
    if n == |events| {
      assert events[..n] == events;
    } else {
      var before := events[..|events| - 1];
      if n < |events| - 1 { ItemsPrefix(before, n); }
      assert before[..n] == events[..n];
    }
  }

  /** A label that carries an item is where that item starts. */
  lemma LabelIsAtItem(events: seq<Event>, j: nat)
    requires LabelsCarryItems(events) && j < |events| && events[j].Mark?
    ensures j + 1 < |events| && events[j + 1].Emit?
    ensures var items, before := Items(events), Items(events[..j + 1]);
      && |before| < |items| && items[|before|] == events[j + 1].item
      && ParserIndex(events[..j + 1]) == Start(items, |before|) % TWO64
  {
    var upTo, items, item := events[..j + 1], Items(events), events[j + 1].item;
    var q := |Items(upTo)|;
    CarriedLabelsAreAligned(events, j);
    CarriedLabelsAreAligned(events, j + 1);
    ParserFollowsLayout(upTo);
    assert upTo[..j] == events[..j];
    ItemsPrefix(events, j + 1);
    assert items[q] == (Items(upTo) + [item])[q];
    assert items[..q] == Items(upTo);
  }
}
