/**
 What loading a program does to memory (`VmBase::LoadProgram` of src/vm/vm_base.cpp): text words from
 address 0 on, then the data items from the section's base on, each aligned by the loader's own counter.
 */
module Loader {
  import opened Words
  import opened Text
  import opened Bytes
  import opened MainMemory
  import opened MemoryTheorems
  import opened Layout

  /** Four times the number of words before, in an `unsigned int`. */
  function TextAddress(i: nat): Address { (4 * i) % TWO32 }

  /** `base_data_address + data_counter`. */
  function DataAddress(base: Address, counter: nat): Address { (base + counter) % TWO64 }

  lemma TextAddressIs(i: nat)
    requires 4 * i < TWO32
    ensures TextAddress(i) == 4 * i
  {
  }

  /** A `data_counter`. */
  function Counter(x: nat): nat { x % TWO32 }

  lemma CounterIs(x: nat)
    requires x < TWO32
    ensures Counter(x) == x
  {
  }

  lemma DataAddressIs(base: Address, counter: nat)
    requires base + counter < TWO64
    ensures DataAddress(base, counter) == base + counter
  {
  }

  /** Storing the words one by one, up to the first that fails. */
  function LoadText(m: Mem, words: seq<bv32>): (w: Written)
    requires Valid(m)
    ensures Valid(w.mem)
  {
    if words == [] then Written(m, None)
    else
      var n := |words| - 1;
      var w := LoadText(m, words[..n]);
      if w.error.Some? then w else Store(w.mem, TextAddress(n), 4, Wide32(words[n]))
  }

  /** Storing the characters of a string one by one; each moves the counter. */
  function StoreText(m: Mem, base: Address, counter: nat, text: seq<bv8>): (w: Written)
    requires Valid(m)
    ensures Valid(w.mem)
  {
    if text == [] then Written(m, None)
    else
      var n := |text| - 1;
      var w := StoreText(m, base, counter, text[..n]);
      if w.error.Some? then w
      else Store(w.mem, DataAddress(base, Counter(counter + n)), 1, Wide(text[n]))
  }

  function StoreItem(m: Mem, base: Address, counter: nat, item: DataItem): (w: Written)
    requires Valid(m)
    ensures Valid(w.mem)
  {
    match item
    case U8(b) => Store(m, DataAddress(base, counter), 1, Wide(b))
    case U16(h) => Store(m, DataAddress(base, counter), 2, Wide16(h))
    case U32(w) => Store(m, DataAddress(base, counter), 4, Wide32(w))
    case U64(d) => Store(m, DataAddress(base, counter), 8, d)
    case Str(s) => StoreText(m, base, counter, s)
    case F32(w) => Store(m, DataAddress(base, counter), 4, Wide32(w))
    case F64(d) => Store(m, DataAddress(base, counter), 8, d)
  }

  function LoadData(m: Mem, base: Address, items: seq<DataItem>): (w: Written)
    requires Valid(m)
    ensures Valid(w.mem)
  {
    if items == [] then Written(m, None)
    else
      var n := |items| - 1;
      var w := LoadData(m, base, items[..n]);
      if w.error.Some? then w else StoreItem(w.mem, base, LoaderStart(items[..n], items[n]), items[n])
  }

  function LoadAll(m: Mem, words: seq<bv32>, base: Address, items: seq<DataItem>): (w: Written)
    requires Valid(m)
    ensures Valid(w.mem)
  {
    var w := LoadText(m, words);
    if w.error.Some? then w else LoadData(w.mem, base, items)
  }

  lemma {:induction false} LoadTextStops(m: Mem, words: seq<bv32>, i: nat)
    requires Valid(m) && i <= |words| && LoadText(m, words[..i]).error.Some?
    ensures LoadText(m, words) == LoadText(m, words[..i])
  {
    if i == |words| {
      assert words[..i] == words;
    } else {
      var prefix := words[..|words| - 1];
      assert prefix[..i] == words[..i];
      LoadTextStops(m, prefix, i);
    }
  }

  lemma {:induction false} StoreTextStops(m: Mem, base: Address, counter: nat, text: seq<bv8>, i: nat)
    requires Valid(m) && i <= |text| && StoreText(m, base, counter, text[..i]).error.Some?
    ensures StoreText(m, base, counter, text) == StoreText(m, base, counter, text[..i])
  {
    if i == |text| {
      assert text[..i] == text;
    } else {
      var prefix := text[..|text| - 1];
      assert prefix[..i] == text[..i];
      StoreTextStops(m, base, counter, prefix, i);
    }
  }

  lemma {:induction false} LoadDataStops(m: Mem, base: Address, items: seq<DataItem>, i: nat)
    requires Valid(m) && i <= |items| && LoadData(m, base, items[..i]).error.Some?
    ensures LoadData(m, base, items) == LoadData(m, base, items[..i])
  {
    if i == |items| {
      assert items[..i] == items;
    } else {
      var prefix := items[..|items| - 1];
      assert prefix[..i] == items[..i];
      LoadDataStops(m, base, prefix, i);
    }
  }

  /*
   * Overlays.
   */

  /** Text and data do not overlap, the data fits its 32-bit counter, and everything fits the memory. */
  predicate SectionsFit(m: Mem, words: nat, base: Address, items: seq<DataItem>) {
    && 4 * words <= base && 4 * words <= TWO32
    && End(items) <= TWO32 && base + End(items) <= m.size
  }

  lemma OverlaidTwice(w: Mem, v: Mem, m: Mem, a: nat, s: seq<bv8>, t: seq<bv8>)
    requires Valid(w) && Valid(v) && Valid(m)
    requires Overlaid(v, m, a, s) && Overlaid(w, v, a + |s|, t)
    ensures Overlaid(w, m, a, s + t)
  {
    forall x: nat ensures At(w, x) == if a <= x < a + |s + t| then (s + t)[x - a] else At(m, x) {
      assert At(w, x) == if a + |s| <= x < a + |s| + |t| then t[x - (a + |s|)] else At(v, x);
      assert At(v, x) == if a <= x < a + |s| then s[x - a] else At(m, x);
    }
  }

  /** The bytes of the text section. */
  function TextBytes(words: seq<bv32>): (s: seq<bv8>)
    ensures |s| == 4 * |words|
  {
    if words == [] then []
    else TextBytes(words[..|words| - 1]) + ToBytes(Wide32(words[|words| - 1]), 4)
  }

  lemma {:induction false} TextBytesAt(words: seq<bv32>, i: nat)
    requires i < |words|
    ensures TextBytes(words)[4 * i..4 * i + 4] == ToBytes(Wide32(words[i]), 4)
  {
    var n := |words| - 1;
    if i < n {
      TextBytesAt(words[..n], i);
      assert TextBytes(words)[4 * i..4 * i + 4] == TextBytes(words[..n])[4 * i..4 * i + 4];
    }
  }

  lemma {:induction false} TextOverlaid(m: Mem, words: seq<bv32>)
    requires Valid(m) && 4 * |words| <= TWO32 && 4 * |words| <= m.size
    ensures var w := LoadText(m, words);
      w.error == None && w.mem.size == m.size && Overlaid(w.mem, m, 0, TextBytes(words))
  {
    if words == [] {
    } else {
      var n := |words| - 1;
      TextOverlaid(m, words[..n]);
      var v, value := LoadText(m, words[..n]).mem, Wide32(words[n]);
      LoadTextStep(m, words, v);
      StoreInside(v, 4 * n, 4, value);
      OverlaidTwice(Store(v, 4 * n, 4, value).mem, v, m, 0, TextBytes(words[..n]), ToBytes(value, 4));
    }
  }

  lemma LoadTextStep(m: Mem, words: seq<bv32>, v: Mem)
    requires Valid(m) && words != [] && 4 * |words| <= TWO32
    requires LoadText(m, words[..|words| - 1]) == Written(v, None)
    ensures LoadText(m, words) == Store(v, 4 * (|words| - 1), 4, Wide32(words[|words| - 1]))
  {
    TextAddressIs(|words| - 1);
  }

  lemma OneByte(b: bv8)
    ensures ToBytes(Wide(b), 1) == [b]
  {
    assert ByteOf(Wide(b), 0) == b;
  }

  /** Storing succeeded and overlaid `bytes` at `a`. */
  ghost predicate Stores(w: Written, m: Mem, a: nat, bytes: seq<bv8>)
    requires Valid(w.mem) && Valid(m)
  {
    w.error == None && w.mem.size == m.size && Overlaid(w.mem, m, a, bytes)
  }

  lemma SizeFits(m: Mem)
    requires Valid(m)
    ensures m.size < TWO64
  {
  }

  lemma StoresNothing(m: Mem, a: nat)
    requires Valid(m)
    ensures Stores(Written(m, None), m, a, [])
  {
  }

  lemma StoresTwice(w: Written, v: Mem, m: Mem, a: nat, s: seq<bv8>, t: seq<bv8>)
    requires Valid(w.mem) && Valid(v) && Valid(m)
    requires Stores(Written(v, None), m, a, s) && Stores(w, v, a + |s|, t)
    ensures Stores(w, m, a, s + t)
  {
    OverlaidTwice(w.mem, v, m, a, s, t);
  }

  lemma {:induction false} TextStored(m: Mem, base: Address, counter: nat, text: seq<bv8>)
    requires Valid(m) && counter + |text| <= TWO32 && base + counter + |text| <= m.size
    ensures Stores(StoreText(m, base, counter, text), m, base + counter, text)
  {
    hide Store;
    if text == [] {
      StoresNothing(m, base + counter);
    } else {
      var s, b := text[..|text| - 1], text[|text| - 1];
      SizeFits(m);
      TextStored(m, base, counter, s);
      TextStoredStep(m, base, counter, text, s, b);
    }
  }

  lemma StoresClean(w: Written, m: Mem, a: nat, s: seq<bv8>)
    requires Valid(w.mem) && Valid(m) && Stores(w, m, a, s)
    ensures w == Written(w.mem, None)
  {
    hide Overlaid, Valid;
  }

  lemma TextStoredStep(m: Mem, base: Address, counter: nat, text: seq<bv8>, s: seq<bv8>, b: bv8)
    requires Valid(m) && base + counter + |s| + 1 <= m.size && m.size < TWO64 && counter + |s| + 1 <= TWO32
    requires text == s + [b] && Stores(StoreText(m, base, counter, s), m, base + counter, s)
    ensures Stores(StoreText(m, base, counter, text), m, base + counter, text)
  {
    hide Stores, StoreText, Store, Valid, Wide;
    var w := StoreText(m, base, counter, s);
    StoresClean(w, m, base + counter, s);
    SplitLast(text, s, b);
    StoreTextStep(m, base, counter, text, w.mem);
    ByteAfter(m, base + counter, s, w.mem, b);
  }

  lemma ByteAfter(m: Mem, a: nat, s: seq<bv8>, v: Mem, b: bv8)
    requires Valid(m) && a + |s| + 1 <= m.size && Valid(v)
    requires Stores(Written(v, None), m, a, s)
    ensures Stores(Store(v, a + |s|, 1, Wide(b)), m, a, s + [b])
  {
    hide Overlaid, Store, Valid, Wide;
    SizeFits(m);
    ByteOverlaid(v, a + |s|, b);
    StoresTwice(Store(v, a + |s|, 1, Wide(b)), v, m, a, s, [b]);
  }

  lemma ByteOverlaid(v: Mem, a: Address, b: bv8)
    requires Valid(v) && a + 1 <= v.size
    ensures Stores(Store(v, a, 1, Wide(b)), v, a, [b])
  {
    hide Overlaid, Store;
    StoreInside(v, a, 1, Wide(b));
    OneByte(b);
  }

  lemma StoreTextStep(m: Mem, base: Address, counter: nat, text: seq<bv8>, v: Mem)
    requires Valid(m) && text != [] && counter + |text| <= TWO32 && base + counter + |text| <= TWO64
    requires StoreText(m, base, counter, text[..|text| - 1]) == Written(v, None)
    ensures StoreText(m, base, counter, text) ==
      Store(v, base + counter + (|text| - 1), 1, Wide(text[|text| - 1]))
  {
    CounterIs(counter + (|text| - 1));
    DataAddressIs(base, counter + (|text| - 1));
  }

  lemma SplitLast(text: seq<bv8>, s: seq<bv8>, b: bv8)
    requires text == s + [b]
    ensures |text| == |s| + 1 && text[..|text| - 1] == s && text[|text| - 1] == b
  {
  }

  /** Storing an item overlays its bytes at its address and changes nothing else. */
  lemma ItemOverlaid(m: Mem, base: Address, counter: nat, item: DataItem)
    requires Valid(m)
    requires counter + |ItemBytes(item)| <= TWO32 && base + counter + |ItemBytes(item)| <= m.size
    ensures var w := StoreItem(m, base, counter, item);
      w.error == None && w.mem.size == m.size && Overlaid(w.mem, m, base + counter, ItemBytes(item))
  {
    hide Overlaid, Store, ToBytes;
    if |ItemBytes(item)| > 0 { DataAddressIs(base, counter); }
    match item
    case U8(b) => StoreInside(m, base + counter, 1, Wide(b));
    case U16(h) => StoreInside(m, base + counter, 2, Wide16(h));
    case U32(w) => StoreInside(m, base + counter, 4, Wide32(w));
    case U64(d) => StoreInside(m, base + counter, 8, d);
    case Str(s) => TextStored(m, base, counter, s);
    case F32(w) => StoreInside(m, base + counter, 4, Wide32(w));
    case F64(d) => StoreInside(m, base + counter, 8, d);
  }

  /*
   * The loaded image.
   */

  /** Address `x` belongs to item `k`. */
  predicate InItem(base: nat, items: seq<DataItem>, k: nat, x: nat)
    requires k < |items|
  {
    base + Start(items, k) <= x < base + Start(items, k) + |ItemBytes(items[k])|
  }

  /** Every item's bytes are at its place, and what belongs to no item is as it was. */
  ghost predicate DataStored(w: Mem, m: Mem, base: nat, items: seq<DataItem>)
    requires Valid(w) && Valid(m)
  {
    && (forall k, x: nat :: 0 <= k < |items| && InItem(base, items, k, x) ==>
          At(w, x) == ItemBytes(items[k])[x - (base + Start(items, k))])
    && (forall x: nat :: (forall k :: 0 <= k < |items| ==> !InItem(base, items, k, x)) ==> At(w, x) == At(m, x))
  }

  lemma EndSplits(items: seq<DataItem>, n: nat)
    requires n < |items|
    ensures End(items[..n + 1]) == Start(items, n) + |ItemBytes(items[n])|
    ensures End(items[..n]) <= Start(items, n)
  {
    assert items[..n + 1][..n] == items[..n];
    AlignUpIs(End(items[..n]), AlignmentOf(items[n]));
  }

  /** No item overlaps an earlier one. */
  lemma {:induction false} ItemsAreApart(items: seq<DataItem>, j: nat, k: nat)
    requires j < k <= |items|
    ensures Start(items, j) + |ItemBytes(items[j])| <= End(items[..k])
    ensures k < |items| ==> Start(items, j) + |ItemBytes(items[j])| <= Start(items, k)
  {
    if j == k - 1 {
      EndSplits(items, j);
    } else {
      ItemsAreApart(items, j, k - 1);
      EndSplits(items, k - 1);
    }
    if k < |items| { EndSplits(items, k); }
  }

  lemma StartOfPrefix(items: seq<DataItem>, n: nat, k: nat)
    requires k < n <= |items|
    ensures Start(items[..n], k) == Start(items, k)
  {
    assert items[..n][..k] == items[..k];
  }

  lemma InPrefix(base: nat, items: seq<DataItem>, n: nat, k: nat, x: nat)
    requires k < n <= |items|
    ensures InItem(base, items[..n], k, x) == InItem(base, items, k, x)
  {
    StartOfPrefix(items, n, k);
  }

  lemma DataStoredStep(w: Mem, v: Mem, m: Mem, base: nat, items: seq<DataItem>)
    requires Valid(w) && Valid(v) && Valid(m) && items != []
    requires var n := |items| - 1;
      && DataStored(v, m, base, items[..n])
      && Overlaid(w, v, base + Start(items, n), ItemBytes(items[n]))
    ensures DataStored(w, m, base, items)
  {
    hide At, ItemBytes, Start, Overlaid;
    forall k, x: nat | 0 <= k < |items| && InItem(base, items, k, x)
      ensures At(w, x) == ItemBytes(items[k])[x - (base + Start(items, k))]
    {
      StoredByteStep(w, v, m, base, items, k, x);
    }
    forall x: nat | forall k :: 0 <= k < |items| ==> !InItem(base, items, k, x)
      ensures At(w, x) == At(m, x)
    {
      OtherByteStep(w, v, m, base, items, x);
    }
  }

  lemma OverlaidAt(w: Mem, v: Mem, a: nat, bytes: seq<bv8>, x: nat)
    requires Valid(w) && Valid(v) && Overlaid(w, v, a, bytes)
    ensures a <= x < a + |bytes| ==> At(w, x) == bytes[x - a]
    ensures !(a <= x < a + |bytes|) ==> At(w, x) == At(v, x)
  {
  }

  lemma StoredByteStep(w: Mem, v: Mem, m: Mem, base: nat, items: seq<DataItem>, k: nat, x: nat)
    requires Valid(w) && Valid(v) && Valid(m) && k < |items| && InItem(base, items, k, x)
    requires var n := |items| - 1;
      && DataStored(v, m, base, items[..n])
      && Overlaid(w, v, base + Start(items, n), ItemBytes(items[n]))
    ensures At(w, x) == ItemBytes(items[k])[x - (base + Start(items, k))]
  {
    hide At, ItemBytes, Start, End, Overlaid, DataStored;
    var n := |items| - 1;
    OverlaidAt(w, v, base + Start(items, n), ItemBytes(items[n]), x);
    if k < n {
      ItemsAreApart(items, k, n);
      StartOfPrefix(items, n, k);
      StoredByte(v, m, base, items[..n], k, x);
    }
  }

  lemma StoredByte(v: Mem, m: Mem, base: nat, items: seq<DataItem>, k: nat, x: nat)
    requires Valid(v) && Valid(m) && k < |items| && DataStored(v, m, base, items) && InItem(base, items, k, x)
    ensures At(v, x) == ItemBytes(items[k])[x - (base + Start(items, k))]
  {
  }

  lemma OtherByteStep(w: Mem, v: Mem, m: Mem, base: nat, items: seq<DataItem>, x: nat)
    requires Valid(w) && Valid(v) && Valid(m) && items != []
    requires forall k :: 0 <= k < |items| ==> !InItem(base, items, k, x)
    requires var n := |items| - 1;
      && DataStored(v, m, base, items[..n])
      && Overlaid(w, v, base + Start(items, n), ItemBytes(items[n]))
    ensures At(w, x) == At(m, x)
  {
    hide At, ItemBytes, Start, End, Overlaid, DataStored;
    var n := |items| - 1;
    OverlaidAt(w, v, base + Start(items, n), ItemBytes(items[n]), x);
    assert !InItem(base, items, n, x);
    forall k | 0 <= k < n ensures !InItem(base, items[..n], k, x) { InPrefix(base, items, n, k, x); }
    OtherByte(v, m, base, items[..n], x);
  }

  lemma OtherByte(v: Mem, m: Mem, base: nat, items: seq<DataItem>, x: nat)
    requires Valid(v) && Valid(m) && DataStored(v, m, base, items)
    requires forall k :: 0 <= k < |items| ==> !InItem(base, items, k, x)
    ensures At(v, x) == At(m, x)
  {
  }

  lemma {:induction false} DataIsStored(m: Mem, base: Address, items: seq<DataItem>)
    requires Valid(m) && End(items) <= TWO32 && base + End(items) <= m.size
    ensures var w := LoadData(m, base, items);
      w.error == None && w.mem.size == m.size && DataStored(w.mem, m, base, items)
  {
    hide StoreItem;
    if items == [] {
    } else {
      var n := |items| - 1;
      EndSplits(items, n);
      assert items[..n + 1] == items;
      DataIsStored(m, base, items[..n]);
      DataIsStoredStep(m, base, items);
    }
  }

  lemma DataIsStoredStep(m: Mem, base: Address, items: seq<DataItem>)
    requires Valid(m) && End(items) <= TWO32 && base + End(items) <= m.size && items != []
    requires var w := LoadData(m, base, items[..|items| - 1]);
      w.error == None && w.mem.size == m.size && DataStored(w.mem, m, base, items[..|items| - 1])
    ensures var w := LoadData(m, base, items);
      w.error == None && w.mem.size == m.size && DataStored(w.mem, m, base, items)
  {
    hide Overlaid, StoreItem, DataStored, ItemBytes, Start, End, LoadData, Valid;
    var n := |items| - 1;
    EndSplits(items, n);
    assert items[..n + 1] == items;
    var v := LoadData(m, base, items[..n]).mem;
    LoadDataStep(m, base, items, v);
    ItemStored(v, base, Start(items, n), items[n]);
    DataStoredStep(LoadData(m, base, items).mem, v, m, base, items);
  }

  lemma LoadDataStep(m: Mem, base: Address, items: seq<DataItem>, v: Mem)
    requires Valid(m) && items != [] && LoadData(m, base, items[..|items| - 1]) == Written(v, None)
    ensures var n := |items| - 1; LoadData(m, base, items) == StoreItem(v, base, Counter(Start(items, n)), items[n])
  {
    hide StoreItem, Start, LoaderStart;
    StartFollowsLayout(items, |items| - 1);
  }

  lemma ItemStored(v: Mem, base: Address, start: nat, item: DataItem)
    requires Valid(v)
    requires start + |ItemBytes(item)| <= TWO32 && base + start + |ItemBytes(item)| <= v.size
    ensures var w := StoreItem(v, base, Counter(start), item);
      w.error == None && w.mem.size == v.size && Overlaid(w.mem, v, base + start, ItemBytes(item))
  {
    hide Overlaid, StoreItem, ItemBytes;
    if start < TWO32 {
      CounterIs(start);
      ItemOverlaid(v, base, start, item);
    } else {
      EmptyAtEnd(v, base, item);
    }
  }

  /** Only an empty string can start where the 32-bit counter wraps around; nothing is stored for it. */
  lemma EmptyAtEnd(v: Mem, base: Address, item: DataItem)
    requires Valid(v) && |ItemBytes(item)| == 0
    ensures StoreItem(v, base, 0, item) == Written(v, None)
    ensures forall a: nat :: Overlaid(v, v, a, ItemBytes(item))
  {
    match item case Str(s) => case _ =>
  }

  /**
   The image that loading leaves: each text word at four times its index, each item's bytes at its
   place in the data section, and every other byte, padding included, as it was before.
   */
  lemma LoadedImage(m: Mem, words: seq<bv32>, base: Address, items: seq<DataItem>)
    requires Valid(m) && SectionsFit(m, |words|, base, items)
    ensures var w := LoadAll(m, words, base, items);
      && w.error == None && w.mem.size == m.size
      && (forall x: nat :: x < 4 * |words| ==> At(w.mem, x) == TextBytes(words)[x])
      && (forall k, x: nat :: 0 <= k < |items| && InItem(base, items, k, x) ==>
            At(w.mem, x) == ItemBytes(items[k])[x - (base + Start(items, k))])
      && (forall x: nat :: x >= 4 * |words| && (forall k :: 0 <= k < |items| ==> !InItem(base, items, k, x)) ==>
            At(w.mem, x) == At(m, x))
  {
    hide At, LoadText, LoadData, Start, ItemBytes, TextBytes;
    TextOverlaid(m, words);
    var v := LoadText(m, words).mem;
    DataIsStored(v, base, items);
    assert forall k, x: nat :: 0 <= k < |items| && x < 4 * |words| ==> !InItem(base, items, k, x);
  }

  /** Fetching at four times an index reads back the word at that index. */
  lemma LoadedWord(m: Mem, words: seq<bv32>, base: Address, items: seq<DataItem>, i: nat)
    requires Valid(m) && SectionsFit(m, |words|, base, items) && i < |words|
    ensures Load(LoadAll(m, words, base, items).mem, 4 * i, 4) == Ok(Wide32(words[i]))
  {
    hide At, LoadAll, Load, ToBytes, FromBytes, Wide32;
    LoadedImage(m, words, base, items);
    var w := LoadAll(m, words, base, items).mem;
    LoadInside(w, 4 * i, 4);
    TextBytesAt(words, i);
    forall j | 0 <= j < 4 ensures At(w, 4 * i + j) == ToBytes(Wide32(words[i]), 4)[j] {
      assert At(w, 4 * i + j) == TextBytes(words)[4 * i + j] == TextBytes(words)[4 * i..4 * i + 4][j];
    }
    assert BytesAt(w, 4 * i, 4) == ToBytes(Wide32(words[i]), 4);
    WordFits4(words[i]);
    FromToBytes(Wide32(words[i]), 4);
  }

  /** The width and value of an item that is not a string. */
  function ScalarOf(item: DataItem): Option<(Width, bv64)> {
    match item
    case U8(b) => Some((1, Wide(b)))
    case U16(h) => Some((2, Wide16(h)))
    case U32(w) => Some((4, Wide32(w)))
    case U64(d) => Some((8, d))
    case Str(_) => None
    case F32(w) => Some((4, Wide32(w)))
    case F64(d) => Some((8, d))
  }

  lemma ScalarFits(item: DataItem)
    requires ScalarOf(item).Some?
    ensures var (n, value) := ScalarOf(item).value; Fits(value, n) && ItemBytes(item) == ToBytes(value, n)
  {
    match item
    case U8(b) => ByteFits1(b);
    case U16(h) => HalfFits2(h);
    case U32(w) => WordFits4(w);
    case U64(d) => AllFit8(d);
    case F32(w) => WordFits4(w);
    case F64(d) => AllFit8(d);
    case Str(_) =>
  }

  /** Each item's bytes are found at its place, and reading a number there at its width gives it back. */
  lemma LoadedItem(m: Mem, words: seq<bv32>, base: Address, items: seq<DataItem>, k: nat)
    requires Valid(m) && SectionsFit(m, |words|, base, items) && k < |items|
    ensures var w, a := LoadAll(m, words, base, items).mem, base + Start(items, k);
      && a + |ItemBytes(items[k])| <= m.size
      && BytesAt(w, a, |ItemBytes(items[k])|) == ItemBytes(items[k])
      && (ScalarOf(items[k]).Some? ==>
            Load(w, a, ScalarOf(items[k]).value.0) == Ok(ScalarOf(items[k]).value.1))
  {
    hide At, LoadAll, Load, ToBytes, FromBytes, Start, ItemBytes, ScalarOf;
    var w, a := LoadAll(m, words, base, items).mem, base + Start(items, k);
    LoadedImage(m, words, base, items);
    ItemsAreApart(items, k, |items|);
    assert items[..|items|] == items;
    forall j | 0 <= j < |ItemBytes(items[k])| ensures At(w, a + j) == ItemBytes(items[k])[j] {
      assert InItem(base, items, k, a + j);
    }
    if ScalarOf(items[k]).Some? {
      var (n, value) := ScalarOf(items[k]).value;
      ScalarFits(items[k]);
      LoadInside(w, a, n);
      FromToBytes(value, n);
    }
  }

  /*
   * When loading succeeds.
   */

  lemma {:induction false} TextTooLong(m: Mem, words: seq<bv32>)
    requires Valid(m) && m.size < 4 * |words| <= TWO32
    ensures LoadText(m, words).error.Some?
    decreases |words|
  {
    hide Store, Wide32, Overlaid;
    var n := |words| - 1;
    if m.size < 4 * n {
      TextTooLong(m, words[..n]);
    } else {
      TextOverlaid(m, words[..n]);
      TextAddressIs(n);
      StoreSucceedsIff(LoadText(m, words[..n]).mem, 4 * n, 4, Wide32(words[n]));
    }
  }

  lemma {:induction false} StringTooLong(m: Mem, base: Address, counter: nat, text: seq<bv8>)
    requires Valid(m) && text != [] && counter + |text| <= TWO32 && m.size < base + counter + |text| <= TWO64
    ensures StoreText(m, base, counter, text).error.Some?
    decreases |text|
  {
    hide Store, Wide, Overlaid;
    var n := |text| - 1;
    CounterIs(counter + n);
    DataAddressIs(base, counter + n);
    if base + counter + n <= m.size {
      TextStored(m, base, counter, text[..n]);
      StoreSucceedsIff(StoreText(m, base, counter, text[..n]).mem, base + counter + n, 1, Wide(text[n]));
    } else if n > 0 {
      StringTooLong(m, base, counter, text[..n]);
    } else {
      StoreSucceedsIff(m, base + counter, 1, Wide(text[0]));
    }
  }

  lemma ItemTooLong(m: Mem, base: Address, counter: nat, item: DataItem)
    requires Valid(m) && ItemBytes(item) != [] && counter + |ItemBytes(item)| <= TWO32
    requires m.size < base + counter + |ItemBytes(item)| <= TWO64
    ensures StoreItem(m, base, counter, item).error.Some?
  {
    hide Store, StoreText, ToBytes;
    DataAddressIs(base, counter);
    match item
    case U8(b) => StoreSucceedsIff(m, base + counter, 1, Wide(b));
    case U16(h) => StoreSucceedsIff(m, base + counter, 2, Wide16(h));
    case U32(w) => StoreSucceedsIff(m, base + counter, 4, Wide32(w));
    case U64(d) => StoreSucceedsIff(m, base + counter, 8, d);
    case F32(w) => StoreSucceedsIff(m, base + counter, 4, Wide32(w));
    case F64(d) => StoreSucceedsIff(m, base + counter, 8, d);
    case Str(s) => StringTooLong(m, base, counter, s);
  }

  lemma {:induction false} DataTooLong(m: Mem, base: Address, items: seq<DataItem>)
    requires Valid(m) && items != [] && End(items) <= TWO32 && m.size < base + End(items) <= TWO64
    requires forall item <- items :: ItemBytes(item) != []
    ensures LoadData(m, base, items).error.Some?
    decreases |items|
  {
    hide StoreItem, ItemBytes, Start, AlignmentOf, DataStored;
    var n := |items| - 1;
    var before := items[..n];
    StartFits(items, n);
    StartFollowsLayout(items, n);
    if base + End(before) <= m.size {
      DataIsStored(m, base, before);
      ItemTooLong(LoadData(m, base, before).mem, base, Start(items, n), items[n]);
    } else {
      EndOfNothing(before);
      if n > 0 { DataTooLong(m, base, before); } else { ItemTooLong(m, base, Start(items, n), items[n]); }
    }
  }

  lemma EndOfNothing(items: seq<DataItem>)
    ensures items == [] ==> End(items) == 0
  {
  }

  lemma StartFits(items: seq<DataItem>, n: nat)
    requires n == |items| - 1
    ensures End(items[..n]) <= Start(items, n) && End(items) == Start(items, n) + |ItemBytes(items[n])|
  {
    hide ItemBytes;
  }

  /**
   Loading succeeds exactly when the words and the items all lie in memory, whatever the memory's size, as long as
   the 32-bit counters and the 64-bit addresses need no wrapping around and no item is without bytes.
   */
  lemma LoadSucceedsIff(m: Mem, words: seq<bv32>, base: Address, items: seq<DataItem>)
    requires Valid(m) && 4 * |words| <= TWO32 && End(items) <= TWO32 && base + End(items) <= TWO64
    requires forall item <- items :: ItemBytes(item) != []
    ensures LoadAll(m, words, base, items).error.None? <==>
      4 * |words| <= m.size && (items == [] || base + End(items) <= m.size)
  {
    hide LoadText, LoadData, ItemBytes, End, Overlaid, DataStored;
    if 4 * |words| <= m.size {
      TextOverlaid(m, words);
      var v := LoadText(m, words).mem;
      if items == [] {
        NothingLoaded(v, base);
      } else if base + End(items) <= m.size {
        DataIsStored(v, base, items);
      } else {
        DataTooLong(v, base, items);
      }
    } else {
      TextTooLong(m, words);
    }
  }

  lemma NothingLoaded(m: Mem, base: Address)
    requires Valid(m)
    ensures LoadData(m, base, []) == Written(m, None)
  {
  }
}
