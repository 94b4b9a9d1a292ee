/**
 What the items of the data section hold: the low bytes of a number, and the characters of a string with
 its escapes replaced (`ParseEscapedString` of src/utils.cpp).
 */
module DataItems {
  import opened Words
  import opened Bytes
  import opened Layout
  import opened Tokens
  import opened DataPass

  /*
   * Numbers.
   */

  lemma Low32Bytes(v: bv64)
    ensures Low8(Wide32(Low32(v))) == Low8(v)
    ensures Low8(ShiftOut(Wide32(Low32(v)))) == Low8(ShiftOut(v))
  {
  }

  lemma Low32HighBytes(v: bv64)
    ensures Low8(ShiftOut(ShiftOut(Wide32(Low32(v))))) == Low8(ShiftOut(ShiftOut(v)))
    ensures Low8(ShiftOut(ShiftOut(ShiftOut(Wide32(Low32(v)))))) == Low8(ShiftOut(ShiftOut(ShiftOut(v))))
  {
  }

  lemma Low16Bytes(v: bv64)
    ensures Low8(Wide16(Low16(v))) == Low8(v)
    ensures Low8(ShiftOut(Wide16(Low16(v)))) == Low8(ShiftOut(v))
  {
  }

  lemma FirstBytes(v: bv64)
    ensures ByteOf(v, 0) == Low8(v) && ByteOf(v, 1) == Low8(ShiftOut(v))
    ensures ByteOf(v, 2) == Low8(ShiftOut(ShiftOut(v))) && ByteOf(v, 3) == Low8(ShiftOut(ShiftOut(ShiftOut(v))))
  {
    hide Low8, ShiftOut;
    assert ByteOf(v, 1) == ByteOf(ShiftOut(v), 0);
    assert ByteOf(v, 2) == ByteOf(ShiftOut(v), 1) == ByteOf(ShiftOut(ShiftOut(v)), 0);
    assert ByteOf(v, 3) == ByteOf(ShiftOut(v), 2) == ByteOf(ShiftOut(ShiftOut(v)), 1);
    assert ByteOf(ShiftOut(ShiftOut(v)), 1) == ByteOf(ShiftOut(ShiftOut(ShiftOut(v))), 0);
  }

  lemma LowByte(v: bv64)
    ensures Low8(Wide(Low8(v))) == Low8(v)
  {
  }

  /** The bytes of an integer item are the low bytes of its number's 64-bit two's complement, lowest first. */
  lemma ItemHoldsLowBytes(d: DataDirective, n: Int64Number)
    requires d.DWord? || d.Word? || d.HalfWord? || d.Byte?
    ensures var bytes := ItemBytes(ItemOf(d, Num(n)));
      && |bytes| == DirectiveAlignment(d)
      && forall i :: 0 <= i < |bytes| ==> bytes[i] == ByteOf(FromInt64(n), i)
  {
    hide Low8, ShiftOut, Wide, Wide16, Wide32, Low16, Low32, FromInt64, ByteOf;
    var v := FromInt64(n);
    FirstBytes(v);
    match d
    case DWord =>
    case Word =>
      FirstBytes(Wide32(Low32(v)));
      Low32Bytes(v);
      Low32HighBytes(v);
    case HalfWord =>
      FirstBytes(Wide16(Low16(v)));
      Low16Bytes(v);
    case Byte =>
      FirstBytes(Wide(Low8(v)));
      LowByte(v);
    case _ =>
  }

  /*
   * Strings.
   */

  /** The loop over the characters between the quotes. */
  method ParseEscapedString(input: seq<bv8>) returns (out: seq<bv8>)
    ensures out == Unescape(input)
  {
    hide Unescape, Replaced;
    out := [];
    var i := 0;
    while i < |input|
      invariant 0 <= i <= |input|
      invariant out + Unescape(input[i..]) == Unescape(input)
    {
      UnescapeStep(input, i, out);
      if input[i] == 92 && i + 1 < |input| {
        out := out + Replaced(input[i + 1]);
        i := i + 2;
      } else {
        out := out + [input[i]];
        i := i + 1;
      }
    }
    NothingToUnescape();
    assert input[i..] == [] && out + [] == out;
  }

  lemma NothingToUnescape()
    ensures Unescape([]) == []
  {
  }

  lemma UnescapeStep(input: seq<bv8>, i: nat, out: seq<bv8>)
    requires i < |input|
    ensures out + Unescape(input[i..]) ==
      if input[i] == 92 && i + 1 < |input| then (out + Replaced(input[i + 1])) + Unescape(input[i + 2..])
      else (out + [input[i]]) + Unescape(input[i + 1..])
  {
    hide Replaced;
    assert input[i..][1..] == input[i + 1..];
    if i + 1 < |input| { assert input[i..][2..] == input[i + 2..]; }
  }

  /** A way to write a string: newline, tab, backslash and quote are escaped, everything else stands for itself. */
  function Escape(text: seq<bv8>): seq<bv8> {
    if text == [] then []
    else
      (if text[0] == 10 then [92, 110]
       else if text[0] == 9 then [92, 116]
       else if text[0] == 92 then [92, 92]
       else if text[0] == 34 then [92, 34]
       else [text[0]]) + Escape(text[1..])
  }

  /** Every string can be written, without a line break, so that the assembler reads it back. */
  lemma {:induction false} UnescapeEscape(text: seq<bv8>)
    ensures Unescape(Escape(text)) == text
    ensures 10 !in Escape(text)
  {
    if text == [] {
    } else {
      UnescapeEscape(text[1..]);
      var rest := Escape(text[1..]);
      var head := Escape(text)[..|Escape(text)| - |rest|];
      assert Escape(text) == head + rest;
      if |head| == 2 { assert (head + rest)[2..] == rest; } else { assert (head + rest)[1..] == rest; }
    }
  }

  /** Characters other than a backslash stand for themselves, and so do unknown escapes and a last backslash. */
  lemma {:induction false} OthersStay(raw: seq<bv8>)
    ensures 92 !in raw ==> Unescape(raw) == raw
    ensures |raw| == 2 && raw[0] == 92 && raw[1] !in {110, 116, 92, 34} ==> Unescape(raw) == raw
    ensures raw == [92] ==> Unescape(raw) == raw
  {
    if 92 !in raw && raw != [] {
      OthersStay(raw[1..]);
    }
    if |raw| == 2 && raw[0] == 92 { assert raw[2..] == [] && raw == [92, raw[1]]; }
  }

  /** Escapes are read from the left, whatever follows a whole one. */
  lemma EscapeThenRest(c: bv8, rest: seq<bv8>)
    ensures Unescape([92, c] + rest) == Replaced(c) + Unescape(rest)
  {
    assert ([92, c] + rest)[2..] == rest;
  }

  /*
   * The bytes of a value.
   */

  /** How many bytes a number or a float takes. */
  function WidthOf(d: DataDirective): nat {
    match d
    case DWord | DoubleFloat => 8
    case Word | SingleFloat => 4
    case HalfWord => 2
    case _ => 1
  }

  /** Labels are aligned for numbers and floats by their size, and not at all for bytes, zeros and strings. */
  lemma NaturalAlignment(d: DataDirective, kind: Kind)
    requires Accepts(d, kind)
    ensures DirectiveAlignment(d) == AlignmentOf(ItemOf(d, kind)) == WidthOf(d)
  {
  }

  /**
   The bytes that a value stands for: the low bytes of a number in two's complement, the bits of a float, as many
   zeros as `zero` asks for, the characters of a string and a zero after them.
   */
  function ValueBytes(d: DataDirective, kind: Kind): seq<bv8>
    requires Accepts(d, kind)
  {
    match d
    case DWord | Word | HalfWord | Byte => seq(WidthOf(d), i requires 0 <= i < WidthOf(d) => ByteOf(FromInt64(kind.n), i))
    case SingleFloat => seq(4, i requires 0 <= i < 4 => ByteOf(Wide32(kind.single), i))
    case DoubleFloat => seq(8, i requires 0 <= i < 8 => ByteOf(kind.double, i))
    case Zero => seq(kind.n % TWO64, _ => 0)
    case String => Unescape(kind.raw) + [0]
  }

  /** The bytes of items, one item after the other. */
  function Flat(items: seq<DataItem>): seq<bv8> {
    if items == [] then [] else Flat(items[..|items| - 1]) + ItemBytes(items[|items| - 1])
  }

  lemma FlatOne(item: DataItem)
    ensures Flat([item]) == ItemBytes(item)
  {
    assert [item][..0] == [];
  }

  lemma {:induction false} FlatZeros(n: nat)
    ensures Flat(seq(n, _ => U8(0))) == seq(n, _ => 0)
    decreases n
  {
    hide ItemBytes;
    if n > 0 {
      FlatZeros(n - 1);
      ZeroByte();
      assert seq(n, _ => U8(0))[..n - 1] == seq(n - 1, _ => U8(0));
      assert seq(n, _ => 0 as bv8) == seq(n - 1, _ => 0 as bv8) + [0];
    }
  }

  lemma ZeroByte()
    ensures ItemBytes(U8(0)) == [0]
  {
    assert ToBytes(Wide(0), 1)[0] == 0;
  }

  /** The items of a value hold its bytes, one after the other. */
  lemma ItemsHoldValue(d: DataDirective, kind: Kind)
    requires Accepts(d, kind)
    ensures Flat(seq(Copies(d, kind), _ => ItemOf(d, kind))) == ValueBytes(d, kind)
  {
    hide Flat, ByteOf, Unescape, FromInt64;
    FlatOne(ItemOf(d, kind));
    if d.Zero? {
      FlatZeros(Copies(d, kind));
    } else {
      assert seq(1, _ => ItemOf(d, kind)) == [ItemOf(d, kind)];
      OneItemHoldsValue(d, kind);
    }
  }

  lemma OneItemHoldsValue(d: DataDirective, kind: Kind)
    requires Accepts(d, kind) && !d.Zero?
    ensures ItemBytes(ItemOf(d, kind)) == ValueBytes(d, kind)
  {
    hide ByteOf, Unescape, FromInt64, Low8, Low16, Low32;
    if d.DWord? || d.Word? || d.HalfWord? || d.Byte? { ItemHoldsLowBytes(d, kind.n); }
  }

  /** A string written with escapes stands for its characters and the terminating zero. */
  lemma StringValue(text: seq<bv8>)
    ensures ValueBytes(String, StringLiteral(Escape(text))) == text + [0]
  {
    UnescapeEscape(text);
  }
}
