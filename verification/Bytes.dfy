/**
 Little-endian bytes of machine values, as the memory's generic reads and writes handle them. A value
 of 1, 2, 4 or 8 bytes is held in the low bits of a 64-bit word.
 */
module Bytes {

  /** The sizes of `uint8_t`, `uint16_t`, `uint32_t` and `uint64_t`. */
  type Width = n: nat | n == 1 || n == 2 || n == 4 || n == 8 witness 1

  function Low8(value: bv64): bv8 { (value & 0xFF) as bv8 }

  function Wide(byte: bv8): bv64 { byte as bv64 }

  function Wide16(half: bv16): bv64 { half as bv64 }

  function Wide32(word: bv32): bv64 { word as bv64 }

  function ShiftOut(value: bv64): bv64 { value >> 8 }

  function ShiftIn(value: bv64): bv64 { value << 8 }

  function Or(a: bv64, b: bv64): bv64 { a | b }

  /** `static_cast<uint8_t>(value >> (8*i))`: a shift by 8*i is i shifts by 8. */
  function ByteOf(value: bv64, i: nat): bv8 {
    if i == 0 then Low8(value) else ByteOf(ShiftOut(value), i - 1)
  }

  /** `static_cast<T>(byte) << (8*i)`. */
  function Place(byte: bv8, i: nat): bv64 {
    if i == 0 then Wide(byte) else ShiftIn(Place(byte, i - 1))
  }

  /** The bytes that writing an `n`-byte value stores, first address first. */
  function ToBytes(value: bv64, n: nat): (s: seq<bv8>)
    ensures |s| == n
  {
    seq(n, i requires 0 <= i < n => ByteOf(value, i))
  }

  /** The value that reading those addresses assembles. */
  function FromBytes(s: seq<bv8>): bv64 {
    if s == [] then 0 else Or(FromBytes(s[..|s| - 1]), Place(s[|s| - 1], |s| - 1))
  }

  /** `value` is a value of an `n`-byte unsigned type. */
  predicate Fits(value: bv64, n: nat) {
    if n == 0 then value == 0 else Fits(ShiftOut(value), n - 1)
  }

  lemma OrAssociates(a: bv64, b: bv64, c: bv64)
    ensures Or(Or(a, b), c) == Or(a, Or(b, c))
  {
  }

  lemma ShiftInOr(b: bv64, c: bv64)
    ensures Or(ShiftIn(b), ShiftIn(c)) == ShiftIn(Or(b, c))
  {
  }

  lemma OrNothing(a: bv64)
    ensures Or(0, a) == a && Or(a, ShiftIn(0)) == a
  {
  }

  lemma SplitLow(value: bv64)
    ensures Or(Wide(Low8(value)), ShiftIn(ShiftOut(value))) == value
  {
  }

  lemma {:induction false} FromBytesFirst(s: seq<bv8>)
    requires s != []
    ensures FromBytes(s) == Or(Wide(s[0]), ShiftIn(FromBytes(s[1..])))
  {
    var k := |s| - 1;
    if k == 0 {
      OrNothing(Wide(s[0]));
    } else {
      FromBytesFirst(s[..k]);
      assert s[..k][1..] == s[1..][..k - 1];
      var b, c := FromBytes(s[1..][..k - 1]), Place(s[k], k - 1);
      OrAssociates(Wide(s[0]), ShiftIn(b), ShiftIn(c));
      ShiftInOr(b, c);
    }
  }

  /** Reading back the bytes of a value of any width gives the value. */
  lemma {:induction false} FromToBytes(value: bv64, n: nat)
    requires Fits(value, n)
    ensures FromBytes(ToBytes(value, n)) == value
  {
    if n == 0 {
    } else {
      var s := ToBytes(value, n);
      FromBytesFirst(s);
      assert s[1..] == ToBytes(ShiftOut(value), n - 1);
      FromToBytes(ShiftOut(value), n - 1);
      SplitLow(value);
    }
  }

  /** Every 64-bit value is an 8-byte value. */
  lemma AllFit8(value: bv64)
    ensures Fits(value, 8)
  {
    var a := ShiftOut(ShiftOut(ShiftOut(ShiftOut(value))));
    assert ShiftOut(ShiftOut(ShiftOut(ShiftOut(a)))) == 0;
    FitsStep4(value, 8);
    FitsStep4(a, 4);
  }

  lemma FitsStep4(value: bv64, n: nat)
    requires n >= 4
    ensures Fits(value, n) == Fits(ShiftOut(ShiftOut(ShiftOut(ShiftOut(value)))), n - 4)
  {
    var a := ShiftOut(value);
    var b := ShiftOut(a);
    assert Fits(value, n) == Fits(a, n - 1);
    assert Fits(a, n - 1) == Fits(b, n - 2);
    assert Fits(b, n - 2) == Fits(ShiftOut(b), n - 3);
  }

  /** A 32-bit word is a 4-byte value. */
  lemma WordFits4(w: bv32)
    ensures Fits(Wide32(w), 4)
  {
    assert ShiftOut(ShiftOut(ShiftOut(ShiftOut(Wide32(w))))) == 0;
    FitsStep4(Wide32(w), 4);
  }

  lemma HalfFits2(w: bv16)
    ensures Fits(Wide16(w), 2)
  {
    var v := Wide16(w);
    assert ShiftOut(ShiftOut(v)) == 0;
    assert Fits(v, 2) == Fits(ShiftOut(v), 1);
  }

  lemma ByteFits1(w: bv8)
    ensures Fits(Wide(w), 1)
  {
    assert ShiftOut(Wide(w)) == 0;
  }
}
