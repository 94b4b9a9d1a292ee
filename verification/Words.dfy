/**
 Conversions between the machine's words and the integers they stand for.

 A word is a bit-vector wherever the source shifts, masks or ors it, and an integer wherever the
 source prints it, parses it or compares it with a range. The two views are related here bit by bit,
 so that every fact about the relation is a short induction over the bits.
 */
module Words {

  const TWO32: int := 0x1_0000_0000
  const TWO63: int := 0x8000_0000_0000_0000
  const TWO64: int := 0x1_0000_0000_0000_0000

  const INT32_MIN: int := -0x8000_0000
  const INT32_MAX: int := 0x7FFF_FFFF

  predicate IsInt32(n: int) { INT32_MIN <= n <= INT32_MAX }

  /** The `int64_t` with the same low 64 bits as `x`. */
  function Int64(x: int): (y: int)
    ensures -TWO63 <= y < TWO63 && y % TWO64 == x % TWO64
  {
    var u := x % TWO64;
    if u < TWO63 then u else u - TWO64
  }

  /** `static_cast<uint32_t>`. */
  function Low(n: int): (r: nat)
    ensures r < TWO32
  {
    n % TWO32
  }

  /** `static_cast<int32_t>`. */
  function Signed32(n: int): (r: int)
    ensures INT32_MIN <= r <= INT32_MAX
  {
    if Low(n) <= INT32_MAX then Low(n) else Low(n) - TWO32
  }

  function Pow2(k: nat): (p: nat)
    ensures p > 0
  {
    if k == 0 then 1 else 2 * Pow2(k - 1)
  }

  /*
   * Words as lists of bits, least significant first.
   */

  function Half(b: bv32): bv32 { b >> 1 }

  predicate Odd(b: bv32) { b & 1 == 1 }

  function Join(half: bv32, odd: bool): bv32 { (half << 1) | (if odd then 1 else 0) }

  function Bit(odd: bool): nat { if odd then 1 else 0 }

  lemma HalfIsLess(b: bv32)
    requires b != 0
    ensures Half(b) < b
  {
  }

  lemma JoinHalf(b: bv32)
    ensures Join(Half(b), Odd(b)) == b
  {
  }

  lemma HalfJoin(h: bv32, odd: bool)
    requires h < 0x8000_0000
    ensures Half(Join(h, odd)) == h && Odd(Join(h, odd)) == odd
  {
  }

  /** The unsigned value of a word. */
  function Nat32(b: bv32): nat
    decreases b
  {
    if b == 0 then 0 else HalfIsLess(b); 2 * Nat32(Half(b)) + Bit(Odd(b))
  }

  /** The word with unsigned value `n` (its low 32 bits when it is larger). */
  function FromNat32(n: nat): bv32 {
    if n == 0 then 0 else Join(FromNat32(n / 2), n % 2 == 1)
  }

  function FromNat64(n: nat): bv64 {
    if n == 0 then 0 else (FromNat64(n / 2) << 1) | (if n % 2 == 1 then 1 else 0)
  }

  function Not(b: bv32): bv32 { !b }

  /** `static_cast<uint32_t>` of an `int`: two's complement. */
  function FromInt32(n: int): bv32 {
    if n >= 0 then FromNat32(n) else Not(FromNat32(-1 - n))
  }

  /** `static_cast<uint64_t>` of a 64-bit integer. */
  function FromInt64(n: int): bv64 {
    if n >= 0 then FromNat64(n) else !FromNat64(-1 - n)
  }

  /** `static_cast<int32_t>` of a word. */
  function Int32(b: bv32): int {
    if b < 0x8000_0000 then Nat32(b) else -1 - Nat32(Not(b))
  }

  lemma FromNatStep(n: nat, half: nat, odd: bool)
    requires n == 2 * half + Bit(odd)
    ensures FromNat32(n) == Join(FromNat32(half), odd)
  {
    if n == 0 {
      assert Join(0, false) == 0;
    } else {
      assert n / 2 == half && (n % 2 == 1) == odd;
    }
  }

  /*
   * Ranges. `lim` is the word 2^k exactly when IsPower(k, lim).
   */

  predicate IsPower(k: nat, lim: bv32)
    decreases k
  {
    if k == 0 then lim == 1 else lim == Join(Half(lim), false) && IsPower(k - 1, Half(lim))
  }

  lemma ShiftInBelow(h: bv32, lim: bv32, odd: bool)
    requires h < Half(lim) && lim == Join(Half(lim), false)
    ensures Join(h, odd) < lim
  {
  }

  lemma ShiftOutBelow(b: bv32, lim: bv32)
    requires b < lim && lim == Join(Half(lim), false)
    ensures Half(b) < Half(lim)
  {
  }

  lemma {:induction false} FromNatBelow(n: nat, k: nat, lim: bv32)
    requires n < Pow2(k) && IsPower(k, lim)
    ensures FromNat32(n) < lim
    decreases k
  {
    if k == 0 {
    } else {
      FromNatBelow(n / 2, k - 1, Half(lim));
      FromNatStep(n, n / 2, n % 2 == 1);
      ShiftInBelow(FromNat32(n / 2), lim, n % 2 == 1);
    }
  }

  lemma {:induction false} NatBelow(b: bv32, k: nat, lim: bv32)
    requires b < lim && IsPower(k, lim)
    ensures Nat32(b) < Pow2(k)
    decreases k
  {
    if k == 0 || b == 0 {
    } else {
      ShiftOutBelow(b, lim);
      NatBelow(Half(b), k - 1, Half(lim));
    }
  }

  lemma Powers()
    ensures IsPower(5, 32) && Pow2(5) == 32
    ensures IsPower(11, 2048) && Pow2(11) == 2048
    ensures IsPower(12, 4096) && Pow2(12) == 4096
    ensures IsPower(20, 0x10_0000) && Pow2(20) == 0x10_0000
    ensures IsPower(31, 0x8000_0000) && Pow2(31) == 0x8000_0000
  {
    PowerUp(0, 1); PowerUp(1, 2); PowerUp(2, 4); PowerUp(3, 8); PowerUp(4, 16);
    PowerUp(5, 32); PowerUp(6, 64); PowerUp(7, 128); PowerUp(8, 256); PowerUp(9, 512);
    PowerUp(10, 0x400); PowerUp(11, 0x800); PowerUp(12, 0x1000); PowerUp(13, 0x2000); PowerUp(14, 0x4000);
    PowerUp(15, 0x8000); PowerUp(16, 0x1_0000); PowerUp(17, 0x2_0000); PowerUp(18, 0x4_0000); PowerUp(19, 0x8_0000);
    PowerUp(20, 0x10_0000); PowerUp(21, 0x20_0000); PowerUp(22, 0x40_0000); PowerUp(23, 0x80_0000); PowerUp(24, 0x100_0000);
    PowerUp(25, 0x200_0000); PowerUp(26, 0x400_0000); PowerUp(27, 0x800_0000); PowerUp(28, 0x1000_0000);
    PowerUp(29, 0x2000_0000); PowerUp(30, 0x4000_0000);
  }

  lemma PowerUp(k: nat, lim: bv32)
    requires IsPower(k, lim) && lim <= 0x4000_0000
    ensures IsPower(k + 1, Join(lim, false)) && Pow2(k + 1) == 2 * Pow2(k)
  {
    HalfJoin(lim, false);
  }

  lemma FromNatBelowSign(m: nat)
    requires m < 0x8000_0000
    ensures FromNat32(m) < 0x8000_0000
  {
    Powers();
    FromNatBelow(m, 31, 0x8000_0000);
  }

  /*
   * Round trips.
   */

  /** A natural number below 2^32 survives the trip into a word and back, and keeps its parity. */
  lemma {:induction false} NatFromNat(n: nat)
    requires n < TWO32
    ensures Nat32(FromNat32(n)) == n
    ensures Odd(FromNat32(n)) <==> n % 2 == 1
  {
    if n == 0 {
      assert !Odd(0);
    } else {
      var h, odd := n / 2, n % 2 == 1;
      NatFromNat(h);
      FromNatBelowSign(h);
      FromNatStep(n, h, odd);
      HalfJoin(FromNat32(h), odd);
      NatJoin(FromNat32(h), odd);
    }
  }

  lemma NatJoin(h: bv32, odd: bool)
    requires h < 0x8000_0000
    ensures Nat32(Join(h, odd)) == 2 * Nat32(h) + Bit(odd)
  {
    HalfJoin(h, odd);
    if Join(h, odd) == 0 {
      assert h == 0 && !odd;
    }
  }

  lemma {:induction false} FromNatNat(b: bv32)
    ensures FromNat32(Nat32(b)) == b
    decreases b
  {
    if b == 0 {
    } else {
      HalfIsLess(b);
      FromNatNat(Half(b));
      FromNatStep(Nat32(b), Nat32(Half(b)), Odd(b));
      JoinHalf(b);
    }
  }

  lemma NotFlips(x: bv32)
    ensures Not(Not(x)) == x
    ensures x < 0x8000_0000 <==> Not(x) >= 0x8000_0000
    ensures Odd(Not(x)) <==> !Odd(x)
  {
  }

  /** An `int32_t` survives the trip into a word and back, and keeps its parity. */
  lemma IntFromInt(n: int)
    requires IsInt32(n)
    ensures Int32(FromInt32(n)) == n
    ensures Odd(FromInt32(n)) <==> n % 2 == 1
  {
    var m: nat := if n >= 0 then n else -1 - n;
    NatFromNat(m);
    FromNatBelowSign(m);
    NotFlips(FromNat32(m));
  }

  lemma FromIntInt(b: bv32)
    ensures FromInt32(Int32(b)) == b
    ensures IsInt32(Int32(b))
  {
    FromNatNat(b);
    FromNatNat(Not(b));
    NotFlips(b);
    Powers();
    NatBelow(if b < 0x8000_0000 then b else Not(b), 31, 0x8000_0000);
  }

  /** A signed range [-2^k, 2^k) of integers is the range of words whose bits from k upwards agree. */
  lemma FromIntRange(n: int, k: nat, lim: bv32)
    requires IsPower(k, lim) && -(Pow2(k) as int) <= n < Pow2(k)
    ensures FromInt32(n) < lim || Not(FromInt32(n)) < lim
  {
    var m: nat := if n >= 0 then n else -1 - n;
    FromNatBelow(m, k, lim);
    NotFlips(FromNat32(m));
  }
}
