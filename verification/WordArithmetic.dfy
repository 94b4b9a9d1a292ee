/**
 Words as integers modulo 2^32: a word made from any integer depends only on the integer's low 32 bits,
 and shifting the word left multiplies the integer.
 */
module WordArithmetic {
  import opened Words

  function Xor(a: bv32, b: bv32): bv32 { a ^ b }

  function Or(a: bv32, b: bv32): bv32 { a | b }

  /** A shift to the left, one bit at a time. */
  function ShiftLeft(b: bv32, k: nat): bv32 { if k == 0 then b else Join(ShiftLeft(b, k - 1), false) }

  function Ones(k: nat): bv32 { if k == 0 then 0 else Join(Ones(k - 1), true) }

  /*
   * Facts about single bits.
   */

  lemma OrIs(a: bv32, b: bv32)
    ensures Or(a, b) == a | b
  {
  }

  lemma XorIs(a: bv32, b: bv32)
    ensures Xor(a, b) == a ^ b
  {
  }

  lemma NotIs(b: bv32)
    ensures Not(b) == !b
  {
  }

  lemma BitsOfOr(a: bv32, b: bv32, odd: bool)
    ensures Join(a | b, odd) == Join(a, odd) | Join(b, false)
  {
  }

  lemma BitsOfXor(a: bv32, b: bv32, odd: bool)
    ensures Join(a ^ b, !odd) == Join(a, odd) ^ Join(b, true)
  {
  }

  lemma BitsOfNot(a: bv32)
    ensures !Join(a, true) == Join(!a, false)
  {
  }

  lemma JoinOr(a: bv32, b: bv32, odd: bool)
    ensures Join(Or(a, b), odd) == Or(Join(a, odd), Join(b, false))
  {
    hide Join, Or;
    OrIs(a, b);
    OrIs(Join(a, odd), Join(b, false));
    BitsOfOr(a, b, odd);
  }

  lemma JoinXor(a: bv32, b: bv32, odd: bool)
    ensures Join(Xor(a, b), !odd) == Xor(Join(a, odd), Join(b, true))
  {
    hide Join, Xor;
    XorIs(a, b);
    XorIs(Join(a, odd), Join(b, true));
    BitsOfXor(a, b, odd);
  }

  lemma JoinNot(a: bv32)
    ensures Not(Join(a, true)) == Join(Not(a), false)
  {
    hide Join, Not;
    NotIs(a);
    NotIs(Join(a, true));
    BitsOfNot(a);
  }

  lemma OrZero(a: bv32)
    ensures Or(0, a) == a && Or(a, 0) == a && Xor(0, a) == a
  {
  }

  lemma XorAllOnes(a: bv32)
    ensures Xor(a, 0xFFFF_FFFF) == Not(a) && Not(Not(a)) == a
  {
  }

  function By4(b: bv32): bv32 { b << 4 }

  function By12(b: bv32): bv32 { b << 12 }

  lemma ShiftBy4(b: bv32)
    ensures Join(Join(Join(Join(b, false), false), false), false) == By4(b)
  {
  }

  lemma {:induction false} ShiftMore(b: bv32, j: nat, k: nat)
    ensures ShiftLeft(ShiftLeft(b, j), k) == ShiftLeft(b, j + k)
    decreases k
  {
    hide Join;
    if k > 0 { ShiftMore(b, j, k - 1); }
  }

  lemma Shift4(b: bv32)
    ensures ShiftLeft(b, 4) == By4(b)
  {
    hide Join, By4;
    ShiftBy4(b);
    assert ShiftLeft(b, 1) == Join(b, false);
    assert ShiftLeft(b, 2) == Join(ShiftLeft(b, 1), false);
    assert ShiftLeft(b, 3) == Join(ShiftLeft(b, 2), false);
  }

  lemma Shift12(b: bv32)
    ensures ShiftLeft(b, 12) == By12(b)
  {
    hide ShiftLeft, By4, By12;
    ShiftMore(b, 4, 4);
    ShiftMore(b, 8, 4);
    Shift4(b);
    Shift4(ShiftLeft(b, 4));
    Shift4(ShiftLeft(b, 8));
    ThreeBy4(b);
  }

  lemma ThreeBy4(b: bv32)
    ensures By4(By4(By4(b))) == By12(b)
  {
  }

  lemma NothingLeft(b: bv32)
    ensures By4(By4(By12(By12(b)))) == 0
  {
  }

  lemma Shift32(b: bv32)
    ensures ShiftLeft(b, 32) == 0
  {
    hide ShiftLeft, By4, By12;
    ShiftMore(b, 12, 12);
    ShiftMore(b, 24, 4);
    ShiftMore(b, 28, 4);
    Shift12(b);
    Shift12(ShiftLeft(b, 12));
    Shift4(ShiftLeft(b, 24));
    Shift4(ShiftLeft(b, 28));
    NothingLeft(b);
  }

  /*
   * Integers modulo 2^32.
   */

  /** The bits of a + 2^k * c, where a is below 2^k, are those of a and those of c. */
  lemma {:induction false} SplitBits(a: nat, k: nat, c: nat)
    requires a < Pow2(k)
    ensures FromNat32(a + Pow2(k) * c) == Or(FromNat32(a), ShiftLeft(FromNat32(c), k))
    decreases k
  {
    hide Join, Or, FromNat32;
    if k == 0 {
      NoBits();
      OrZero(FromNat32(c));
    } else {
      var h, odd := a / 2, a % 2 == 1;
      SplitBits(h, k - 1, c);
      SplitNumber(a, k, c, h, odd);
      FromNatStep(a + Pow2(k) * c, h + Pow2(k - 1) * c, odd);
      FromNatStep(a, h, odd);
      JoinOr(FromNat32(h), ShiftLeft(FromNat32(c), k - 1), odd);
    }
  }

  lemma NoBits()
    ensures FromNat32(0) == 0
  {
  }

  lemma SplitNumber(a: nat, k: nat, c: nat, h: nat, odd: bool)
    requires k > 0 && a == 2 * h + Bit(odd)
    ensures a + Pow2(k) * c == 2 * (h + Pow2(k - 1) * c) + Bit(odd)
  {
    assert Pow2(k) * c == 2 * (Pow2(k - 1) * c);
  }

  lemma {:induction false} Complement(a: nat, k: nat)
    requires a < Pow2(k)
    ensures FromNat32(Pow2(k) - 1 - a) == Xor(FromNat32(a), Ones(k))
    decreases k
  {
    hide Join, Xor;
    if k == 0 {
      OrZero(0);
    } else {
      var h, odd := a / 2, a % 2 == 1;
      Complement(h, k - 1);
      FromNatStep(Pow2(k) - 1 - a, Pow2(k - 1) - 1 - h, !odd);
      FromNatStep(a, h, odd);
      JoinXor(FromNat32(h), Ones(k - 1), odd);
    }
  }

  function FourMore(b: bv32): bv32 { (b << 4) | 0xF }

  lemma OnesMore(k: nat)
    ensures Ones(k + 4) == FourMore(Ones(k))
  {
    hide Join, FourMore;
    assert Ones(k + 1) == Join(Ones(k), true);
    assert Ones(k + 2) == Join(Ones(k + 1), true);
    assert Ones(k + 3) == Join(Ones(k + 2), true);
    FourOnes(Ones(k));
  }

  lemma FourOnes(b: bv32)
    ensures Join(Join(Join(Join(b, true), true), true), true) == FourMore(b)
  {
  }

  lemma AllOnes()
    ensures Ones(32) == 0xFFFF_FFFF && Pow2(32) == TWO32
  {
    OnesMore(0); OnesMore(4); OnesMore(8); OnesMore(12);
    OnesMore(16); OnesMore(20); OnesMore(24); OnesMore(28);
    Powers();
  }

  lemma LowWord(n: nat)
    ensures FromNat32(n) == FromNat32(Low(n))
    ensures FromNat32(TWO32 - 1 - Low(n)) == Not(FromNat32(n))
  {
    AllOnes();
    var a := Low(n);
    assert n == a + Pow2(32) * (n / TWO32);
    SplitBits(a, 32, n / TWO32);
    Shift32(FromNat32(n / TWO32));
    OrZero(FromNat32(a));
    Complement(a, 32);
    XorAllOnes(FromNat32(a));
  }

  lemma Opposite(n: int)
    ensures Low(-1 - n) == TWO32 - 1 - Low(n)
  {
  }

  /** Reading a word made from any integer gives the integer's low 32 bits as a signed number. */
  lemma IntFromAny(n: int)
    ensures Int32(FromInt32(n)) == Signed32(n)
  {
    var r := Signed32(n);
    Opposite(n);
    LowWord(if n >= 0 then n else -1 - n);
    LowWord(Low(n));
    XorAllOnes(FromNat32(Low(n)));
    SameWord(n);
    IntFromInt(r);
  }

  lemma SameWord(n: int)
    ensures FromInt32(Signed32(n)) == FromInt32(n)
  {
    Opposite(n);
    if n >= 0 {
      LowWord(n);
      XorAllOnes(FromNat32(n));
    } else {
      LowWord(-1 - n);
      XorAllOnes(FromNat32(-1 - n));
    }
  }

  lemma DoubledWord(n: int)
    ensures FromInt32(2 * n) == Join(FromInt32(n), false)
  {
    if n >= 0 {
      FromNatStep(2 * n, n, false);
    } else {
      FromNatStep(-1 - 2 * n, -1 - n, true);
      JoinNot(FromNat32(-1 - n));
    }
  }

  lemma {:induction false} ShiftedWord(n: int, k: nat)
    ensures FromInt32(n * Pow2(k)) == ShiftLeft(FromInt32(n), k)
    decreases k
  {
    if k == 0 {
    } else {
      ShiftedWord(n, k - 1);
      DoubledWord(n * Pow2(k - 1));
      assert 2 * (n * Pow2(k - 1)) == n * Pow2(k);
    }
  }

  /** `imm << 12` on an `int32_t`. */
  lemma ShiftedBy12(n: int)
    ensures Int32(By12(FromInt32(n))) == Signed32(n * 0x1000)
  {
    Powers();
    ShiftedWord(n, 12);
    Shift12(FromInt32(n));
    IntFromAny(n * 0x1000);
  }

  function ClearLow(b: bv32): bv32 { b & 0xFFFF_FFFE }

  lemma ClearJoin(h: bv32)
    ensures ClearLow(Join(h, true)) == Join(h, false)
  {
  }

  lemma BitsOfNotEven(a: bv32)
    ensures !Join(a, false) == Join(!a, true)
  {
  }

  lemma OddWord(n: int)
    ensures FromInt32(2 * n + 1) == Join(FromInt32(n), true)
  {
    hide Join, Not;
    if n >= 0 {
      FromNatStep(2 * n + 1, n, true);
    } else {
      var m := FromNat32(-1 - n);
      FromNatStep(-1 - (2 * n + 1), -1 - n, false);
      BitsOfNotEven(m);
      NotIs(m);
      NotIs(Join(m, false));
    }
  }

  /** Dropping the low bit of an odd number's word gives the number before it. */
  lemma BeforeOdd(n: int)
    requires n % 2 == 1
    ensures ClearLow(FromInt32(n)) == FromInt32(n - 1)
  {
    hide Join, ClearLow, FromInt32;
    var m := n / 2;
    assert n == 2 * m + 1;
    OddWord(m);
    DoubledWord(m);
    ClearJoin(FromInt32(m));
  }
}
