/**
 The integer operations of the arithmetic unit (src/vm/alu.cpp). Operands and results are 64-bit
 registers, held here as the numbers 0 .. 2^64 - 1.
 */
module Alu {
  import opened Words

  type Register = x: int | 0 <= x < 0x1_0000_0000_0000_0000

  datatype AluOp =
    | kAdd | kAddw | kSub | kSubw | kMul | kMulh | kMulhsu | kMulhu | kMulw
    | kDiv | kDivw | kDivu | kDivuw | kRem | kRemw | kRemu | kRemuw
    | kSll | kSllw | kSrl | kSrlw | kSra | kSraw | kSlt | kSltu

  /** Division by zero and the overflowing remainder have no defined result in C++. */
  datatype Outcome = Defined(value: Register, overflow: bool) | Undefined

  const INT64_MIN: int := -0x8000_0000_0000_0000
  const INT64_MAX: int := 0x7FFF_FFFF_FFFF_FFFF
  const TWO128: int := 0x1_0000_0000_0000_0000_0000_0000_0000_0000

  predicate IsInt64(n: int) { INT64_MIN <= n <= INT64_MAX }

  /** `static_cast<uint64_t>`. */
  function Unsigned(n: int): Register { n % TWO64 }

  /** `static_cast<int64_t>` of a register. */
  function Signed(x: Register): (n: int)
    ensures IsInt64(n)
  {
    if x <= INT64_MAX then x else x - TWO64
  }

  /** A 32-bit result, sign-extended into a register. */
  function Extended(n: int): Register { Unsigned(Signed32(n)) }

  /** The signed 128-bit value with the same low bits. */
  function Wrap128(n: int): int {
    var u := n % TWO128;
    if u < TWO128 / 2 then u else u - TWO128
  }

  /** `static_cast<int64_t>(result >> 64)` of a 128-bit product, as a register. */
  function High(product: int): Register { Unsigned(Wrap128(product) / TWO64) }

  /** Quotient and remainder of C++ integers: towards zero. */
  function Quotient(a: int, b: int): int
    requires b != 0
  {
    var q := Magnitude(a) / Magnitude(b);
    if (a < 0) == (b < 0) then q else -q
  }

  function Remainder(a: int, b: int): int
    requires b != 0
  {
    var r := Magnitude(a) % Magnitude(b);
    if a < 0 then -r else r
  }

  function Magnitude(n: int): nat { if n < 0 then -n else n }

  function Add(a: Register, b: Register): Outcome {
    var sum := Signed(a) + Signed(b);
    Defined(Unsigned(sum), !IsInt64(sum))
  }

  function Addw(a: Register, b: Register): Outcome {
    var sum := Signed32(a) + Signed32(b);
    Defined(Extended(sum), !IsInt32(sum))
  }

  function Sub(a: Register, b: Register): Outcome {
    var difference := Signed(a) - Signed(b);
    Defined(Unsigned(difference), !IsInt64(difference))
  }

  function Subw(a: Register, b: Register): Outcome {
    var difference := Signed32(a) - Signed32(b);
    Defined(Extended(difference), !IsInt32(difference))
  }

  function Mul(a: Register, b: Register): Outcome {
    var product := Signed(a) * Signed(b);
    Defined(Unsigned(product), !IsInt64(product))
  }

  function Mulw(a: Register, b: Register): Outcome {
    var product := Signed32(a) * Signed32(b);
    Defined(Extended(product), product != Signed32(product))
  }

  function Div(a: Register, b: Register): Outcome {
    if Signed(b) == 0 then Defined(0, false)
    else if Signed(a) == INT64_MIN && Signed(b) == -1 then Defined(Unsigned(INT64_MAX), true)
    else Defined(Unsigned(Quotient(Signed(a), Signed(b))), false)
  }

  function Divw(a: Register, b: Register): Outcome {
    if Signed32(b) == 0 then Defined(0, false)
    else if Signed32(a) == INT32_MIN && Signed32(b) == -1 then Defined(Unsigned(INT32_MIN), true)
    else Defined(Unsigned(Quotient(Signed32(a), Signed32(b))), false)
  }

  function Divu(a: Register, b: Register): Outcome {
    if b == 0 then Defined(0, false) else Defined(Unsigned(Quotient(a, b)), false)
  }

  /** The test for zero looks at all 64 bits, the division only at the low 32. */
  function Divuw(a: Register, b: Register): Outcome {
    if b == 0 then Defined(0, false)
    else if Low(b) == 0 then Undefined
    else Defined(Unsigned(Quotient(Low(a), Low(b))), false)
  }

  function Rem(a: Register, b: Register): Outcome {
    if b == 0 then Defined(0, false)
    else if Signed(a) == INT64_MIN && Signed(b) == -1 then Undefined
    else Defined(Unsigned(Remainder(Signed(a), Signed(b))), false)
  }

  function Remw(a: Register, b: Register): Outcome {
    if b == 0 then Defined(0, false)
    else if Signed32(b) == 0 || (Signed32(a) == INT32_MIN && Signed32(b) == -1) then Undefined
    else Defined(Unsigned(Remainder(Signed32(a), Signed32(b))), false)
  }

  function Remu(a: Register, b: Register): Outcome {
    if b == 0 then Defined(0, false) else Defined(Unsigned(Remainder(a, b)), false)
  }

  function Remuw(a: Register, b: Register): Outcome {
    if b == 0 then Defined(0, false)
    else if Low(b) == 0 then Undefined
    else Defined(Unsigned(Remainder(Low(a), Low(b))), false)
  }

  function Execute(op: AluOp, a: Register, b: Register): Outcome {
    match op
    case kAdd => Add(a, b)
    case kAddw => Addw(a, b)
    case kSub => Sub(a, b)
    case kSubw => Subw(a, b)
    case kMul => Mul(a, b)
    case kMulh => Defined(High(Signed(a) * Signed(b)), false)
    case kMulhsu => Defined(High(Signed(a) * b), false)
    case kMulhu => Defined(High(a * b), false)
    case kMulw => Mulw(a, b)
    case kDiv => Div(a, b)
    case kDivw => Divw(a, b)
    case kDivu => Divu(a, b)
    case kDivuw => Divuw(a, b)
    case kRem => Rem(a, b)
    case kRemw => Remw(a, b)
    case kRemu => Remu(a, b)
    case kRemuw => Remuw(a, b)
    case kSll => Defined(Unsigned(a * Pow2(b % 64)), false)
    case kSllw => Defined(Extended(Low(a) * Pow2(b % 32)), false)
    case kSrl => Defined(Unsigned(a / Pow2(b % 64)), false)
    case kSrlw => Defined(Extended(Low(a) / Pow2(b % 32)), false)
    case kSra => Defined(Unsigned(Signed(a) / Pow2(b % 64)), false)
    case kSraw => Defined(Unsigned(Signed32(a) / Pow2(b % 32)), false)
    case kSlt => Defined(if Signed(a) < Signed(b) then 1 else 0, false)
    case kSltu => Defined(if a < b then 1 else 0, false)
  }

  /*
   * Casts.
   */

  lemma UnsignedMultiple(n: int, k: int)
    ensures Unsigned(n + TWO64 * k) == Unsigned(n)
  {
    assert (n + TWO64 * k) / TWO64 == n / TWO64 + k;
  }

  lemma LowMultiple(n: int, k: int)
    ensures Low(n + TWO32 * k) == Low(n)
  {
    assert (n + TWO32 * k) / TWO32 == n / TWO32 + k;
  }

  lemma SignedOfUnsigned(n: int)
    requires IsInt64(n)
    ensures Signed(Unsigned(n)) == n
  {
  }

  lemma LowOfSigned(a: Register)
    ensures Low(Signed(a)) == Low(a) == Low(Signed32(a))
  {
    assert Signed(a) == a || Signed(a) == a + TWO32 * (-TWO32);
    LowMultiple(a, -TWO32);
    LowOfSigned32(a);
  }

  lemma LowOfSigned32(n: int)
    ensures Low(Signed32(n)) == Low(n)
  {
    LowMultiple(Low(n), -1);
  }

  lemma LowOfUnsigned(n: int)
    ensures Low(Unsigned(n)) == Low(n)
  {
    assert n == Unsigned(n) + TWO32 * (TWO32 * (n / TWO64));
    LowMultiple(Unsigned(n), TWO32 * (n / TWO64));
  }

  lemma ByLow(m: int, n: int)
    requires Low(m) == Low(n)
    ensures Signed32(m) == Signed32(n) && Extended(m) == Extended(n)
  {
  }

  /* The low half of a sum, difference or product depends only on the low halves. */

  lemma LowOfSum(x: int, y: int)
    ensures Low(x + y) == Low(Low(x) + Low(y))
    ensures Low(x - y) == Low(Low(x) - Low(y))
  {
    var j, k := x / TWO32, y / TWO32;
    LowMultiple(Low(x) + Low(y), j + k);
    LowMultiple(Low(x) - Low(y), j - k);
  }

  lemma LowOfProduct(x: int, y: int)
    ensures Low(x * y) == Low(Low(x) * Low(y))
  {
    var j, k := x / TWO32, y / TWO32;
    ProductOfSums(Low(x), j, Low(y), k);
    LowMultiple(Low(x) * Low(y), j * Low(y) + k * x);
  }

  lemma ProductOfSums(r: int, j: int, s: int, k: int)
    ensures (r + TWO32 * j) * (s + TWO32 * k) == r * s + TWO32 * (j * s + k * (r + TWO32 * j))
  {
    assert (r + TWO32 * j) * (s + TWO32 * k) == (r + TWO32 * j) * s + TWO32 * (k * (r + TWO32 * j));
    assert (r + TWO32 * j) * s == r * s + TWO32 * (j * s);
  }

  /*
   * Overflow flags.
   */

  /** The signed result is the exact sum, difference or product exactly when the flag is clear. */
  lemma FlagsAreExact(a: Register, b: Register)
    ensures Signed(Add(a, b).value) == Signed(a) + Signed(b) <==> !Add(a, b).overflow
    ensures Signed(Sub(a, b).value) == Signed(a) - Signed(b) <==> !Sub(a, b).overflow
    ensures Signed(Mul(a, b).value) == Signed(a) * Signed(b) <==> !Mul(a, b).overflow
  {
    FlagIsExact(Signed(a) + Signed(b));
    FlagIsExact(Signed(a) - Signed(b));
    FlagIsExact(Signed(a) * Signed(b));
  }

  lemma FlagIsExact(n: int)
    ensures Signed(Unsigned(n)) == n <==> IsInt64(n)
  {
    if IsInt64(n) { SignedOfUnsigned(n); }
  }

  lemma WordFlagsAreExact(a: Register, b: Register)
    ensures Signed(Addw(a, b).value) == Signed32(a) + Signed32(b) <==> !Addw(a, b).overflow
    ensures Signed(Subw(a, b).value) == Signed32(a) - Signed32(b) <==> !Subw(a, b).overflow
    ensures Signed(Mulw(a, b).value) == Signed32(a) * Signed32(b) <==> !Mulw(a, b).overflow
  {
    WordFlagIsExact(Signed32(a) + Signed32(b));
    WordFlagIsExact(Signed32(a) - Signed32(b));
    WordFlagIsExact(Signed32(a) * Signed32(b));
  }

  lemma WordFlagIsExact(n: int)
    ensures Signed(Extended(n)) == Signed32(n)
    ensures Signed32(n) == n <==> IsInt32(n)
  {
    SignedOfUnsigned(Signed32(n));
  }

  /*
   * Wide multiplication.
   */

  lemma Product(x: int, y: int, m: int, n: int)
    requires -m <= x <= m && -n <= y <= n
    ensures -(m * n) <= x * y <= m * n
  {
    if x >= 0 && y >= 0 { Below(x, y, m, n); }
    else if x >= 0 { Below(x, -y, m, n); assert x * (-y) == -(x * y); }
    else if y >= 0 { Below(-x, y, m, n); assert (-x) * y == -(x * y); }
    else { Below(-x, -y, m, n); assert (-x) * (-y) == x * y; }
  }

  lemma Below(x: nat, y: nat, m: nat, n: nat)
    requires x <= m && y <= n
    ensures 0 <= x * y <= m * n
  {
    assert x * y <= x * n;
    assert x * n <= m * n;
  }

  /** A product that fits 128 signed bits is its high half, read as signed, above its low half. */
  lemma SplitSigned(p: int)
    requires -(TWO128 / 2) <= p < TWO128 / 2
    ensures Signed(High(p)) * TWO64 + Unsigned(p) == p
  {
    assert Wrap128(p) == p;
    assert INT64_MIN <= p / TWO64 <= INT64_MAX;
    SignedOfUnsigned(p / TWO64);
  }

  /** An unsigned product wraps around as a signed 128-bit number, and its high half comes out right all the same. */
  lemma SplitUnsigned(p: nat)
    requires p < TWO128
    ensures High(p) * TWO64 + Unsigned(p) == p
  {
    if p >= TWO128 / 2 {
      assert (p - TWO128) / TWO64 == p / TWO64 - TWO64;
      UnsignedMultiple(p / TWO64, -1);
    }
    assert 0 <= p / TWO64 < TWO64;
  }

  lemma LowHalves(a: Register, b: Register)
    ensures Unsigned(Signed(a) * b) == Unsigned(Signed(a) * Signed(b)) == Unsigned(a * b)
  {
    var j, k := if a <= INT64_MAX then 0 else -1, if b <= INT64_MAX then 0 else -1;
    assert Signed(a) == a + TWO64 * j && Signed(b) == b + TWO64 * k;
    assert Signed(a) * Signed(b) == Signed(a) * b + TWO64 * (k * Signed(a));
    UnsignedMultiple(Signed(a) * b, k * Signed(a));
    assert Signed(a) * b == a * b + TWO64 * (j * b);
    UnsignedMultiple(a * b, j * b);
  }

  /**
   Each high variant, paired with the low half from `kMul`, gives the exact 128-bit product: signed by
   signed, signed by unsigned, and unsigned by unsigned.
   */
  lemma WideProducts(a: Register, b: Register)
    ensures Signed(Execute(kMulh, a, b).value) * TWO64 + Mul(a, b).value == Signed(a) * Signed(b)
    ensures Signed(Execute(kMulhsu, a, b).value) * TWO64 + Mul(a, b).value == Signed(a) * b
    ensures Execute(kMulhu, a, b).value * TWO64 + Mul(a, b).value == a * b
  {
    LowHalves(a, b);
    Product(Signed(a), Signed(b), TWO63, TWO63);
    SplitSigned(Signed(a) * Signed(b));
    Product(Signed(a), b, TWO63, TWO64 - 1);
    SplitSigned(Signed(a) * b);
    Product(a, b, TWO64 - 1, TWO64 - 1);
    Below(a, b, TWO64 - 1, TWO64 - 1);
    SplitUnsigned(a * b);
  }

  /*
   * Division.
   */

  /** Quotient and remainder by truncation: the remainder is smaller than the divisor and not of the other sign. */
  predicate Divides(a: int, b: int, q: int, r: int) {
    && a == q * b + r
    && Magnitude(r) < Magnitude(b)
    && (r == 0 || (r < 0) == (a < 0))
  }

  lemma QuotientDivides(a: int, b: int)
    requires b != 0
    ensures Divides(a, b, Quotient(a, b), Remainder(a, b))
  {
    hide Divides;
    var q, r := Magnitude(a) / Magnitude(b), Magnitude(a) % Magnitude(b);
    Parts(Magnitude(a), Magnitude(b));
    SignedParts(a, b, q, r);
  }

  lemma Parts(x: nat, y: nat)
    requires y > 0
    ensures x == x / y * y + x % y && x / y >= 0 && 0 <= x % y < y
  {
  }

  lemma SignedParts(a: int, b: int, q: int, r: int)
    requires Magnitude(a) == q * Magnitude(b) + r && q >= 0 && 0 <= r < Magnitude(b)
    ensures Divides(a, b, if (a < 0) == (b < 0) then q else -q, if a < 0 then -r else r)
  {
    assert q * (-b) == -(q * b) && (-q) * b == -(q * b);
  }

  /** Nothing else divides: the identity determines quotient and remainder. */
  lemma DivisionIsUnique(a: int, b: int, q: int, r: int, q': int, r': int)
    requires Divides(a, b, q, r) && Divides(a, b, q', r')
    ensures q == q' && r == r'
  {
    assert (q - q') * b == r' - r;
    if q != q' { AtLeastOnce(q - q', b); }
  }

  lemma AtLeastOnce(k: int, b: int)
    requires k != 0
    ensures Magnitude(k * b) >= Magnitude(b)
  {
    if k > 0 { assert k * b == b + (k - 1) * b; } else { assert k * b == -b + (k + 1) * b; }
    if k > 0 && b >= 0 { Below(1, b, k, b); }
    else if k > 0 { Below(1, -b, k, -b); assert k * (-b) == -(k * b); }
    else if b >= 0 { Below(1, b, -k, b); assert (-k) * b == -(k * b); }
    else { Below(1, -b, -k, -b); assert (-k) * (-b) == k * b; }
  }

  lemma QuotientFits(a: int, b: int, min: int)
    requires b != 0 && min < 0 && min <= a < -min && !(a == min && b == -1)
    ensures min <= Quotient(a, b) < -min
    ensures min <= Remainder(a, b) < -min
  {
    Smaller(Magnitude(a), Magnitude(b));
  }

  lemma Smaller(x: nat, y: nat)
    requires y > 0
    ensures 0 <= x / y <= x && 0 <= x % y <= x
    ensures x > 0 && y >= 2 ==> x / y < x
    ensures y == 1 ==> x / y == x
  {
    var q := x / y;
    assert x == q * y + x % y;
    Below(q, 1, q, y);
    if y >= 2 { Below(q, 2, q, y); }
  }

  /** The signed pair, as C++ leaves it: undefined exactly on overflow, and a division exactly when the divisor is not zero. */
  lemma SignedDivision(a: Register, b: Register)
    ensures Div(a, b).Defined?
    ensures Rem(a, b).Undefined? <==> Signed(a) == INT64_MIN && Signed(b) == -1
    ensures Rem(a, b).Defined? ==>
      (Divides(Signed(a), Signed(b), Signed(Div(a, b).value), Signed(Rem(a, b).value)) <==> b != 0)
  {
    if Rem(a, b).Defined? && b != 0 {
      QuotientDivides(Signed(a), Signed(b));
      QuotientFits(Signed(a), Signed(b), INT64_MIN);
      SignedOfUnsigned(Quotient(Signed(a), Signed(b)));
      SignedOfUnsigned(Remainder(Signed(a), Signed(b)));
    }
  }

  lemma LowOfZero()
    ensures Low(0) == 0
  {
  }

  lemma UnsignedParts(a: Register, b: Register)
    requires b != 0
    ensures Unsigned(Quotient(a, b)) == Quotient(a, b) && Unsigned(Remainder(a, b)) == Remainder(a, b)
  {
    Smaller(a, b);
  }

  lemma UnsignedDivision(a: Register, b: Register)
    ensures Divu(a, b).Defined? && Remu(a, b).Defined?
    ensures Divides(a, b, Divu(a, b).value, Remu(a, b).value) <==> b != 0
  {
    if b != 0 {
      QuotientDivides(a, b);
      UnsignedParts(a, b);
    }
  }

  /** The signed word pair: the remainder is also undefined when only the divisor's low half is zero. */
  lemma SignedWordDivision(a: Register, b: Register)
    ensures Divw(a, b).Defined?
    ensures Remw(a, b).Undefined? <==>
      (b != 0 && Low(b) == 0) || (Signed32(a) == INT32_MIN && Signed32(b) == -1)
    ensures Remw(a, b).Defined? ==>
      (Divides(Signed32(a), Signed32(b), Signed(Divw(a, b).value), Signed(Remw(a, b).value)) <==> b != 0)
  {
    if Remw(a, b).Defined? && b != 0 {
      QuotientDivides(Signed32(a), Signed32(b));
      QuotientFits(Signed32(a), Signed32(b), INT32_MIN);
      SignedOfUnsigned(Quotient(Signed32(a), Signed32(b)));
      SignedOfUnsigned(Remainder(Signed32(a), Signed32(b)));
    }
  }

  lemma UnsignedWordDivision(a: Register, b: Register)
    ensures Divuw(a, b).Undefined? <==> b != 0 && Low(b) == 0
    ensures Remuw(a, b).Undefined? <==> b != 0 && Low(b) == 0
    ensures Divuw(a, b).Defined? ==>
      (Divides(Low(a), Low(b), Divuw(a, b).value, Remuw(a, b).value) <==> b != 0)
  {
    hide Low, Quotient, Remainder, Unsigned;
    LowOfLow(b);
    if Divuw(a, b).Defined? && b != 0 {
      QuotientDivides(Low(a), Low(b));
      UnsignedParts(Low(a), Low(b));
    } else if b == 0 {
      assert Low(0) == 0 by { LowOfZero(); }
    }
  }

  /*
   * Word operations.
   */

  /** Each word operation is its wide counterpart cut to the low half and sign-extended. */
  lemma WordsAreTruncations(a: Register, b: Register)
    ensures Addw(a, b).value == Extended(Add(a, b).value)
    ensures Subw(a, b).value == Extended(Sub(a, b).value)
    ensures Mulw(a, b).value == Extended(Mul(a, b).value)
    ensures Execute(kSllw, a, b).value == Extended(Execute(kSll, a, b % 32).value)
  {
    hide Low, Signed, Signed32, Extended, Unsigned;
    LowOfSigned(a);
    LowOfSigned(b);
    LowOfSum(Signed(a), Signed(b));
    LowOfSum(Signed32(a), Signed32(b));
    LowOfProduct(Signed(a), Signed(b));
    LowOfProduct(Signed32(a), Signed32(b));
    Truncated(Signed32(a) + Signed32(b), Signed(a) + Signed(b));
    Truncated(Signed32(a) - Signed32(b), Signed(a) - Signed(b));
    Truncated(Signed32(a) * Signed32(b), Signed(a) * Signed(b));
    ShiftedLeft(a, b);
  }

  lemma ShiftedLeft(a: Register, b: Register)
    ensures Extended(Low(a) * Pow2(b % 32)) == Extended(Unsigned(a * Pow2(b % 32)))
    ensures Execute(kSll, a, b % 32).value == Unsigned(a * Pow2(b % 32))
  {
    hide Low, Extended, Unsigned;
    var p := Pow2(b % 32);
    LowOfLow(a);
    LowOfProduct(a, p);
    LowOfProduct(Low(a), p);
    Truncated(Low(a) * p, a * p);
    assert b % 32 % 64 == b % 32;
  }

  lemma LowOfLow(n: int)
    ensures Low(Low(n)) == Low(n)
  {
  }

  lemma Truncated(m: int, n: int)
    requires Low(m) == Low(n)
    ensures Extended(m) == Extended(Unsigned(n))
  {
    LowOfUnsigned(n);
    ByLow(m, Unsigned(n));
  }

  /** The word shifts to the right are the wide ones applied to an extended low half: by zeros, or by its sign. */
  lemma WordShiftsRight(a: Register, b: Register)
    ensures Execute(kSrlw, a, b).value == Extended(Execute(kSrl, Low(a), b % 32).value)
    ensures Execute(kSraw, a, b).value == Execute(kSra, Extended(a), b % 32).value
  {
    hide Pow2, Low, Signed32, Unsigned, Signed;
    assert b % 32 % 64 == b % 32;
    ShiftedLow(a, Pow2(b % 32));
    SignedOfUnsigned(Signed32(a));
  }

  lemma ShiftedLow(a: Register, p: nat)
    requires p > 0
    ensures Unsigned(Low(a) / p) == Low(a) / p
  {
    Smaller(Low(a), p);
  }

  /** Only the low halves of the operands matter to these word operations. */
  lemma OnlyLowHalvesMatter(op: AluOp, a: Register, b: Register)
    requires op in {kAddw, kSubw, kMulw, kDivw, kSllw, kSrlw, kSraw}
    ensures Execute(op, a, b) == Execute(op, Low(a), Low(b))
  {
    LowOfLow(a);
    LowOfLow(b);
    ByLow(Low(a), a);
    ByLow(Low(b), b);
    ShiftByLow(b);
  }

  lemma ShiftByLow(b: int)
    ensures Low(b) % 32 == b % 32
  {
    assert b == Low(b) + 32 * (0x800_0000 * (b / TWO32));
    assert (Low(b) + 32 * (0x800_0000 * (b / TWO32))) / 32 == Low(b) / 32 + 0x800_0000 * (b / TWO32);
  }

  /** To the others the high half of the divisor matters exactly when its low half is zero and it is not. */
  lemma HighHalfOfDivisorMatters(op: AluOp, a: Register, b: Register)
    requires op in {kDivuw, kRemw, kRemuw}
    ensures Execute(op, a, b) == Execute(op, Low(a), Low(b)) <==> b == 0 || Low(b) != 0
  {
    hide Quotient, Remainder, Unsigned, Low;
    LowOfLow(a);
    LowOfLow(b);
    ByLow(Low(a), a);
    ByLow(Low(b), b);
    LowOfZero();
  }

  /** `divuw` by 2^32: the test for zero is on all 64 bits, and the division by the low 32 traps. */
  lemma DivideByTwo32(a: Register)
    ensures Execute(kDivuw, a, TWO32) == Undefined
    ensures Execute(kDivuw, Low(a), Low(TWO32)) == Defined(0, false)
  {
    assert Low(TWO32) == 0;
  }

  /*
   * Operations against each other.
   */

  /** Signed sums and differences are the unsigned ones, also when they overflow; and they undo each other. */
  lemma SumsAreUnsigned(a: Register, b: Register)
    ensures Add(a, b).value == (a + b) % TWO64 && Sub(a, b).value == (a - b) % TWO64
    ensures Sub(Add(a, b).value, b).value == a && Add(Sub(a, b).value, b).value == a
  {
    SumIsUnsigned(a, b);
    SumIsUnsigned(Unsigned(a + b), b);
    SumIsUnsigned(Unsigned(a - b), b);
    Undone(a, b);
  }

  lemma SumIsUnsigned(a: Register, b: Register)
    ensures Unsigned(Signed(a) + Signed(b)) == Unsigned(a + b)
    ensures Unsigned(Signed(a) - Signed(b)) == Unsigned(a - b)
  {
    hide Unsigned;
    var j, k := if a <= INT64_MAX then 0 else -1, if b <= INT64_MAX then 0 else -1;
    assert Signed(a) == a + TWO64 * j && Signed(b) == b + TWO64 * k;
    UnsignedMultiple(a + b, j + k);
    UnsignedMultiple(a - b, j - k);
  }

  lemma Undone(a: Register, b: Register)
    ensures Unsigned(Unsigned(a + b) - b) == a && Unsigned(Unsigned(a - b) + b) == a
  {
  }

  /** `slt` is the sign of the difference, corrected by its overflow flag. */
  lemma LessIsSignOfDifference(a: Register, b: Register)
    ensures Execute(kSlt, a, b).value == 1 <==> Sub(a, b).overflow != (Signed(Sub(a, b).value) < 0)
    ensures Execute(kSlt, a, b).value == 0 || Execute(kSlt, a, b).value == 1
  {
    var d := Signed(a) - Signed(b);
    if IsInt64(d) {
      SignedOfUnsigned(d);
    } else if d < 0 {
      assert Signed(Unsigned(d)) == d + TWO64;
    } else {
      assert Signed(Unsigned(d)) == d - TWO64;
    }
  }

  /** The other sign bit. */
  function FlipSign(a: Register): Register { (a + 0x8000_0000_0000_0000) % TWO64 }

  lemma Flipped(a: Register)
    ensures Signed(FlipSign(a)) == a - 0x8000_0000_0000_0000
  {
  }

  lemma Borrow(a: Register, b: Register)
    ensures Unsigned(a - b) == if a < b then a - b + TWO64 else a - b
  {
  }

  /** `sltu` is `slt` with both sign bits flipped, and the borrow of the difference. */
  lemma UnsignedLess(a: Register, b: Register)
    ensures Execute(kSltu, a, b) == Execute(kSlt, FlipSign(a), FlipSign(b))
    ensures Execute(kSltu, a, b).value == 1 <==> a - b != Sub(a, b).value
  {
    hide Unsigned, FlipSign, Signed;
    SumIsUnsigned(a, b);
    Flipped(a);
    Flipped(b);
    Borrow(a, b);
  }

  lemma NextPower(a: Register, k: nat)
    requires k < 63
    ensures Execute(kSll, a, k).value == Unsigned(a * Pow2(k))
    ensures Execute(kSll, a, k + 1) == Defined(Unsigned(a * Pow2(k) + a * Pow2(k)), false)
  {
    hide Unsigned;
    assert (k + 1) % 64 == k + 1 && k % 64 == k && Pow2(k + 1) == 2 * Pow2(k);
    assert a * (2 * Pow2(k)) == a * Pow2(k) + a * Pow2(k);
  }

  lemma NoShift(a: Register)
    ensures Execute(kSll, a, 0).value == a
  {
    assert Pow2(0) == 1;
  }

  /** Each step of a left shift doubles. */
  lemma ShiftDoubles(a: Register, k: nat)
    ensures Execute(kSll, a, 0).value == a
    ensures k < 63 ==> Execute(kSll, a, k + 1) == Defined(Add(Execute(kSll, a, k).value, Execute(kSll, a, k).value).value, false)
  {
    hide Unsigned, Signed, Pow2;
    NoShift(a);
    if k < 63 {
      NextPower(a, k);
      var s := Unsigned(a * Pow2(k));
      SumIsUnsigned(s, s);
      Doubled(a * Pow2(k));
    }
  }

  lemma Doubled(n: int)
    ensures Unsigned(n + n) == Unsigned(Unsigned(n) + Unsigned(n))
  {
    hide Unsigned;
    assert n == Unsigned(n) + TWO64 * (n / TWO64) by { QuotientOf(n); }
    UnsignedMultiple(Unsigned(n) + Unsigned(n), 2 * (n / TWO64));
  }

  lemma QuotientOf(n: int)
    ensures n == Unsigned(n) + TWO64 * (n / TWO64)
  {
  }

  /** Right shifts divide by a power of two, rounding down. */
  lemma ShiftsRightDivide(a: Register, k: nat)
    requires k < 64
    ensures var v := Execute(kSrl, a, k).value; v * Pow2(k) <= a < (v + 1) * Pow2(k)
    ensures var v := Signed(Execute(kSra, a, k).value); v * Pow2(k) <= Signed(a) < (v + 1) * Pow2(k)
  {
    hide Pow2;
    var p := Pow2(k);
    assert k % 64 == k;
    RoundedDown(a, p);
    RoundedDown(Signed(a), p);
    Smaller(a, p);
    SignedOfUnsigned(Signed(a) / p);
  }

  lemma RoundedDown(n: int, p: nat)
    requires p > 0
    ensures n / p * p <= n < (n / p + 1) * p
    ensures 0 <= n ==> 0 <= n / p <= n
    ensures n < 0 ==> n <= n / p < 0
  {
    assert n == n / p * p + n % p;
    assert (n / p + 1) * p == n / p * p + p;
    Quotients(n, n / p, p);
  }

  lemma Quotients(n: int, q: int, p: nat)
    requires p > 0 && q * p <= n < q * p + p
    ensures 0 <= n ==> 0 <= q <= n
    ensures n < 0 ==> n <= q < 0
  {
    if q < 0 { assert q * p + p <= 0; }
    if q > 0 { assert q * p >= q; }
    if q < -1 {
      var m: nat := -1 - q;
      StepsDown(m, p);
      assert (q + 1) * p == -(m * p);
    }
  }

  lemma StepsDown(m: nat, p: nat)
    requires p > 0
    ensures m * p >= m
  {
  }

  lemma AmountAgain(b: Register, width: nat)
    requires width > 0
    ensures b % width % width == b % width
  {
  }

  /** Shift amounts count modulo the width. */
  lemma ShiftAmounts(op: AluOp, a: Register, b: Register)
    ensures op in {kSll, kSrl, kSra} ==> Execute(op, a, b) == Execute(op, a, b % 64)
    ensures op in {kSllw, kSrlw, kSraw} ==> Execute(op, a, b) == Execute(op, a, b % 32)
  {
    hide Pow2, Unsigned, Signed, Signed32, Low;
    AmountAgain(b, 64);
    AmountAgain(b, 32);
  }

  /** All eight divisions by zero give 0, and the two overflowing quotients have a result and the flag. */
  lemma SpecialQuotients(op: AluOp, a: Register)
    ensures op in {kDiv, kDivw, kDivu, kDivuw, kRem, kRemw, kRemu, kRemuw} ==> Execute(op, a, 0) == Defined(0, false)
    ensures Execute(kDiv, Unsigned(INT64_MIN), Unsigned(-1)) == Defined(0x7FFF_FFFF_FFFF_FFFF, true)
    ensures Execute(kDivw, Unsigned(INT32_MIN), Unsigned(-1)) == Defined(0xFFFF_FFFF_8000_0000, true)
  {
    LowOfZero();
  }

  /** Besides sums, differences and products, only an overflowing quotient sets the flag. */
  lemma OnlyOverflowSetsTheFlag(op: AluOp, a: Register, b: Register)
    requires op !in {kAdd, kAddw, kSub, kSubw, kMul, kMulw} && Execute(op, a, b).Defined?
    ensures Execute(op, a, b).overflow <==>
      || (op == kDiv && Signed(a) == INT64_MIN && Signed(b) == -1)
      || (op == kDivw && Signed32(a) == INT32_MIN && Signed32(b) == -1)
  {
  }
}
