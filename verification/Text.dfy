/**
 Numbers as text: `std::to_string`, `std::stoi`, and the C strings held in fixed character arrays.
 A back-patched branch offset crosses from the parser to the code generator in this form.
 */
module Text {
  import opened Words

  datatype Option<+T> = None | Some(value: T)

  /** What `std::stoi` throws. */
  datatype NumberError = InvalidArgument | OutOfRange

  datatype Result<+T, +E> = Ok(value: T) | Err(error: E) {
    predicate IsFailure() { Err? }

    function PropagateFailure<U>(): Result<U, E>
      requires Err?
    {
      Err(error)
    }

    function Extract(): T
      requires Ok?
    {
      value
    }
  }

  function DigitChar(d: nat): char
    requires d < 10
  {
    '0' + d as char
  }

  predicate IsDigit(c: char) { '0' <= c <= '9' }

  function DigitValue(c: char): nat
    requires IsDigit(c)
  {
    (c - '0') as nat
  }

  /** Decimal digits of `n`, most significant first, without leading zeros. */
  function Digits(n: nat): string {
    if n < 10 then [DigitChar(n)] else Digits(n / 10) + [DigitChar(n % 10)]
  }

  /** `std::to_string` of a signed integer. */
  function ToText(n: int): string {
    if n >= 0 then Digits(n) else ['-'] + Digits(-n)
  }

  /** How many leading characters of `s` are digits. */
  function DigitCount(s: string): (n: nat)
    ensures n <= |s|
  {
    if s == [] || !IsDigit(s[0]) then 0 else 1 + DigitCount(s[1..])
  }

  function DigitsValue(s: string): nat
    requires forall c <- s :: IsDigit(c)
  {
    if s == [] then 0 else 10 * DigitsValue(s[..|s| - 1]) + DigitValue(s[|s| - 1])
  }

  lemma {:induction false} DigitCountPrefix(s: string)
    ensures forall c <- s[..DigitCount(s)] :: IsDigit(c)
  {
    if s == [] || !IsDigit(s[0]) {
    } else {
      DigitCountPrefix(s[1..]);
      assert s[..DigitCount(s)] == [s[0]] + s[1..][..DigitCount(s[1..])];
    }
  }

  /**
   `std::stoi`: an optional sign, then as many digits as there are; anything after them is ignored.
   */
  function Stoi(s: string): Result<int, NumberError> {
    var negative := s != [] && s[0] == '-';
    var body := if s != [] && (s[0] == '-' || s[0] == '+') then s[1..] else s;
    DigitCountPrefix(body);
    var n := DigitsValue(body[..DigitCount(body)]);
    var value: int := if negative then 0 - n else n;
    if DigitCount(body) == 0 then Err(InvalidArgument)
    else if !IsInt32(value) then Err(OutOfRange)
    else Ok(value)
  }

  lemma {:induction false} DigitsAreDigits(n: nat)
    ensures |Digits(n)| > 0
    ensures forall c <- Digits(n) :: IsDigit(c)
    ensures DigitsValue(Digits(n)) == n
  {
    if n < 10 {
      assert Digits(n)[..0] == [];
    } else {
      DigitsAreDigits(n / 10);
      var d := Digits(n);
      assert d[..|d| - 1] == Digits(n / 10);
      assert DigitValue(d[|d| - 1]) == n % 10;
    }
  }

  lemma {:induction false} AllDigits(s: string)
    requires forall c <- s :: IsDigit(c)
    ensures DigitCount(s) == |s|
  {
    if s == [] {
    } else {
      AllDigits(s[1..]);
    }
  }

  /** `std::stoi(std::to_string(n))` gives `n` back for every `int`. */
  lemma StoiToText(n: int)
    requires IsInt32(n)
    ensures Stoi(ToText(n)) == Ok(n)
  {
    var m: nat := if n >= 0 then n else -n;
    var d := Digits(m);
    DigitsAreDigits(m);
    AllDigits(d);
    assert d[..|d|] == d;
    assert IsDigit(d[0]);
    if n < 0 {
      assert ToText(n)[1..] == d;
    }
  }

  /** Distinct integers print as distinct texts. */
  lemma ToTextInjective(m: int, n: int)
    requires IsInt32(m) && IsInt32(n) && ToText(m) == ToText(n)
    ensures m == n
  {
    StoiToText(m);
    StoiToText(n);
  }

  /** A number of at most `k` digits prints in at most `k` characters, plus one for a sign. */
  lemma {:induction false} DigitsLength(n: nat, k: nat)
    requires k > 0 && n < Pow10(k)
    ensures |Digits(n)| <= k
    decreases k
  {
    if n < 10 {
    } else {
      DigitsLength(n / 10, k - 1);
    }
  }

  function Pow10(k: nat): nat { if k == 0 then 1 else 10 * Pow10(k - 1) }

  lemma ToTextLength(n: int)
    requires -TWO63 <= n < TWO63
    ensures |ToText(n)| <= 20
  {
    assert Pow10(8) == 100_000_000;
    assert Pow10(16) == 10_000_000_000_000_000;
    assert Pow10(19) == 10_000_000_000_000_000_000;
    DigitsLength(if n >= 0 then n else -n, 19);
  }

  lemma {:induction false} ToTextHasNoNul(n: int)
    ensures '\0' !in ToText(n)
  {
    DigitsAreDigits(if n >= 0 then n else -n);
  }

  /*
   * C strings in fixed arrays.
   */

  /** The characters of `s` before its first NUL: what `std::string(s.c_str())` keeps. */
  function CString(s: string): (t: string)
    ensures |t| <= |s| && t == s[..|t|] && '\0' !in t
    ensures |t| < |s| ==> s[|t|] == '\0'
  {
    if s == [] || s[0] == '\0' then []
    else
      var t := CString(s[1..]);
      assert [s[0]] + t == s[..1 + |t|];
      [s[0]] + t
  }

  /** What reading back a field of `capacity` characters gives after `value` was copied into it. */
  function Clip(value: string, capacity: nat): (t: string)
    ensures |t| <= capacity
  {
    var s := CString(value);
    if |s| <= capacity then s else s[..capacity]
  }

  /** The bounded field loses nothing exactly when the text is NUL-free and fits. */
  lemma ClipIsIdentity(value: string, capacity: nat)
    ensures Clip(value, capacity) == value <==> '\0' !in value && |value| <= capacity
  {
    var s := CString(value);
    if '\0' !in value {
      assert |s| == |value|;
      assert value[..|s|] == value;
    }
  }

  /** The 32-character immediate field holds every printed 64-bit integer whole. */
  lemma ImmFieldHolds(n: int)
    requires -TWO63 <= n < TWO63
    ensures Clip(ToText(n), 32) == ToText(n)
  {
    ToTextLength(n);
    ToTextHasNoNul(n);
    ClipIsIdentity(ToText(n), 32);
  }
}
