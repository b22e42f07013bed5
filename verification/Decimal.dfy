/** Canonical decimal text of integers, and the bounded integer strings built on it. */
module Decimal {

  function Digit(d: nat): char
    requires d < 10
  {
    ('0' as int + d) as char
  }

  predicate IsDigit(c: char) {
    '0' <= c <= '9'
  }

  function DigitValue(c: char): nat
    requires IsDigit(c)
  {
    c as int - '0' as int
  }

  predicate AllDigits(s: string) {
    forall i :: 0 <= i < |s| ==> IsDigit(s[i])
  }

  /** `(0|[1-9]\d*)` */
  predicate CanonicalNat(s: string) {
    s == "0" || (s != "" && s[0] != '0' && AllDigits(s))
  }

  /** `(0|[1-9]\d*|-[1-9]\d*)` */
  predicate CanonicalInt(s: string) {
    CanonicalNat(s) || (|s| >= 2 && s[0] == '-' && s[1] != '0' && AllDigits(s[1..]))
  }

  function ToDecimal(n: nat): (s: string)
    ensures s != "" && AllDigits(s)
  {
    if n < 10 then [Digit(n)] else ToDecimal(n / 10) + [Digit(n % 10)]
  }

  function FromDecimal(s: string): nat
    requires AllDigits(s)
  {
    if s == "" then 0 else 10 * FromDecimal(s[..|s| - 1]) + DigitValue(s[|s| - 1])
  }

  function IntText(z: int): string {
    if z < 0 then "-" + ToDecimal(-z) else ToDecimal(z)
  }

  function IntValue(s: string): int
    requires CanonicalInt(s)
  {
    if s[0] == '-' then -(FromDecimal(s[1..]) as int) else FromDecimal(s)
  }

  lemma {:induction false} TextThenValue(n: nat)
    ensures FromDecimal(ToDecimal(n)) == n
    ensures n > 0 ==> ToDecimal(n)[0] != '0'
    ensures CanonicalNat(ToDecimal(n))
  {
    if n >= 10 {
      TextThenValue(n / 10);
      assert ToDecimal(n)[..|ToDecimal(n)| - 1] == ToDecimal(n / 10);
    } else {
      assert [Digit(n)][..0] == "";
    }
  }

  lemma {:induction false} ValueThenText(s: string)
    requires CanonicalNat(s)
    ensures ToDecimal(FromDecimal(s)) == s
    ensures s != "0" ==> FromDecimal(s) > 0
  {
    var k := |s| - 1;
    if k > 0 {
      ValueThenText(s[..k]);
      assert s == s[..k] + [s[k]];
    } else {
      assert s == [s[0]];
      assert s[..0] == "";
    }
  }

  /** Canonical text and integers determine each other. */
  lemma IntRoundTrip(z: int)
    ensures CanonicalInt(IntText(z)) && IntValue(IntText(z)) == z
  {
    if z < 0 {
      TextThenValue(-z);
      assert IntText(z)[1..] == ToDecimal(-z);
    } else {
      TextThenValue(z);
    }
  }

  lemma TextRoundTrip(s: string)
    requires CanonicalInt(s)
    ensures IntText(IntValue(s)) == s
  {
    if s[0] == '-' {
      ValueThenText(s[1..]);
      assert s == "-" + s[1..];
    } else {
      ValueThenText(s);
    }
  }

  function Pow(b: nat, k: nat): nat {
    if k == 0 then 1 else b * Pow(b, k - 1)
  }

  /** A number has at most `k` digits exactly when it is below ten to the `k`. */
  lemma {:induction false} DigitCount(n: nat, k: nat)
    requires k >= 1
    ensures |ToDecimal(n)| <= k <==> n < Pow(10, k)
  {
    if n < 10 {
      PowAtLeastBase(k);
    } else if k == 1 {
      assert Pow(10, 0) == 1;
    } else {
      DigitCount(n / 10, k - 1);
    }
  }

  lemma {:induction false} PowAtLeastBase(k: nat)
    requires k >= 1
    ensures Pow(10, k) >= 10
  {
    if k > 1 {
      PowAtLeastBase(k - 1);
    }
  }

  // ---- integerString(bits, signed) ----

  /** Exclusive magnitude of the range. */
  function Bound(bits: nat, signed: bool): nat
    requires bits > 0
  {
    Pow(2, if signed then bits - 1 else bits)
  }

  predicate InWidth(bits: nat, signed: bool, z: int)
    requires bits > 0
  {
    (if signed then -(Bound(bits, signed) as int) else 0) <= z < Bound(bits, signed)
  }

  function Cap(signed: bool): nat {
    if signed then 40 else 39
  }

  /** The validator: a length cap, a syntax check, then a range check on the parsed value. */
  predicate IntegerString(bits: nat, signed: bool, s: string)
    requires bits > 0
  {
    && |s| <= Cap(signed)
    && (if signed then CanonicalInt(s) else CanonicalNat(s))
    && InWidth(bits, signed, IntValue(s))
  }

  /** The length cap rejects no in-range integer exactly when the range's magnitude is at most 10^39. */
  lemma CapRejectsNone(bits: nat, signed: bool)
    requires bits > 0
    ensures (forall z :: InWidth(bits, signed, z) ==> |IntText(z)| <= Cap(signed))
            <==> Bound(bits, signed) <= Pow(10, 39)
  {
    var ten39 := Pow(10, 39);
    forall z | Bound(bits, signed) <= ten39 && InWidth(bits, signed, z) ensures |IntText(z)| <= Cap(signed) {
      PowerIsNotTen39(if signed then bits - 1 else bits);
      DigitCount(if z < 0 then -z else z, 39);
    }
    if Bound(bits, signed) > ten39 {
      var z := if signed then -(ten39 as int) else ten39;
      assert InWidth(bits, signed, z);
      DigitCount(ten39, 39);
    }
  }

  lemma {:induction false} OddPartOfTen(k: nat)
    requires k >= 1
    ensures Pow(10, k) % 5 == 0
  {
    var p := Pow(10, k - 1);
    assert Pow(10, k) == 5 * (2 * p);
  }

  lemma {:induction false} PowerOfTwoIsNoMultipleOfFive(k: nat)
    ensures Pow(2, k) % 5 != 0
  {
    if k > 0 {
      PowerOfTwoIsNoMultipleOfFive(k - 1);
    }
  }

  lemma PowerIsNotTen39(k: nat)
    ensures Pow(2, k) != Pow(10, 39)
  {
    OddPartOfTen(39);
    PowerOfTwoIsNoMultipleOfFive(k);
  }

  /** Of any width the validator accepts the canonical text of in-range integers, up to 39 or 40 characters. */
  lemma IntegerStringExactly(bits: nat, signed: bool, s: string)
    requires bits > 0
    ensures IntegerString(bits, signed, s)
            <==> |s| < (if signed then 41 else 40) && exists z :: InWidth(bits, signed, z) && s == IntText(z)
  {
    if IntegerString(bits, signed, s) {
      TextRoundTrip(s);
      assert InWidth(bits, signed, IntValue(s)) && s == IntText(IntValue(s));
    }
    if z :| InWidth(bits, signed, z) && s == IntText(z) {
      IntRoundTrip(z);
      if !signed {
        TextThenValue(z);
      }
    }
  }

  /** Up to that width the validator accepts exactly the canonical text of in-range integers. */
  lemma IntegerStringIsCanonical(bits: nat, signed: bool, s: string)
    requires bits > 0 && Bound(bits, signed) <= Pow(10, 39)
    ensures IntegerString(bits, signed, s) <==> exists z :: InWidth(bits, signed, z) && s == IntText(z)
  {
    CapRejectsNone(bits, signed);
    IntegerStringExactly(bits, signed, s);
  }

  lemma MultiplyThree(x: nat, y: nat, z: nat)
    ensures x * (y * z) == (x * y) * z
  {
  }

  lemma {:induction false} PowAdd(b: nat, j: nat, k: nat)
    ensures Pow(b, j + k) == Pow(b, j) * Pow(b, k)
  {
    if j > 0 {
      PowAdd(b, j - 1, k);
      MultiplyThree(b, Pow(b, j - 1), Pow(b, k));
    }
  }

  lemma Square(b: nat, k: nat, v: nat)
    requires Pow(b, k) == v
    ensures Pow(b, 2 * k) == v * v
  {
    PowAdd(b, k, k);
  }

  lemma PowersOfTwo()
    ensures Pow(2, 64) == 0x1_0000_0000_0000_0000
    ensures Pow(2, 128) == 0x1_0000_0000_0000_0000_0000_0000_0000_0000
    ensures Pow(2, 128) == 2 * Pow(2, 127)
  {
    assert Pow(2, 4) == 16;
    Square(2, 4, 16);
    Square(2, 8, 0x100);
    Square(2, 16, 0x1_0000);
    Square(2, 32, 0x1_0000_0000);
    Square(2, 64, 0x1_0000_0000_0000_0000);
  }

  lemma PowerOfTen()
    ensures Pow(10, 39) == 1_000_000_000_000_000_000_000_000_000_000_000_000_000
  {
    assert Pow(10, 3) == 1000;
    Square(10, 3, 1000);
    Square(10, 6, 1_000_000);
    Square(10, 12, 1_000_000_000_000);
    PowAdd(10, 12, 24);
    PowAdd(10, 3, 36);
  }

  /** The widths in use: u64, Q64 in 128 bits, and i128. */
  lemma WidthsInUse()
    ensures Bound(64, false) <= Pow(10, 39) && Bound(128, false) <= Pow(10, 39) && Bound(128, true) <= Pow(10, 39)
  {
    PowersOfTwo();
    PowerOfTen();
  }
}
