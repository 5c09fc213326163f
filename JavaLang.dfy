/**
  The few pieces of the Java platform that the macro code leans on:
  nullable values, checked exceptions, the fixed widths of `int` and `long`,
  and the decimal text that `String.valueOf` / string concatenation give an
  integer (together with a parser that inverts it).
 */
module JavaLang {

  /** A Java reference that may be null. */
  datatype Option<T> = None | Some(value: T)

  /** A value or the exception thrown instead of it. */
  datatype Result<T, E> = Success(value: T) | Failure(error: E)

  /** Java's 32-bit `int`. */
  type Int32 = x: int | -0x8000_0000 <= x < 0x8000_0000

  /** Java's 64-bit `long`. */
  type Int64 = x: int | -0x8000_0000_0000_0000 <= x < 0x8000_0000_0000_0000

  predicate IsInt32(x: int) { -0x8000_0000 <= x < 0x8000_0000 }

  predicate IsInt64(x: int) { -0x8000_0000_0000_0000 <= x < 0x8000_0000_0000_0000 }

  /** Two's-complement wrap-around of Java `int` arithmetic: the Int32 congruent to `x` modulo 2^32. */
  function Wrap32(x: int): (r: Int32)
    ensures (x - r) % 0x1_0000_0000 == 0
    ensures IsInt32(x) ==> r == x
  {
    (x + 0x8000_0000) % 0x1_0000_0000 - 0x8000_0000
  }

  /** Numbers congruent modulo 2^32 wrap to the same `int`. */
  lemma WrapOfCongruent(a: int, b: int)
    requires (a - b) % 0x1_0000_0000 == 0
    ensures Wrap32(a) == Wrap32(b)
  {
    var ra, rb := Wrap32(a), Wrap32(b);
    var k := (a - b) / 0x1_0000_0000;
    var ka := (a - ra) / 0x1_0000_0000;
    var kb := (b - rb) / 0x1_0000_0000;
    assert a - b == k * 0x1_0000_0000;
    assert a - ra == ka * 0x1_0000_0000;
    assert b - rb == kb * 0x1_0000_0000;
    assert ra - rb == (k - ka + kb) * 0x1_0000_0000;
  }

  /** Narrowing an unsigned 32-bit value to `int` leaves it or subtracts 2^32. */
  lemma WrapOfUnsigned(n: int)
    requires 0 <= n < 0x1_0000_0000
    ensures Wrap32(n) == if n < 0x8000_0000 then n else n - 0x1_0000_0000
  {
  }

  /** Wrapping an addend before adding changes nothing. */
  lemma WrapPlus(x: int, d: int)
    ensures Wrap32(Wrap32(x) + d) == Wrap32(x + d)
  {
    var k := (x - Wrap32(x)) / 0x1_0000_0000;
    assert x - Wrap32(x) == k * 0x1_0000_0000;
    WrapOfCongruent(Wrap32(x) + d, x + d);
  }

  /**
    Wrapping an intermediate result of `x * c + d` changes nothing: Java's
    step-by-step overflow agrees with reducing the exact value once.
   */
  lemma WrapInside(x: int, c: int, d: int)
    ensures Wrap32(Wrap32(x) * c + d) == Wrap32(x * c + d)
  {
    var k := (x - Wrap32(x)) / 0x1_0000_0000;
    assert x - Wrap32(x) == k * 0x1_0000_0000;
    assert (x * c + d) - (Wrap32(x) * c + d) == (k * c) * 0x1_0000_0000;
    WrapOfCongruent(Wrap32(x) * c + d, x * c + d);
  }

  // ---------------------------------------------------------------------
  // Decimal text of integers (Integer.toString, Long.toString)
  // ---------------------------------------------------------------------

  predicate IsDigit(c: char) { '0' <= c <= '9' }

  predicate AllDigits(s: string) { forall i :: 0 <= i < |s| ==> IsDigit(s[i]) }

  function DigitChar(d: nat): (c: char)
    requires d < 10
    ensures IsDigit(c) && c as int - '0' as int == d
  {
    ('0' as int + d) as char
  }

  /** The digits of `n` in base ten, most significant first, without leading zeros. */
  function NatDigits(n: nat): (s: string)
    ensures |s| >= 1 && AllDigits(s)
    ensures |s| > 1 ==> s[0] != '0'
    decreases n
  {
    if n < 10 then [DigitChar(n)] else NatDigits(n / 10) + [DigitChar(n % 10)]
  }

  /** The text Java produces for an integer: an optional minus sign followed by its digits. */
  function Decimal(i: int): (s: string)
    ensures |s| >= 1
    ensures i < 0 <==> s[0] == '-'
    ensures i < 0 ==> |s| >= 2 && AllDigits(s[1..])
    ensures i >= 0 ==> AllDigits(s)
  {
    if i < 0 then "-" + NatDigits(-i) else NatDigits(i)
  }

  /** The number a string of digits denotes. */
  function DigitsValue(s: string): nat
    requires AllDigits(s)
  {
    if s == [] then 0
    else 10 * DigitsValue(s[..|s| - 1]) + (s[|s| - 1] as int - '0' as int)
  }

  /** Reads back an optionally signed decimal integer; `None` for anything else. */
  function ParseDecimal(s: string): (r: Option<int>)
  {
    if |s| > 0 && AllDigits(s) then Some(DigitsValue(s))
    else if |s| > 1 && s[0] == '-' && AllDigits(s[1..]) then Some(-(DigitsValue(s[1..]) as int))
    else None
  }

  lemma {:induction false} DigitsValueOfNatDigits(n: nat)
    ensures DigitsValue(NatDigits(n)) == n
  {
    if n >= 10 {
      var s := NatDigits(n);
      assert s[..|s| - 1] == NatDigits(n / 10);
      DigitsValueOfNatDigits(n / 10);
    }
  }

  /** Parsing the decimal text of any integer gives that integer back. */
  lemma DecimalRoundTrip(i: int)
    ensures ParseDecimal(Decimal(i)) == Some(i)
  {
    var s := Decimal(i);
    if i < 0 {
      assert s[1..] == NatDigits(-i);
      assert !AllDigits(s) by { assert !IsDigit(s[0]); }
      assert AllDigits(s[1..]);
      DigitsValueOfNatDigits(-i);
      assert ParseDecimal(s) == Some(-(DigitsValue(s[1..]) as int));
    } else {
      assert s == NatDigits(i);
      DigitsValueOfNatDigits(i);
      assert ParseDecimal(s) == Some(DigitsValue(s) as int);
    }
  }

  /** Distinct integers have distinct decimal texts. */
  lemma DecimalInjective(i: int, j: int)
    ensures Decimal(i) == Decimal(j) <==> i == j
  {
    DecimalRoundTrip(i);
    DecimalRoundTrip(j);
  }
}
