/** Numbers as the formatting macros write them: decimal, and lower-case hexadecimal. */
module Numerals {

  type Base = b: nat | b == 10 || b == 16 witness 10

  function DigitChar(d: nat): char
    requires d < 16
  {
    "0123456789abcdef"[d]
  }

  function DigitValue(c: char): nat {
    if '0' <= c <= '9' then (c - '0') as nat
    else if 'a' <= c <= 'f' then 10 + (c - 'a') as nat
    else 0
  }

  predicate IsDigit(c: char) {
    '0' <= c <= '9' || 'a' <= c <= 'f'
  }

  function Digits(n: nat, base: Base): string {
    if n < base then [DigitChar(n)] else Digits(n / base, base) + [DigitChar(n % base)]
  }

  function Decimal(n: nat): string {
    Digits(n, 10)
  }

  function Hex(n: nat): string {
    Digits(n, 16)
  }

  function Value(digits: string, base: Base): nat {
    if digits == "" then 0
    else Value(digits[..|digits| - 1], base) * base + DigitValue(digits[|digits| - 1])
  }

  function Pow(base: Base, k: nat): nat {
    if k == 0 then 1 else base * Pow(base, k - 1)
  }

  lemma DigitRoundTrip(d: nat)
    requires d < 16
    ensures IsDigit(DigitChar(d)) && DigitValue(DigitChar(d)) == d
  {
  }

  lemma {:induction false} ValueOfDigits(n: nat, base: Base)
    ensures Value(Digits(n, base), base) == n
    ensures forall i :: 0 <= i < |Digits(n, base)| ==> IsDigit(Digits(n, base)[i])
  {
    if n < base {
      DigitRoundTrip(n);
      assert [DigitChar(n)][..0] == "";
    } else {
      DigitRoundTrip(n % base);
      ValueOfDigits(n / base, base);
      var front := Digits(n / base, base);
      assert (front + [DigitChar(n % base)])[..|front|] == front;
      if base == 10 {
        assert n == n / 10 * 10 + n % 10;
      } else {
        assert n == n / 16 * 16 + n % 16;
      }
    }
  }

  /** Decimal digits, no more of them than needed, for this number. */
  predicate Spells(digits: string, n: nat) {
    && digits != "" && (forall i :: 0 <= i < |digits| ==> '0' <= digits[i] <= '9')
    && (|digits| > 1 ==> digits[0] != '0') && Value(digits, 10) == n
  }

  lemma {:induction false} DecimalSpells(n: nat)
    ensures Spells(Decimal(n), n)
  {
    ValueOfDigits(n, 10);
    if n >= 10 {
      DecimalSpells(n / 10);
      assert n / 10 < 10 ==> Decimal(n / 10) == [DigitChar(n / 10)] && DigitChar(n / 10) != '0';
    }
  }

  lemma {:induction false} DigitsBound(n: nat, base: Base, k: nat)
    requires k > 0 && n < Pow(base, k)
    ensures |Digits(n, base)| <= k
  {
    if n >= base {
      if base == 10 {
        assert Pow(10, k) == 10 * Pow(10, k - 1);
      } else {
        assert Pow(16, k) == 16 * Pow(16, k - 1);
      }
      DigitsBound(n / base, base, k - 1);
    }
  }

  lemma {:induction false} DigitsAtLeast(n: nat, base: Base, k: nat)
    requires n >= Pow(base, k)
    ensures |Digits(n, base)| > k
  {
    if k > 0 {
      if base == 10 {
        assert Pow(10, k) == 10 * Pow(10, k - 1) && n / 10 >= Pow(10, k - 1);
      } else {
        assert Pow(16, k) == 16 * Pow(16, k - 1) && n / 16 >= Pow(16, k - 1);
      }
      PowIsPositive(base, k - 1);
      DigitsAtLeast(n / base, base, k - 1);
    }
  }

  lemma {:induction false} PowIsPositive(base: Base, k: nat)
    ensures Pow(base, k) > 0
  {
    if k > 0 {
      PowIsPositive(base, k - 1);
    }
  }

  lemma TimesRegroups(a: nat, b: nat, c: nat)
    ensures a * (b * c) == a * b * c
  {
  }

  lemma {:induction false} PowAdds(base: Base, j: nat, k: nat)
    ensures Pow(base, j + k) == Pow(base, j) * Pow(base, k)
  {
    if j > 0 {
      PowAdds(base, j - 1, k);
      TimesRegroups(base, Pow(base, j - 1), Pow(base, k));
    }
  }

  const TWO_TO_32: nat := 0x1_0000_0000
  const TWO_TO_64: nat := 0x1_0000_0000_0000_0000
  const TWO_TO_128: nat := 0x1_0000_0000_0000_0000_0000_0000_0000_0000

  lemma HexWidths()
    ensures Pow(16, 8) == TWO_TO_32 && Pow(16, 16) == TWO_TO_64 && Pow(16, 32) == TWO_TO_128
  {
    PowAdds(16, 8, 8);
    PowAdds(16, 16, 16);
  }

  /** The largest number of 128 bits has 39 decimal digits. */
  lemma WidestDecimal()
    ensures |Decimal(TWO_TO_128 - 1)| == 39
  {
    PowAdds(10, 5, 5);
    PowAdds(10, 10, 10);
    PowAdds(10, 20, 10);
    PowAdds(10, 30, 8);
    assert Pow(10, 38) == 100_000_000_000_000_000_000_000_000_000_000_000_000;
    assert Pow(10, 39) == 10 * Pow(10, 38);
    DigitsAtLeast(TWO_TO_128 - 1, 10, 38);
    DigitsBound(TWO_TO_128 - 1, 10, 39);
  }

  /** A larger number is not written shorter. */
  lemma {:induction false} DigitsMonotone(n: nat, m: nat, base: Base)
    requires n <= m
    ensures |Digits(n, base)| <= |Digits(m, base)|
  {
    if n >= base {
      if base == 10 {
        assert n / 10 <= m / 10;
      } else {
        assert n / 16 <= m / 16;
      }
      DigitsMonotone(n / base, m / base, base);
    }
  }

  lemma DigitsInjective(n: nat, m: nat, base: Base)
    requires Digits(n, base) == Digits(m, base)
    ensures n == m
  {
    ValueOfDigits(n, base);
    ValueOfDigits(m, base);
  }
}
