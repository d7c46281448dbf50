/** Numerals: what integer printing should produce, and the reading that undoes it. */
module Digits {

  function DigitChar(d: nat): char
    requires d < 16
  {
    if d < 10 then '0' + d as char else 'A' + (d - 10) as char
  }

  /** The digits of `n` in `base`, least significant first; at least one. */
  function Reversed(n: nat, base: nat): (r: string)
    requires 2 <= base <= 16
    ensures r != []
  {
    [DigitChar(n % base)] + if n < base then [] else Reversed(n / base, base)
  }

  function Reverse(s: string): (r: string)
    ensures |r| == |s|
  {
    if s == [] then [] else Reverse(s[1..]) + [s[0]]
  }

  lemma {:induction false} ReverseSnoc(s: string, c: char)
    ensures Reverse(s + [c]) == [c] + Reverse(s)
  {
    if s != [] {
      assert (s + [c])[1..] == s[1..] + [c];
      ReverseSnoc(s[1..], c);
    }
  }

  lemma {:induction false} ReverseAt(s: string, k: nat)
    requires k < |s|
    ensures Reverse(s)[k] == s[|s| - 1 - k]
  {
    if k < |s| - 1 {
      ReverseAt(s[1..], k);
    }
  }

  function Numeral(n: nat, base: nat): string
    requires 2 <= base <= 16
  {
    Reverse(Reversed(n, base))
  }

  /** The decimal text of an integer, as `%d` gives it. */
  function Decimal(v: int): string {
    if v < 0 then "-" + Numeral(-v, 10) else Numeral(v, 10)
  }

  /** The value of a digit, or none. */
  function DigitValue(c: char): int {
    if '0' <= c <= '9' then c as int - '0' as int
    else if 'A' <= c <= 'F' then c as int - 'A' as int + 10
    else -1
  }

  /** Reads a numeral, most significant digit first. */
  function ReadNumeral(s: string, base: int): int {
    if s == [] then 0 else base * ReadNumeral(s[..|s| - 1], base) + DigitValue(s[|s| - 1])
  }

  /** Reads an integer as a reader of base-10 text would. */
  function ReadDecimal(s: string): int {
    if s != [] && s[0] == '-' then -ReadNumeral(s[1..], 10) else ReadNumeral(s, 10)
  }

  lemma DigitRead(d: nat)
    requires d < 16
    ensures DigitValue(DigitChar(d)) == d && DigitChar(d) != '-'
    ensures DigitChar(d) == '0' <==> d == 0
  {
  }

  lemma NumeralStep(n: nat, base: nat)
    requires 2 <= base <= 16
    ensures Numeral(n, base) == (if n < base then [] else Numeral(n / base, base)) + [DigitChar(n % base)]
  {
    var tail := if n < base then [] else Reversed(n / base, base);
    assert Reversed(n, base)[1..] == tail;
  }

  lemma ReadStep(s: string, c: char, base: int)
    ensures ReadNumeral(s + [c], base) == base * ReadNumeral(s, base) + DigitValue(c)
  {
    assert (s + [c])[..|s|] == s;
  }

  lemma Quotient(n: nat, base: nat)
    requires 2 <= base
    ensures n == base * (n / base) + n % base
    ensures n >= base ==> 0 < n / base < n
    ensures n < base ==> n % base == n
  {
    if n >= base {
      var q := n / base;
      assert q >= 1;
      assert base * q >= 2 * q;
    }
  }

  /** Reading a numeral gives the number back. */
  lemma {:induction false} NumeralRead(n: nat, base: nat)
    requires 2 <= base <= 16
    ensures ReadNumeral(Numeral(n, base), base) == n
    decreases n
  {
    hide Numeral;
    NumeralStep(n, base);
    DigitRead(n % base);
    Quotient(n, base);
    if n < base {
      ReadStep([], DigitChar(n % base), base);
    } else {
      NumeralRead(n / base, base);
      ReadStep(Numeral(n / base, base), DigitChar(n % base), base);
    }
  }

  /** A numeral has no sign and no leading zero, except that zero is "0". */
  lemma {:induction false} NumeralShape(n: nat, base: nat)
    requires 2 <= base <= 16
    ensures var s := Numeral(n, base);
            s != [] && s[0] != '-' && (n > 0 ==> s[0] != '0') && (n == 0 ==> s == "0")
    decreases n
  {
    hide Numeral;
    NumeralStep(n, base);
    DigitRead(n % base);
    Quotient(n, base);
    if n >= base {
      NumeralShape(n / base, base);
    }
  }

  function Power(base: nat, e: nat): nat {
    if e == 0 then 1 else base * Power(base, e - 1)
  }

  lemma PowerStep(base: nat, k: nat)
    requires k >= 1
    ensures Power(base, k) == base * Power(base, k - 1) && (k == 1 ==> Power(base, k) == base)
  {
  }

  /** A number is below base^k exactly when it has at most k digits. */
  lemma {:induction false} NumeralLength(n: nat, base: nat, k: nat)
    requires 2 <= base <= 16 && k >= 1
    ensures n < Power(base, k) <==> |Numeral(n, base)| <= k
    decreases n
  {
    hide Numeral, Power;
    NumeralStep(n, base);
    Quotient(n, base);
    PowerStep(base, k);
    if n >= base {
      NumeralShape(n / base, base);
      if k > 1 {
        var p := Power(base, k - 1);
        NumeralLength(n / base, base, k - 1);
        DivideBelow(n, base, p);
      }
    } else {
      PowerAtLeast(base, k);
    }
  }

  lemma DivideBelow(n: nat, base: nat, p: nat)
    requires base >= 1
    ensures n < base * p <==> n / base < p
  {
    var q := n / base;
    assert base * q <= n < base * (q + 1);
    if q < p {
      assert base * (q + 1) <= base * p;
    } else {
      assert base * p <= base * q;
    }
  }

  lemma {:induction false} PowerAtLeast(base: nat, k: nat)
    requires base >= 1 && k >= 1
    ensures Power(base, k) >= base
  {
    if k > 1 {
      PowerAtLeast(base, k - 1);
      assert Power(base, k) == base * Power(base, k - 1) >= base * 1;
    }
  }

  /** Reading decimal text gives the integer back, negative or not. */
  lemma DecimalRead(v: int)
    ensures ReadDecimal(Decimal(v)) == v
  {
    var n := if v < 0 then -v else v;
    NumeralRead(n, 10);
    NumeralShape(n, 10);
    if v < 0 {
      assert Decimal(v)[1..] == Numeral(n, 10);
    }
  }

  /** A 64-bit integer, signed or unsigned, takes at most 20 characters, and a 64-bit pointer 16 digits. */
  lemma DecimalFits(v: int)
    requires -0x8000_0000_0000_0000 <= v <= 0xFFFF_FFFF_FFFF_FFFF
    ensures 1 <= |Decimal(v)| <= 20
  {
    if v < 0 {
      Tens(19);
      NumeralLength(-v, 10, 19);
    } else {
      Tens(20);
      NumeralLength(v, 10, 20);
    }
    NumeralShape(if v < 0 then -v else v, 10);
  }

  lemma Tens(k: nat)
    requires k == 19 || k == 20
    ensures Power(10, 19) == 10_000_000_000_000_000_000
    ensures k == 20 ==> Power(10, 20) == 100_000_000_000_000_000_000
  {
    assert Power(10, 5) == 100_000;
    PowerAdd(10, 5, 5);
    PowerAdd(10, 10, 5);
    PowerAdd(10, 15, 4);
    assert Power(10, 4) == 10_000;
  }

  lemma TimesIsAssociative(x: nat, y: nat, z: nat)
    ensures x * (y * z) == x * y * z
  {
  }

  lemma {:induction false} PowerAdd(base: nat, a: nat, b: nat)
    ensures Power(base, a + b) == Power(base, a) * Power(base, b)
    decreases a
  {
    if a > 0 {
      PowerAdd(base, a - 1, b);
      TimesIsAssociative(base, Power(base, a - 1), Power(base, b));
    }
  }

  lemma HexFits(v: nat)
    requires v <= 0xFFFF_FFFF_FFFF_FFFF
    ensures 1 <= |Numeral(v, 16)| <= 16
  {
    assert Power(16, 4) == 0x1_0000;
    PowerAdd(16, 4, 4);
    PowerAdd(16, 8, 8);
    NumeralLength(v, 16, 16);
    NumeralShape(v, 16);
  }
}
