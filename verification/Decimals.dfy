/** Decimal numerals: printed without leading zeros, read back digit by digit. */
module Decimals {

  predicate IsDigit(c: char) {
    '0' <= c <= '9'
  }

  function Digit(d: nat): (c: char)
    requires d < 10
    ensures IsDigit(c)
  {
    '0' + d as char
  }

  function DigitValue(c: char): (d: nat)
    requires IsDigit(c)
    ensures d < 10 && Digit(d) == c
  {
    (c - '0') as int
  }

  lemma DigitsInOrder(d: nat)
    requires d < 10
    ensures Digit(d) == "0123456789"[d] && DigitValue("0123456789"[d]) == d
  {
  }

  predicate AllDigits(s: string) {
    forall i | 0 <= i < |s| :: IsDigit(s[i])
  }

  /** `str(n)`. */
  function Decimal(n: nat): (s: string)
    ensures s != "" && AllDigits(s)
  {
    if n < 10 then [Digit(n)] else Decimal(n / 10) + [Digit(n % 10)]
  }

  /** `int(s)` on a run of digits. */
  function Value(s: string): nat
    requires AllDigits(s)
  {
    if s == "" then 0 else 10 * Value(s[..|s| - 1]) + DigitValue(s[|s| - 1])
  }

  lemma {:induction false} ValueOfDecimal(n: nat)
    ensures Value(Decimal(n)) == n
    ensures n > 0 ==> Decimal(n)[0] != '0'
  {
    if n >= 10 {
      ValueOfDecimal(n / 10);
      assert Decimal(n)[..|Decimal(n)| - 1] == Decimal(n / 10);
    }
  }

  /** A numeral without a leading zero is the one its value prints. */
  lemma {:induction false} DecimalOfValue(s: string)
    requires s != "" && AllDigits(s) && s[0] != '0'
    ensures Value(s) > 0 && Decimal(Value(s)) == s
  {
    if |s| > 1 {
      var init := s[..|s| - 1];
      DecimalOfValue(init);
      var n := Value(s);
      assert n / 10 == Value(init) && n % 10 == DigitValue(s[|s| - 1]);
      assert s == init + [s[|s| - 1]];
    } else {
      assert s[..0] == "";
      assert s == [Digit(DigitValue(s[0]))];
    }
  }

  /** The `width` lowest digits of `n`, zeros kept. */
  function Padded(n: nat, width: nat): (s: string)
    ensures |s| == width && AllDigits(s)
    decreases width
  {
    if width == 0 then "" else Padded(n / 10, width - 1) + [Digit(n % 10)]
  }

  function Power(e: nat): (p: nat)
    ensures p > 0
  {
    if e == 0 then 1 else 10 * Power(e - 1)
  }

  lemma {:induction false} PaddedDetermines(m: nat, n: nat, width: nat)
    requires m < Power(width) && n < Power(width) && Padded(m, width) == Padded(n, width)
    ensures m == n
    decreases width
  {
    if width > 0 {
      var p, q := Padded(m, width), Padded(n, width);
      assert Padded(m / 10, width - 1) == p[..width - 1] == q[..width - 1] == Padded(n / 10, width - 1);
      assert Digit(m % 10) == p[width - 1] == q[width - 1] == Digit(n % 10);
      assert DigitValue(Digit(m % 10)) == DigitValue(Digit(n % 10));
      PaddedDetermines(m / 10, n / 10, width - 1);
    }
  }

  /** The digits say the number. */
  lemma {:induction false} ValueOfPadded(n: nat, width: nat)
    requires n < Power(width)
    ensures Value(Padded(n, width)) == n
    decreases width
  {
    if width > 0 {
      ValueOfPadded(n / 10, width - 1);
      assert Padded(n, width)[..width - 1] == Padded(n / 10, width - 1);
      assert DigitValue(Digit(n % 10)) == n % 10;
    }
  }

  /** Runs of one length that say one number are alike. */
  lemma {:induction false} ValueDetermines(s: string, t: string)
    requires AllDigits(s) && AllDigits(t) && |s| == |t| && Value(s) == Value(t)
    ensures s == t
    decreases |s|
  {
    if s != "" {
      var k := |s| - 1;
      assert DigitValue(s[k]) == DigitValue(t[k]);
      ValueDetermines(s[..k], t[..k]);
      assert s == s[..k] + [s[k]] && t == t[..k] + [t[k]];
    }
  }

  /** `s.rstrip("0")`. */
  function Trimmed(s: string): (t: string)
    ensures t <= s && (t != "" ==> t[|t| - 1] != '0')
  {
    if s != "" && s[|s| - 1] == '0' then Trimmed(s[..|s| - 1]) else s
  }

  lemma {:induction false} TrimmedZeros(s: string)
    ensures forall i | |Trimmed(s)| <= i < |s| :: s[i] == '0'
  {
    if s != "" && s[|s| - 1] == '0' {
      TrimmedZeros(s[..|s| - 1]);
    }
  }

  /** Strings of one length that trim alike are alike. */
  lemma TrimmedDetermines(s: string, t: string)
    requires |s| == |t| && Trimmed(s) == Trimmed(t)
    ensures s == t
  {
    TrimmedZeros(s);
    TrimmedZeros(t);
    forall i | 0 <= i < |s|
      ensures s[i] == t[i]
    {
      if i < |Trimmed(s)| {
        assert Trimmed(s)[i] == Trimmed(t)[i];
      }
    }
  }
}
