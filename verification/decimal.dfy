/**
 Decimal digit strings: JavaScript's conversion of an integer to a string
 (`n + ''`, the day of month inside a template literal), the reading of such
 a string back into a number, and `slice(-k)` on strings.
 */
module Decimal {

  function Pow10(k: nat): (p: nat)
    ensures p >= 1
  {
    if k == 0 then 1 else 10 * Pow10(k - 1)
  }

  predicate IsDigit(c: char) {
    '0' <= c <= '9'
  }

  predicate IsDigits(s: string) {
    forall i :: 0 <= i < |s| ==> IsDigit(s[i])
  }

  function DigitChar(d: nat): (c: char)
    requires d < 10
    ensures IsDigit(c)
  {
    ('0' as int + d) as char
  }

  function DigitValue(c: char): (d: nat)
    requires IsDigit(c)
    ensures d < 10 && DigitChar(d) == c
  {
    c as int - '0' as int
  }

  /** The shortest decimal rendering of a natural number, most significant digit first. */
  function NatToString(n: nat): (s: string)
    ensures 1 <= |s| && IsDigits(s)
    ensures s[0] == '0' ==> n == 0
  {
    if n < 10 then [DigitChar(n)] else NatToString(n / 10) + [DigitChar(n % 10)]
  }

  /** `String(i)` for an integer: a minus sign before the digits of a negative value. */
  function IntToString(i: int): (s: string)
    ensures 1 <= |s|
    ensures s[0] == '-' <==> i < 0
  {
    if i < 0 then "-" + NatToString(-i) else NatToString(i)
  }

  /** The digits of `String(i)`, after the sign if there is one, read back as the magnitude of `i`. */
  lemma IntToStringRoundTrip(i: int)
    ensures i >= 0 ==> IsDigits(IntToString(i)) && DigitsValue(IntToString(i)) == i
    ensures i < 0 ==> IsDigits(IntToString(i)[1..]) && DigitsValue(IntToString(i)[1..]) == -i
  {
    if i < 0 {
      NatToStringRoundTrip(-i);
      assert IntToString(i)[1..] == NatToString(-i);
    } else {
      NatToStringRoundTrip(i);
    }
  }

  /** The value of a digit string read most significant digit first. */
  function DigitsValue(s: string): nat
    requires IsDigits(s)
  {
    if |s| == 0 then 0 else 10 * DigitsValue(s[..|s| - 1]) + DigitValue(s[|s| - 1])
  }

  /** The last `k` digits of `m`, with leading zeros. */
  function Padded(m: nat, k: nat): (s: string)
    ensures |s| == k && IsDigits(s)
  {
    if k == 0 then [] else Padded(m / 10, k - 1) + [DigitChar(m % 10)]
  }

  /**
   `s.slice(-k)`: the last `k` characters, or all of `s` when it is shorter.
   `slice(-0)` is `slice(0)`, the whole string.
   */
  function Suffix(s: string, k: nat): (r: string)
    ensures k == 0 ==> r == s
    ensures k > 0 ==> |r| == if |s| < k then |s| else k
    ensures r == s[|s| - |r|..]
  {
    if k == 0 || |s| <= k then s else s[|s| - k..]
  }

  lemma DigitsValueSnoc(s: string, c: char)
    requires IsDigits(s) && IsDigit(c)
    ensures IsDigits(s + [c])
    ensures DigitsValue(s + [c]) == 10 * DigitsValue(s) + DigitValue(c)
  {
    assert (s + [c])[..|s + [c]| - 1] == s;
  }

  /** `n / d` and `n % d` are the unique quotient and remainder. */
  lemma DivModUnique(n: int, d: int, q: int, r: int)
    requires d > 0 && n == d * q + r && 0 <= r < d
    ensures n / d == q && n % d == r
  {
    var q', r' := n / d, n % d;
    var e := q - q';
    assert d * q - d * q' == d * e;
    assert d * e == r' - r;
    if e >= 1 {
      assert d * e >= d by { MulAtLeast(d, e); }
    } else if e <= -1 {
      assert d * (-e) >= d by { MulAtLeast(d, -e); }
    }
  }

  lemma MulAtLeast(d: int, e: int)
    requires d > 0 && e >= 1
    ensures d * e >= d
  {
    assert d * e == d * (e - 1) + d;
  }

  /** Splitting the last decimal digit off a number commutes with reduction modulo a power of ten. */
  lemma ModSplit(n: nat, p: nat)
    requires p > 0
    ensures n % (10 * p) == 10 * ((n / 10) % p) + n % 10
    ensures (n % (10 * p)) / 10 == (n / 10) % p
    ensures (n % (10 * p)) % 10 == n % 10
  {
    var q, r := n / 10, n % 10;
    var a, b := q / p, q % p;
    assert n == 10 * q + r;
    assert q == p * a + b;
    assert n == (10 * p) * a + (10 * b + r);
    DivModUnique(n, 10 * p, a, 10 * b + r);
    DivModUnique(10 * b + r, 10, b, r);
  }

  lemma {:induction false} NatToStringRoundTrip(n: nat)
    ensures DigitsValue(NatToString(n)) == n
  {
    if n < 10 {
      assert DigitsValue(NatToString(n)) == 10 * DigitsValue([]) + DigitValue(DigitChar(n));
    } else {
      NatToStringRoundTrip(n / 10);
      DigitsValueSnoc(NatToString(n / 10), DigitChar(n % 10));
    }
  }

  lemma {:induction false} PaddedRoundTrip(m: nat, k: nat)
    ensures DigitsValue(Padded(m, k)) == m % Pow10(k)
  {
    if k == 0 {
    } else {
      PaddedRoundTrip(m / 10, k - 1);
      DigitsValueSnoc(Padded(m / 10, k - 1), DigitChar(m % 10));
      ModSplit(m, Pow10(k - 1));
    }
  }

  /** For `k >= 1`, a number has more than `k` digits exactly when it reaches `10^k` ("0" has one digit). */
  lemma {:induction false} NatToStringLength(n: nat, k: nat)
    requires k >= 1
    ensures |NatToString(n)| > k <==> n >= Pow10(k)
  {
    if n >= 10 {
      if k > 1 {
        NatToStringLength(n / 10, k - 1);
        DivModUnique(n, 10, n / 10, n % 10);
        assert n / 10 >= Pow10(k - 1) <==> n >= 10 * Pow10(k - 1);
      }
    } else {
      assert Pow10(k) >= 10 by { assert Pow10(k) == 10 * Pow10(k - 1); }
    }
  }

  /** The last `k` characters of a number's digits are its value modulo `10^k`, zero padded. */
  lemma {:induction false} NatToStringSuffix(n: nat, k: nat)
    requires k <= |NatToString(n)|
    ensures NatToString(n)[|NatToString(n)| - k..] == Padded(n % Pow10(k), k)
  {
    var s := NatToString(n);
    if k == 0 {
    } else if n < 10 {
      assert n % 10 == n && n / 10 == 0;
      assert Padded(n % 10, 1) == [] + [DigitChar(n)];
    } else {
      var a := NatToString(n / 10);
      assert s == a + [DigitChar(n % 10)];
      NatToStringSuffix(n / 10, k - 1);
      assert s[|s| - k..] == a[|a| - (k - 1)..] + [DigitChar(n % 10)];
      ModSplit(n, Pow10(k - 1));
    }
  }

  /** Zero-padded renderings of numbers below `10^k` are distinct. */
  lemma PaddedInjective(a: nat, b: nat, k: nat)
    requires a < Pow10(k) && b < Pow10(k)
    ensures Padded(a, k) == Padded(b, k) <==> a == b
  {
    if Padded(a, k) == Padded(b, k) {
      PaddedRoundTrip(a, k);
      PaddedRoundTrip(b, k);
      DivModUnique(a, Pow10(k), 0, a);
      DivModUnique(b, Pow10(k), 0, b);
    }
  }
}
