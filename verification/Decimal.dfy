/** Digit strings and the numbers they spell: `BigInt(text)` one way, `toString()`
    the other. */
module Decimal {
  import opened Text

  function Pow10(n: nat): (p: nat)
    ensures p > 0
  {
    if n == 0 then 1 else 10 * Pow10(n - 1)
  }

  lemma {:induction false} Pow10Add(a: nat, b: nat)
    ensures Pow10(a + b) == Pow10(a) * Pow10(b)
  {
    if a > 0 {
      Pow10Add(a - 1, b);
      assert Pow10(a + b) == 10 * Pow10(a + b - 1);
    }
  }

  function DigitOf(c: char): (d: nat)
    ensures d <= 9
  {
    if IsDigit(c) then c as int - '0' as int else 0
  }

  /** `BigInt(s)` on a string of digits. */
  function ToNat(s: string): nat {
    if s == "" then 0 else 10 * ToNat(s[..|s| - 1]) + DigitOf(s[|s| - 1])
  }

  lemma {:induction false} ToNatConcat(a: string, b: string)
    ensures ToNat(a + b) == ToNat(a) * Pow10(|b|) + ToNat(b)
  {
    if b == "" {
      assert a + b == a;
    } else {
      var b' := b[..|b| - 1];
      ToNatConcat(a, b');
      ToNatLast(b);
      ToNatLast(a + b);
      TimesTen(ToNat(a), Pow10(|b'|));
      hide ToNat;
      assert (a + b)[..|a + b| - 1] == a + b';
    }
  }

  lemma ToNatLast(s: string)
    requires s != ""
    ensures ToNat(s) == 10 * ToNat(s[..|s| - 1]) + DigitOf(s[|s| - 1])
  {
  }

  lemma TimesTen(n: int, p: int)
    ensures n * (10 * p) == 10 * (n * p)
  {
  }

  lemma ToNatOne(c: char)
    ensures ToNat([c]) == DigitOf(c)
  {
    assert [c][..0] == "";
  }

  lemma {:induction false} ToNatZeros(s: string)
    requires forall i :: 0 <= i < |s| ==> s[i] == '0'
    ensures ToNat(s) == 0
  {
    if s != "" {
      ToNatZeros(s[..|s| - 1]);
    }
  }

  lemma {:induction false} ToNatBound(s: string)
    ensures ToNat(s) < Pow10(|s|)
  {
    if s != "" {
      ToNatBound(s[..|s| - 1]);
    }
  }

  /** Leading zeros change the spelling and not the number. */
  lemma StripZerosValue(s: string)
    ensures ToNat(StripZeros(s)) == ToNat(s)
  {
    var n := StripZerosPrefix(s);
    ToNatConcat(Repeat('0', n), StripZeros(s));
    ToNatZeros(Repeat('0', n));
  }

  /** A digit string whose first digit is not zero is at least the power of ten of
      its length. */
  lemma {:induction false} ToNatLower(s: string)
    requires AllDigits(s) && s != "" && s[0] != '0'
    ensures ToNat(s) >= Pow10(|s| - 1)
  {
    var t := s[..|s| - 1];
    if t != "" {
      ToNatLower(t);
    } else {
      assert s[|s| - 1] == s[0];
    }
  }

  lemma {:induction false} ToNatInjective(a: string, b: string)
    requires AllDigits(a) && AllDigits(b) && |a| == |b|
    requires ToNat(a) == ToNat(b)
    ensures a == b
  {
    if a != "" {
      var n := |a| - 1;
      assert DigitOf(a[n]) == DigitOf(b[n]) by {
        assert ToNat(a) % 10 == DigitOf(a[n]);
        assert ToNat(b) % 10 == DigitOf(b[n]);
      }
      assert IsDigit(a[n]) && IsDigit(b[n]);
      ToNatInjective(a[..n], b[..n]);
      assert a == a[..n] + [a[n]] && b == b[..n] + [b[n]];
    }
  }

  function DigitChar(d: nat): (c: char)
    requires d <= 9
    ensures IsDigit(c) && DigitOf(c) == d
  {
    (d + '0' as int) as char
  }

  /** `n.toString()`. */
  function NatText(n: nat): (s: string)
    ensures s != "" && AllDigits(s)
    ensures |s| > 1 ==> s[0] != '0'
    ensures ToNat(s) == n
  {
    if n < 10 then
      ToNatOne(DigitChar(n));
      [DigitChar(n)]
    else
      var s := NatText(n / 10) + [DigitChar(n % 10)];
      assert s[..|s| - 1] == NatText(n / 10);
      assert ToNat(NatText(n / 10)) == n / 10;
      assert NatText(n / 10)[0] != '0' by {
        if |NatText(n / 10)| == 1 {
          ToNatOne(NatText(n / 10)[0]);
          assert NatText(n / 10) == [NatText(n / 10)[0]];
        }
      }
      s
  }

  // ------------------------------------------------------ arithmetic, in one place

  lemma Distribute(a: int, b: int, c: int)
    ensures (a + b) * c == a * c + b * c
  {
  }

  lemma Associate(a: int, b: int, c: int)
    ensures (a * b) * c == a * (b * c)
  {
  }

  lemma MulMonotone(a: int, b: int, c: int)
    requires a <= b && 0 <= c
    ensures a * c <= b * c
  {
  }

  lemma MulGrows(x: int, m: int)
    requires x != 0 && m >= 0
    ensures x * m >= m || x * m <= -m
  {
    if x > 0 {
      MulMonotone(1, x, m);
    } else {
      MulMonotone(x, -1, m);
    }
  }

  /** Quotient and remainder are unique. */
  lemma Euclid(q: int, m: nat, r: nat)
    requires m > 0 && r < m
    ensures (q * m + r) / m == q && (q * m + r) % m == r
  {
    var n := q * m + r;
    var x := n / m - q;
    assert n == n / m * m + n % m;
    Distribute(n / m, -q, m);
    assert x * m == r - n % m;
    if x != 0 {
      MulGrows(x, m);
      assert false;
    }
  }

  lemma MulCancel(a: int, b: int, c: nat)
    requires c > 0 && a * c == b * c
    ensures a == b
  {
    Distribute(a, -b, c);
    if a != b {
      MulGrows(a - b, c);
      assert false;
    }
  }

  lemma MulStrict(a: int, b: int, c: nat)
    requires c > 0
    ensures a < b <==> a * c < b * c
  {
    if a < b {
      MulMonotone(a + 1, b, c);
      Distribute(a, 1, c);
    } else {
      MulMonotone(b, a, c);
    }
  }

  /** Dividing out the last of the digits that a power of ten carries. */
  lemma DropDigit(head: nat, d: nat, low: nat)
    requires d <= 9 && low > 0
    ensures ((10 * head + d) * low) / (10 * low) == head
    ensures ((10 * head + d) * low) % (10 * low) == d * low
  {
    Distribute(10 * head, d, low);
    Associate(head, 10, low);
    MulStrict(d, 10, low);
    MulMonotone(0, d, low);
    Euclid(head, 10 * low, d * low);
  }
}
