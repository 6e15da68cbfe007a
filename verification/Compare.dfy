/** "Exceeds your balance" appears when it is true and only then: `minorOf` and
    `exceedsBalance` against the real number a decimal string names. */
module Compare {
  import opened Text
  import opened Decimal
  import opened AmountEntry
  import opened Keypad

  /** The digits of a decimal string read as one number, and how many of them are
      decimals. */
  function DigitsOf(amount: string): nat {
    ToNat(Before(Trim(amount), '.') + After(Trim(amount), '.'))
  }

  function Places(amount: string): nat {
    |After(Trim(amount), '.')|
  }

  ghost function Ratio(n: nat, d: nat): real
    requires d > 0
  {
    n as real / d as real
  }

  /** The number a decimal string names, with no currency and no scale. */
  ghost function Value(amount: string): real {
    Ratio(DigitsOf(amount), Pow10(Places(amount)))
  }

  /** The balance a spendable string names, its sign read as the client reads it. */
  ghost function Balance(spendable: string): real {
    var v := Value(DropSign(spendable));
    if IsNegative(spendable) then -v else v
  }

  lemma ValueIsRatio(amount: string)
    ensures Value(amount) == Ratio(DigitsOf(amount), Pow10(Places(amount)))
  {
  }

  predicate Covers(scale: nat, amount: string) {
    IsDecimal(Trim(amount)) && Places(amount) <= scale
  }

  lemma CoversMore(amount: string, scale: nat, k: nat)
    requires Covers(scale, amount)
    ensures Covers(scale + k, amount)
  {
  }

  lemma TrimTwice(s: string)
    ensures Trim(Trim(s)) == Trim(s)
  {
    TrimTight(Trim(s));
  }

  lemma MinorOfTrimmed(amount: string, scale: nat)
    ensures Trim(Trim(amount)) == Trim(amount)
    ensures MinorOf(amount, scale) == MinorOf(Trim(amount), scale)
    ensures !IsDecimal(Trim(amount)) ==> MinorOf(amount, scale) == None
  {
    TrimTwice(amount);
  }

  /** `minorOf` is defined exactly on the decimals its scale covers, and pads their
      digits with the decimals they lack. */
  lemma MinorForm(amount: string, scale: nat)
    ensures MinorOf(amount, scale).Some? <==> Covers(scale, amount)
    ensures Covers(scale, amount) ==>
              && Places(amount) <= scale
              && MinorOf(amount, scale).value == DigitsOf(amount) * Pow10(scale - Places(amount))
  {
    var t := Trim(amount);
    MinorOfTrimmed(amount, scale);
    hide MinorOf;
    hide Trim;
    if IsDecimal(t) {
      MinorOfDecimal(t, scale);
      if Places(amount) <= scale {
        JoinedDigits(Before(t, '.'), After(t, '.'), scale);
      }
    }
  }

  lemma ScaledUp(n: nat, k: nat, low: nat, m: nat, p: nat)
    requires k > 0 && p == k * low && m == n * low
    ensures m as real == Ratio(n, k) * p as real
  {
    var q := n as real / k as real;
    assert q * k as real == n as real;
    assert p as real == k as real * low as real;
    assert q * (k as real * low as real) == (q * k as real) * low as real;
  }

  /** Where it is defined, `minorOf` is the value in minor units. */
  lemma MinorIsValue(amount: string, scale: nat)
    requires Covers(scale, amount)
    ensures MinorOf(amount, scale).Some?
    ensures MinorOf(amount, scale).value as real == Value(amount) * Pow10(scale) as real
  {
    hide *;
    var n, k := DigitsOf(amount), Places(amount);
    MinorForm(amount, scale);
    ValueIsRatio(amount);
    Pow10Add(k, scale - k);
    ScaledUp(n, Pow10(k), Pow10(scale - k), MinorOf(amount, scale).value, Pow10(scale));
  }

  lemma JoinedDigits(whole: string, frac: string, scale: nat)
    requires |frac| <= scale
    ensures MinorValue(whole, frac, scale) == ToNat(whole + frac) * Pow10(scale - |frac|)
  {
    var w, p, low := ToNat(whole), Pow10(|frac|), Pow10(scale - |frac|);
    ToNatConcat(whole, frac);
    Pow10Add(|frac|, scale - |frac|);
    Distribute(w * p, ToNat(frac), low);
    Associate(w, p, low);
  }

  /** A larger scale multiplies by the power of ten it adds. */
  lemma MinorScales(amount: string, scale: nat, k: nat)
    requires MinorOf(amount, scale).Some?
    ensures MinorOf(amount, scale + k) == Some(MinorOf(amount, scale).value * Pow10(k))
  {
    hide *;
    MinorForm(amount, scale);
    CoversMore(amount, scale, k);
    MinorForm(amount, scale + k);
    var places := Places(amount);
    Pow10Add(scale - places, k);
    assert scale - places + k == scale + k - places;
    Associate(DigitsOf(amount), Pow10(scale - places), Pow10(k));
  }

  lemma MulPositive(x: real, r: real)
    requires r > 0.0
    ensures x > 0.0 <==> x * r > 0.0
  {
    if x <= 0.0 {
      assert (0.0 - x) * r >= 0.0;
      assert (0.0 - x) * r == 0.0 - x * r;
    }
  }

  lemma CompareScaled(a: real, b: real, p: nat, m: nat, n: nat)
    requires p > 0 && m as real == a * p as real && n as real == b * p as real
    ensures m > n <==> a > b
    ensures m > 0 <==> a > 0.0
  {
    var r := p as real;
    MulPositive(a - b, r);
    assert (a - b) * r == a * r - b * r;
    MulPositive(a, r);
  }

  /** When the answer is a claim. */
  lemma ExceedsIsDefined(amount: string, spendable: Option<string>, scale: nat)
    ensures ExceedsBalance(amount, spendable, scale).Some?
        <==> spendable.Some? && Covers(scale, amount) && Covers(scale, DropSign(spendable.value))
  {
    MinorForm(amount, scale);
    if spendable.Some? {
      MinorForm(DropSign(spendable.value), scale);
    }
  }

  /** Exactly when a claim is made and exactly what it says: the amount is more than
      the balance, a negative balance counting as nothing held. */
  lemma ExceedsIsExact(amount: string, spendable: Option<string>, scale: nat)
    ensures ExceedsBalance(amount, spendable, scale)
         == if spendable.Some? && Covers(scale, amount) && Covers(scale, DropSign(spendable.value))
            then Some(Value(amount) > Held(spendable.value))
            else None
  {
    ExceedsIsDefined(amount, spendable, scale);
    if ExceedsBalance(amount, spendable, scale).Some? {
      ClaimIsComparison(amount, spendable.value, scale);
    }
  }

  /** What can be spent: nothing, on a negative balance. */
  ghost function Held(spendable: string): real {
    if Balance(spendable) < 0.0 then 0.0 else Balance(spendable)
  }

  lemma ClaimIsComparison(amount: string, spendable: string, scale: nat)
    requires Covers(scale, amount) && Covers(scale, DropSign(spendable))
    ensures ExceedsBalance(amount, Some(spendable), scale) == Some(Value(amount) > Held(spendable))
  {
    hide MinorOf;
    hide Value;
    hide Covers;
    hide IsNegative;
    var held := DropSign(spendable);
    MinorIsValue(amount, scale);
    MinorIsValue(held, scale);
    CompareScaled(Value(amount), Value(held), Pow10(scale),
                  MinorOf(amount, scale).value, MinorOf(held, scale).value);
    NotNegative(held);
  }

  lemma NotNegative(amount: string)
    ensures Value(amount) >= 0.0
  {
    NonNegativeRatio(DigitsOf(amount), Pow10(Places(amount)));
  }

  lemma NonNegativeRatio(n: nat, p: nat)
    requires p > 0
    ensures Ratio(n, p) >= 0.0
  {
  }

  /** The claim differs from plain comparison only for a zero amount against a
      negative balance. */
  lemma ExceedsVersusComparison(amount: string, spendable: string, scale: nat)
    requires Covers(scale, amount) && Covers(scale, DropSign(spendable))
    ensures ExceedsBalance(amount, Some(spendable), scale) == Some(Value(amount) > Balance(spendable))
        <==> !(Value(amount) == 0.0 && Balance(spendable) < 0.0)
  {
    ClaimIsComparison(amount, spendable, scale);
    NotNegative(amount);
  }

  /** A claim made at one scale is made at every larger one. */
  lemma ExceedsAtEveryScale(amount: string, spendable: Option<string>, scale: nat, k: nat)
    requires ExceedsBalance(amount, spendable, scale).Some?
    ensures ExceedsBalance(amount, spendable, scale + k) == ExceedsBalance(amount, spendable, scale)
  {
    hide *;
    ExceedsIsDefined(amount, spendable, scale);
    CoversMore(amount, scale, k);
    CoversMore(DropSign(spendable.value), scale, k);
    ExceedsIsDefined(amount, spendable, scale + k);
    ExceedsIsExact(amount, spendable, scale);
    ExceedsIsExact(amount, spendable, scale + k);
  }

  // --------------------------------------------------------------- in plain characters

  /** Digits, and at most one point among them that does not come first. */
  lemma DecimalExactly(s: string)
    ensures IsDecimal(s)
        <==> || (s != "" && forall k :: 0 <= k < |s| ==> '0' <= s[k] <= '9')
             || (exists i :: 0 < i < |s| && s[i] == '.' && forall k :: 0 <= k < |s| && k != i ==> '0' <= s[k] <= '9')
  {
    if '.' in s {
      PointedDecimal(s);
      var i := IndexOf(s, '.');
      hide IsDecimal;
      assert s[i] == '.';
    } else {
      CutNone(s, '.');
      hide Before;
      hide After;
    }
  }

  lemma PointedDecimal(s: string)
    requires '.' in s
    ensures var i := IndexOf(s, '.');
            IsDecimal(s) <==> 0 < i < |s| && forall k :: 0 <= k < |s| && k != i ==> '0' <= s[k] <= '9'
  {
    var i := IndexOf(s, '.');
    assert Before(s, '.') == s[..i] && After(s, '.') == s[i + 1..];
    PiecesAreDigits(s, i);
    hide Before;
    hide After;
    hide AllDigits;
  }

  lemma PiecesAreDigits(s: string, i: nat)
    requires i < |s|
    ensures AllDigits(s[..i]) && AllDigits(s[i + 1..]) <==> forall k :: 0 <= k < |s| && k != i ==> '0' <= s[k] <= '9'
  {
    var a, b := s[..i], s[i + 1..];
    assert forall k :: 0 <= k < i ==> a[k] == s[k];
    assert forall k :: 0 <= k < |b| ==> b[k] == s[i + 1 + k];
    assert forall k :: i < k < |s| ==> s[k] == b[k - i - 1];
  }

  predicate Tight(s: string) {
    s != "" ==> !IsSpace(s[0]) && !IsSpace(s[|s| - 1])
  }

  lemma DecimalStarts(d: string)
    requires Tight(d) && IsDecimal(Trim(d))
    ensures Trim(d) == d && d != "" && IsDigit(d[0]) && Trim("-" + d) == "-" + d
  {
    TrimTight(d);
    assert d[0] == Before(d, '.')[0];
    assert ("-" + d)[|d|] == d[|d| - 1];
    TrimTight("-" + d);
  }

  /** A decimal with a minus before it is a balance with nothing to spend: any amount
      above zero exceeds it. A decimal without one is exceeded by any larger amount. */
  lemma SignedBalance(amount: string, d: string, scale: nat)
    requires Covers(scale, amount) && Covers(scale, d) && Tight(d)
    ensures ExceedsBalance(amount, Some("-" + d), scale) == Some(Value(amount) > 0.0)
    ensures ExceedsBalance(amount, Some(d), scale) == Some(Value(amount) > Value(d))
  {
    SignsRead(d) by { CoveredIsDecimal(scale, d); }
    hide *;
    NotNegative(d);
    ClaimIsComparison(amount, "-" + d, scale);
    ClaimIsComparison(amount, d, scale);
    HeldIs("-" + d, d);
    HeldIs(d, d);
  }

  lemma CoveredIsDecimal(scale: nat, d: string)
    requires Covers(scale, d)
    ensures IsDecimal(Trim(d))
  {
  }

  lemma SignsRead(d: string)
    requires Tight(d) && IsDecimal(Trim(d))
    ensures DropSign("-" + d) == d && DropSign(d) == d
    ensures IsNegative("-" + d) && !IsNegative(d)
  {
    hide *;
    DecimalStarts(d);
    NegativeIs("-" + d);
    NegativeIs(d);
    DropSignIs(d);
  }

  lemma NegativeIs(s: string)
    requires Trim(s) == s
    ensures IsNegative(s) <==> s != "" && s[0] == '-'
  {
    hide Trim;
  }

  lemma DropSignIs(d: string)
    requires d != "" && IsDigit(d[0])
    ensures DropSign("-" + d) == d && DropSign(d) == d && d[0] != '-'
  {
    assert ("-" + d)[1..] == d;
  }

  lemma HeldIs(spendable: string, d: string)
    requires DropSign(spendable) == d && Value(d) >= 0.0
    ensures Held(spendable) == if IsNegative(spendable) then 0.0 else Value(d)
  {
    hide Value;
    hide DropSign;
    hide IsNegative;
  }

  /** No balance yet, or one that is not such a decimal: no claim is made, whatever the
      amount. */
  lemma NoBalanceNoClaim(amount: string, spendable: string, scale: nat)
    ensures ExceedsBalance(amount, None, scale) == None
    ensures !Covers(scale, amount) ==> ExceedsBalance(amount, Some(spendable), scale) == None
    ensures !Covers(scale, if spendable != "" && spendable[0] == '-' then spendable[1..] else spendable) ==>
              ExceedsBalance(amount, Some(spendable), scale) == None
  {
    ExceedsIsDefined(amount, Some(spendable), scale);
    hide Covers;
    hide ExceedsBalance;
    assert ExceedsBalance(amount, None, scale) == None by { NoneIsNone(amount, scale); }
  }

  lemma NoneIsNone(amount: string, scale: nat)
    ensures ExceedsBalance(amount, None, scale) == None
  {
  }

  /** Digits, and at most one point among them that comes neither first nor last. */
  predicate IsFigure(u: string) {
    || (u != "" && forall k :: 0 <= k < |u| ==> '0' <= u[k] <= '9')
    || (exists i :: 0 < i < |u| - 1 && u[i] == '.' && forall k :: 0 <= k < |u| && k != i ==> '0' <= u[k] <= '9')
  }

  function WithoutPoint(t: string): string {
    if t != "" && t[|t| - 1] == '.' then t[..|t| - 1] else t
  }

  /** For every string: what is drawn is the amount without spaces around it and without
      a point at its end, if that is a figure, and otherwise `0`. */
  lemma FigureExactly(typed: string)
    ensures var u := WithoutPoint(Trim(typed));
            FigureOf(typed) == if IsFigure(u) then u else "0"
    ensures IsFigure(FigureOf(typed))
  {
    var u := WithoutPoint(Trim(typed));
    hide Trim;
    FigureIsDecimal(u);
    assert IsFigure("0");
    hide IsFigure;
  }

  lemma FigureIsDecimal(u: string)
    ensures IsFigure(u) <==> IsDecimal(u) && ('.' in u ==> After(u, '.') != "")
  {
    if '.' in u {
      PointedDecimal(u);
      PointedFigure(u);
      hide *;
    } else {
      CutNone(u, '.');
      hide Before;
      hide After;
    }
  }

  lemma PointedFigure(u: string)
    requires '.' in u
    ensures var i := IndexOf(u, '.');
            && (IsFigure(u) <==> 0 < i < |u| - 1 && forall k :: 0 <= k < |u| && k != i ==> '0' <= u[k] <= '9')
            && (After(u, '.') == "" <==> i == |u| - 1)
  {
    AfterLength(u);
    hide After;
    OnePoint(u, IndexOf(u, '.'));
  }

  lemma AfterLength(u: string)
    requires '.' in u
    ensures |After(u, '.')| == |u| - IndexOf(u, '.') - 1
  {
  }

  lemma OnePoint(u: string, i: nat)
    requires i < |u| && u[i] == '.'
    ensures IsFigure(u) <==> 0 < i < |u| - 1 && forall k :: 0 <= k < |u| && k != i ==> '0' <= u[k] <= '9'
  {
    if j :| 0 < j < |u| - 1 && u[j] == '.' && forall k :: 0 <= k < |u| && k != j ==> '0' <= u[k] <= '9' {
      assert j == i;
    }
  }
}
