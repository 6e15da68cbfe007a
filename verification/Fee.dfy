/** The fee shown: a ceiling, computed in minor units and printed back as a decimal
    of the currency. */
module Fee {
  import opened Text
  import opened Decimal
  import opened AmountEntry
  import opened Keypad

  // ------------------------------------------------------------------ the ceiling

  /** The fee is the least whole number of minor units that covers the rate. */
  lemma FeeIsCeiling(typed: nat, basisPoints: nat)
    ensures var f := FeeMinor(typed, basisPoints);
            typed * basisPoints <= 10000 * f < typed * basisPoints + 10000
  {
  }

  lemma FeeIsLeast(typed: nat, basisPoints: nat, f: nat)
    requires 10000 * f >= typed * basisPoints
    ensures FeeMinor(typed, basisPoints) <= f
  {
    FeeIsCeiling(typed, basisPoints);
  }

  /** A larger amount or a higher rate never costs less. */
  lemma FeeMonotone(t1: nat, t2: nat, r1: nat, r2: nat)
    requires t1 <= t2 && r1 <= r2
    ensures FeeMinor(t1, r1) <= FeeMinor(t2, r2)
  {
    FeeIsCeiling(t2, r2);
    MulMonotone(t1, t2, r1);
    MulMonotone(r1, r2, t2);
    FeeIsLeast(t1, r1, FeeMinor(t2, r2));
  }

  /** At a rate of at most the whole, the fee is at most the amount. */
  lemma FeeWithinAmount(typed: nat, basisPoints: nat)
    requires basisPoints <= 10000
    ensures FeeMinor(typed, basisPoints) <= typed
  {
    MulMonotone(basisPoints, 10000, typed);
    FeeIsLeast(typed, basisPoints, typed);
  }

  function Sum(parts: seq<nat>): nat {
    if parts == [] then 0 else parts[0] + Sum(parts[1..])
  }

  function Fees(parts: seq<nat>, basisPoints: nat): nat {
    if parts == [] then 0 else FeeMinor(parts[0], basisPoints) + Fees(parts[1..], basisPoints)
  }

  /** Splitting an amount never saves a fee, and costs less than one minor unit for
      each extra part. */
  lemma {:induction false} FeeOfSplit(parts: seq<nat>, basisPoints: nat)
    requires parts != []
    ensures FeeMinor(Sum(parts), basisPoints) <= Fees(parts, basisPoints)
         <= FeeMinor(Sum(parts), basisPoints) + |parts| - 1
  {
    var a, b := parts[0], Sum(parts[1..]);
    if |parts| == 1 {
      assert parts[1..] == [];
    } else {
      FeeOfSplit(parts[1..], basisPoints);
      FeeOfTwo(a, b, basisPoints);
    }
  }

  lemma FeeOfTwo(a: nat, b: nat, basisPoints: nat)
    ensures FeeMinor(a + b, basisPoints) <= FeeMinor(a, basisPoints) + FeeMinor(b, basisPoints)
         <= FeeMinor(a + b, basisPoints) + 1
  {
    FeeIsCeiling(a, basisPoints);
    FeeIsCeiling(b, basisPoints);
    FeeIsCeiling(a + b, basisPoints);
    Distribute(a, b, basisPoints);
  }

  // ------------------------------------------------------------------ the printing

  /** A decimal with exactly the currency's decimals: no point at all when it has
      none. */
  predicate HasDecimals(s: string, scale: nat) {
    IsDecimal(s) && |After(s, '.')| == scale && ('.' in s <==> scale > 0)
  }

  /** Printing minor units and reading them back is the identity. */
  lemma MajorTextReadsBack(minor: nat, scale: nat)
    ensures HasDecimals(MajorText(minor, scale), scale)
    ensures MinorOf(MajorText(minor, scale), scale) == Some(minor)
  {
    hide ToNat;
    hide NatText;
    hide PadStart;
    hide MinorOf;
    hide HasDecimals;
    PaddedDigits(minor, scale + 1);
    var text := PadStart(NatText(minor), scale + 1);
    if scale == 0 {
      WholeReadsBack(text);
    } else {
      var whole, frac := text[..|text| - scale], text[|text| - scale..];
      assert whole + frac == text;
      PartsReadBack(whole, frac);
    }
  }

  lemma PaddedDigits(minor: nat, width: nat)
    ensures AllDigits(PadStart(NatText(minor), width))
    ensures ToNat(PadStart(NatText(minor), width)) == minor
  {
    hide ToNat;
    hide NatText;
    var digits := NatText(minor);
    var zeros := Repeat('0', if |digits| < width then width - |digits| else 0);
    ToNatConcat(zeros, digits);
    ToNatZeros(zeros);
  }

  lemma WholeReadsBack(whole: string)
    requires AllDigits(whole) && whole != ""
    ensures HasDecimals(whole, 0) && MinorOf(whole, 0) == Some(ToNat(whole))
  {
    DigitsOnly(whole);
    TrimTight(whole);
    hide Trim;
    hide MinorOf;
    hide Before;
    hide After;
    MinorOfDecimal(whole, 0);
    WholeOnly(whole, 0);
    assert Pow10(0) == 1;
  }

  lemma PartsReadBack(whole: string, frac: string)
    requires AllDigits(whole) && AllDigits(frac) && whole != "" && frac != ""
    ensures HasDecimals(whole + "." + frac, |frac|)
    ensures MinorOf(whole + "." + frac, |frac|) == Some(ToNat(whole + frac))
  {
    hide *;
    PointedIsDecimal(whole, frac);
    MinorOfDecimal(whole + "." + frac, |frac|);
    FullValue(whole, frac);
  }

  lemma FullValue(whole: string, frac: string)
    ensures MinorValue(whole, frac, |frac|) == ToNat(whole + frac)
  {
    hide ToNat;
    ToNatConcat(whole, frac);
    assert Pow10(0) == 1;
  }

  lemma PointedIsDecimal(whole: string, frac: string)
    requires AllDigits(whole) && AllDigits(frac) && whole != "" && frac != ""
    ensures HasDecimals(whole + "." + frac, |frac|) && IsDecimal(whole + "." + frac)
    ensures Trim(whole + "." + frac) == whole + "." + frac
    ensures Before(whole + "." + frac, '.') == whole && After(whole + "." + frac, '.') == frac
  {
    var s := whole + "." + frac;
    CutAt(whole, '.', frac);
    assert s[|whole|] == '.';
    assert s[0] == whole[0] && s[|s| - 1] == frac[|frac| - 1];
    TrimTight(s);
  }

  /** For every amount string, every exponent and every rate, the fee is printed: a
      decimal with the currency's decimals that reads back as the ceiling of the
      amount, truncated to those decimals, times the truncated rate. */
  lemma FeePrintedExactly(amount: string, basisPoints: real, scale: nat)
    ensures HasDecimals(FeeOn(amount, basisPoints, scale), scale)
    ensures MinorOf(FeeOn(amount, basisPoints, scale), scale)
         == Some(if basisPoints <= 0.0 then 0 else FeeMinor(TypedMinor(amount, scale), basisPoints.Floor))
  {
    hide TypedMinor;
    hide HasDecimals;
    hide MinorOf;
    hide MajorText;
    var typed := TypedMinor(amount, scale);
    EmptyIsZero(scale);
    if amount == "" || basisPoints <= 0.0 || typed == 0 {
      ZeroPrinted(scale);
    } else {
      MajorTextReadsBack(FeeMinor(typed, basisPoints.Floor), scale);
    }
  }

  lemma ZeroPrinted(scale: nat)
    ensures var s := if scale == 0 then "0" else "0." + Repeat('0', scale);
            HasDecimals(s, scale) && MinorOf(s, scale) == Some(0)
  {
    hide HasDecimals;
    hide MinorOf;
    hide ToNat;
    var zeros := Repeat('0', scale);
    ToNatOne('0');
    if scale == 0 {
      WholeReadsBack("0");
    } else {
      PartsReadBack("0", zeros);
      ToNatZeros("0" + zeros);
      assert "0" + "." + zeros == "0." + zeros;
    }
  }

  lemma EmptyIsZero(scale: nat)
    ensures TypedMinor("", scale) == 0
  {
    var digits := "0" + Take(PadEnd("", scale), scale);
    assert forall i :: 0 <= i < |digits| ==> digits[i] == '0';
    ToNatZeros(digits);
  }

  /** On a decimal, the amount the fee is taken on is the value with the decimals
      past the currency's own dropped. */
  lemma TypedMinorTruncates(amount: string, scale: nat, k: nat)
    requires MinorOf(amount, scale + k).Some?
    ensures TypedMinor(amount, scale) == MinorOf(amount, scale + k).value / Pow10(k)
  {
    var t := Trim(amount);
    var whole, frac := Before(t, '.'), After(t, '.');
    FractionIsAfter(t);
    assert |frac| <= scale + k && whole != "";
    DecimalsCut(whole, frac, scale, k);
    PaddedCut(frac, scale, k);
    assert AllDigits(whole + PadEnd(frac, scale + k)[..scale]);
  }

  // ------------------------------------------- amounts that are not decimals

  /** What `feeOn` looks at: what stands before the first point, and as many characters
      of what stands before the second as the currency has decimals. */
  function Pieces(amount: string, scale: nat): (string, string) {
    var t := Trim(amount);
    (Before(t, '.'), Take(PadEnd(Fraction(t), scale), scale))
  }

  /** Those characters are digits: the guard of the charge. */
  predicate ReadsDigits(amount: string, scale: nat) {
    AllDigits(Pieces(amount, scale).0) && AllDigits(Pieces(amount, scale).1)
  }

  /** For every string, a decimal or not: it is charged on the number its pieces are, if
      they are digits, and on nothing otherwise. */
  lemma ChargedOn(amount: string, scale: nat)
    ensures var (w, f) := Pieces(amount, scale);
            && |f| == scale
            && TypedMinor(amount, scale)
            == if ReadsDigits(amount, scale) then ToNat(w) * Pow10(scale) + ToNat(f) else 0
  {
    var (w, f) := Pieces(amount, scale);
    PiecesLength(amount, scale);
    TypedMinorIs(amount, scale);
    var whole := if w == "" then "0" else w;
    DigitsOfBoth(whole, f);
    WholeOrZero(w);
    hide *;
    ToNatConcat(whole, f);
    assert ReadsDigits(amount, scale) <==> AllDigits(w) && AllDigits(f) by { ReadsIs(amount, scale); }
  }

  lemma PiecesLength(amount: string, scale: nat)
    ensures |Pieces(amount, scale).1| == scale
  {
    hide Trim;
    hide Fraction;
  }

  lemma ReadsIs(amount: string, scale: nat)
    ensures ReadsDigits(amount, scale) <==> AllDigits(Pieces(amount, scale).0) && AllDigits(Pieces(amount, scale).1)
  {
  }

  lemma TypedMinorIs(amount: string, scale: nat)
    ensures var (w, f) := Pieces(amount, scale);
            var digits := (if w == "" then "0" else w) + f;
            TypedMinor(amount, scale) == if AllDigits(digits) then ToNat(digits) else 0
  {
    hide Split;
    hide Trim;
    hide AllDigits;
    hide ToNat;
    hide Take;
    hide PadEnd;
  }

  lemma DigitsOfBoth(a: string, b: string)
    ensures AllDigits(a + b) <==> AllDigits(a) && AllDigits(b)
  {
    assert forall i :: 0 <= i < |a| ==> (a + b)[i] == a[i];
    assert forall i :: 0 <= i < |b| ==> (a + b)[|a| + i] == b[i];
  }

  lemma WholeOrZero(w: string)
    ensures var whole := if w == "" then "0" else w;
            ToNat(whole) == ToNat(w) && (AllDigits(whole) <==> AllDigits(w))
  {
    ToNatOne('0');
    EmptyToNat();
    hide ToNat;
  }

  lemma EmptyToNat()
    ensures ToNat("") == 0
  {
  }

  lemma {:induction false} ToNatNonzero(s: string)
    requires AllDigits(s)
    ensures ToNat(s) == 0 <==> forall i :: 0 <= i < |s| ==> s[i] == '0'
  {
    if s != "" {
      var n := |s| - 1;
      ToNatNonzero(s[..n]);
      assert IsDigit(s[n]);
      assert ToNat(s) == ToNat(s[..n]) * 10 + DigitOf(s[n]);
    }
  }

  predicate AllZeros(s: string) {
    forall i :: 0 <= i < |s| ==> s[i] == '0'
  }

  /** So a string costs nothing if and only if its two pieces are not digits, or are all
      zeros -- not, as promised, whenever it is not a decimal. */
  lemma CostsNothingExactly(amount: string, scale: nat)
    ensures TypedMinor(amount, scale) == 0
        <==> !ReadsDigits(amount, scale)
             || (AllZeros(Pieces(amount, scale).0) && AllZeros(Pieces(amount, scale).1))
  {
    ChargedOn(amount, scale);
    var (w, f) := Pieces(amount, scale);
    if ReadsDigits(amount, scale) {
      ToNatNonzero(w);
      ToNatNonzero(f);
      Pow10Positive(scale);
      hide ToNat;
      MulZero(ToNat(w), Pow10(scale));
    }
  }

  lemma Pow10Positive(n: nat)
    ensures Pow10(n) > 0
  {
  }

  lemma MulZero(a: nat, b: nat)
    requires b > 0
    ensures a * b >= 0 && (a * b == 0 <==> a == 0)
  {
  }

  /** The family that breaks the promise: digits, a point, at least as many digits as
      the currency has decimals -- or any number before a second point -- and then
      anything that is not a digit. None of it is a decimal, and all of it is charged
      as if the rest were not there. */
  lemma NotADecimalIsCharged(w: string, f: string, rest: string, scale: nat)
    requires AllDigits(w) && AllDigits(f) && rest != ""
    requires !IsDigit(rest[0]) && !IsSpace(rest[|rest| - 1])
    requires |f| >= scale || rest[0] == '.'
    ensures var amount := w + "." + f + rest;
            && !IsDecimal(Trim(amount)) && (forall k: nat :: MinorOf(amount, k) == None)
            && TypedMinor(amount, scale) == ToNat(w) * Pow10(scale) + ToNat(Take(PadEnd(f, scale), scale))
  {
    var amount := w + "." + f + rest;
    NotADecimalPieces(w, f, rest, scale);
    ChargedOn(amount, scale);
    hide ToNat;
    hide Pieces;
    var padded := PadEnd(f, scale);
    assert AllDigits(padded) by {
      assert forall i :: 0 <= i < |padded| ==> padded[i] == if i < |f| then f[i] else '0';
    }
    assert AllDigits(Take(padded, scale));
  }

  lemma NotADecimalPieces(w: string, f: string, rest: string, scale: nat)
    requires AllDigits(w) && AllDigits(f) && rest != ""
    requires !IsDigit(rest[0]) && !IsSpace(rest[|rest| - 1])
    requires |f| >= scale || rest[0] == '.'
    ensures var amount := w + "." + f + rest;
            && Trim(amount) == amount && !IsDecimal(amount)
            && Pieces(amount, scale) == (w, Take(PadEnd(f, scale), scale))
  {
    CutSecond(w, f, rest);
    TightAmount(w, f, rest);
    DigitsOfBoth(f, rest);
    TakeOfLonger(f, Before(rest, '.'), scale);
    assert rest[0] == '.' ==> Before(rest, '.') == "";
    hide Split;
    hide Trim;
    hide Before;
    hide After;
    hide Fraction;
    hide Take;
    hide PadEnd;
  }

  lemma TakeOfLonger(f: string, tail: string, n: nat)
    requires |f| >= n || tail == ""
    ensures Take(PadEnd(f + tail, n), n) == Take(PadEnd(f, n), n)
  {
    if tail == "" {
      assert f + tail == f;
    }
  }

  lemma TightAmount(w: string, f: string, rest: string)
    requires AllDigits(w) && rest != "" && !IsSpace(rest[|rest| - 1])
    ensures Trim(w + "." + f + rest) == w + "." + f + rest
  {
    var amount := w + "." + f + rest;
    assert amount[0] == (if w == "" then '.' else w[0]);
    assert amount[|amount| - 1] == rest[|rest| - 1];
    TrimTight(amount);
  }

  lemma CutSecond(w: string, f: string, rest: string)
    requires AllDigits(w) && AllDigits(f)
    ensures var amount := w + "." + f + rest;
            && Before(amount, '.') == w && After(amount, '.') == f + rest
            && Fraction(amount) == f + Before(rest, '.')
  {
    BeforeOfDigits(f, rest);
    hide Split;
    hide Before;
    hide After;
    assert w + "." + f + rest == w + ['.'] + (f + rest);
    assert '.' !in w;
    hide AllDigits;
    CutAt(w, '.', f + rest);
    SplitCons(w, '.', f + rest);
  }

  lemma BeforeOfDigits(f: string, rest: string)
    requires AllDigits(f)
    ensures Before(f + rest, '.') == f + Before(rest, '.')
  {
    var s := f + rest;
    if '.' in rest {
      var i := IndexOf(rest, '.');
      assert s[|f| + i] == '.';
      IndexOfUnique(s, '.', |f| + i);
    } else {
      assert '.' !in s;
    }
  }

  lemma PaddedCut(frac: string, scale: nat, k: nat)
    requires |frac| <= scale + k
    ensures Take(PadEnd(frac, scale), scale) == PadEnd(frac, scale + k)[..scale]
  {
  }

  lemma DecimalsCut(whole: string, frac: string, scale: nat, k: nat)
    requires |frac| <= scale + k
    ensures ToNat(whole + PadEnd(frac, scale + k)[..scale])
         == ToNat(whole + PadEnd(frac, scale + k)) / Pow10(k)
  {
    var long := PadEnd(frac, scale + k);
    var kept, dropped := whole + long[..scale], long[scale..];
    assert whole + long == kept + dropped;
    ToNatConcat(kept, dropped);
    ToNatBound(dropped);
    Euclid(ToNat(kept), Pow10(k), ToNat(dropped));
  }

  /** What the screen says grows with the amount and with the rate. */
  lemma FeeShownMonotone(a: string, b: string, r1: real, r2: real, scale: nat)
    requires TypedMinor(a, scale) <= TypedMinor(b, scale) && 0.0 <= r1 <= r2
    ensures MinorOf(FeeOn(a, r1, scale), scale).Some? && MinorOf(FeeOn(b, r2, scale), scale).Some?
    ensures MinorOf(FeeOn(a, r1, scale), scale).value <= MinorOf(FeeOn(b, r2, scale), scale).value
  {
    FeePrintedExactly(a, r1, scale);
    FeePrintedExactly(b, r2, scale);
    if 0.0 < r1 {
      FeeMonotone(TypedMinor(a, scale), TypedMinor(b, scale), r1.Floor, r2.Floor);
    }
  }
}
