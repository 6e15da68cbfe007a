/** The keypad, as a machine over numbers.

    `PressKey` edits a string. This module gives the integer machine that the
    keypad is meant to be -- a value in minor units, a count of integer digits and
    a count of decimals -- and proves that the string simulates it, key by key and
    over every run, and that the machine's state determines the string. */
module Keypad {
  import opened Text
  import opened Decimal
  import opened AmountEntry

  predicate IsKey(key: string) {
    key == "<" || key == "." || key == "000" || (|key| == 1 && IsDigit(key[0]))
  }

  function Run(was: string, keys: seq<string>, exponent: Option<nat>): string {
    if keys == [] then was
    else PressKey(Run(was, keys[..|keys| - 1], exponent), keys[|keys| - 1], exponent)
  }

  // ------------------------------------------------------ the shape of an amount

  /** What the box may hold: nothing, or at least one integer digit without a
      redundant leading zero, then at most one point and no more decimals than the
      currency has, twelve digits in all. */
  predicate KeypadForm(s: string, exponent: Option<nat>) {
    s != "" ==>
      && PartsForm(Before(s, '.'), After(s, '.'), exponent)
      && (exponent == Some(0) ==> '.' !in s)
  }

  predicate PartsForm(whole: string, frac: string, exponent: Option<nat>) {
    && whole != "" && AllDigits(whole) && AllDigits(frac)
    && (|whole| > 1 ==> whole[0] != '0')
    && |whole| + |frac| <= 12
    && (exponent.Some? ==> |frac| <= exponent.value)
  }

  // ------------------------------------------------------------------ the machine

  /** `digits` integer digits typed, `value` minor units, and how many decimals
      follow the point when there is one. */
  datatype Till = Till(digits: nat, value: nat, decimals: Option<nat>)

  const EMPTY := Till(0, 0, None)

  function AppendDigit(t: Till, d: nat, e: nat): Till {
    match t.decimals
    case None =>
      if t.digits + 1 > 12 then t
      else Till(if t.digits > 0 && t.value == 0 then t.digits else t.digits + 1,
                10 * t.value + d * Pow10(e), None)
    case Some(k) =>
      if t.digits + k + 1 > 12 || k + 1 > e then t
      else Till(t.digits, t.value + d * Pow10(e - k - 1), Some(k + 1))
  }

  function AppendZeros(t: Till, e: nat): Till {
    match t.decimals
    case None =>
      if t.digits == 0 || t.digits + 3 > 12 then t
      else Till(if t.value == 0 then t.digits else t.digits + 3, 1000 * t.value, None)
    case Some(k) =>
      if t.digits + k + 3 > 12 || k + 3 > e then t
      else Till(t.digits, t.value, Some(k + 3))
  }

  function AppendPoint(t: Till, e: nat): Till {
    if t.decimals.Some? || e == 0 then t
    else Till(if t.digits == 0 then 1 else t.digits, t.value, Some(0))
  }

  function Delete(t: Till, e: nat): Till {
    match t.decimals
    case None =>
      if t.digits == 0 then t
      else Till(t.digits - 1, WithoutLastDigit(t.value, Pow10(e)), None)
    case Some(k) =>
      if k == 0 then t.(decimals := None)
      else if k > e then t
      else Till(t.digits, WithoutRemainder(t.value, Pow10(e - k + 1)), Some(k - 1))
  }

  function WithoutLastDigit(value: nat, unit: nat): nat
    requires unit > 0
  {
    var q: nat := value / (10 * unit);
    MulMonotone(0, q, unit);
    q * unit
  }

  function WithoutRemainder(value: nat, unit: nat): nat
    requires unit > 0
  {
    value / unit * unit
  }

  function Press(t: Till, key: string, e: nat): Till
    requires IsKey(key)
  {
    if key == "<" then Delete(t, e)
    else if key == "." then AppendPoint(t, e)
    else if key == "000" then AppendZeros(t, e)
    else AppendDigit(t, DigitOf(key[0]), e)
  }

  function RunTill(keys: seq<string>, e: nat): Till
    requires forall i :: 0 <= i < |keys| ==> IsKey(keys[i])
  {
    if keys == [] then EMPTY
    else Press(RunTill(keys[..|keys| - 1], e), keys[|keys| - 1], e)
  }

  // ----------------------------------------------------------- reading the string

  /** The amount in minor units of a currency with `e` decimals. */
  function MinorValue(whole: string, frac: string, e: nat): nat
    requires |frac| <= e
  {
    ToNat(whole) * Pow10(e) + ToNat(frac) * Pow10(e - |frac|)
  }

  function TillOf(s: string, e: nat): Till
    requires KeypadForm(s, Some(e))
  {
    var whole, frac := Before(s, '.'), After(s, '.');
    Till(|whole|, MinorValue(whole, frac, e), if '.' in s then Some(|frac|) else None)
  }

  // ---------------------------------------------------------- one key at a time

  lemma DigitsOnly(s: string)
    requires AllDigits(s)
    ensures '.' !in s && Before(s, '.') == s && After(s, '.') == "" && CountDigits(s) == |s|
  {
    FilterAll(s, IsDigit);
  }

  lemma WithPoint(whole: string, frac: string)
    requires AllDigits(whole) && AllDigits(frac)
    ensures Before(whole + "." + frac, '.') == whole && After(whole + "." + frac, '.') == frac
    ensures IndexOf(whole + "." + frac, '.') == |whole|
    ensures CountDigits(whole + "." + frac) == |whole| + |frac|
  {
    CutAt(whole, '.', frac);
    CountWithPoint(whole, frac);
  }

  lemma CountWithPoint(whole: string, frac: string)
    requires AllDigits(whole) && AllDigits(frac)
    ensures CountDigits(whole + "." + frac) == |whole| + |frac|
  {
    FilterConcat(whole + ".", frac, IsDigit);
    FilterConcat(whole, ".", IsDigit);
    FilterAll(whole, IsDigit);
    FilterAll(frac, IsDigit);
    FilterNone(".", IsDigit);
  }

  lemma FormOfParts(whole: string, frac: string, exponent: Option<nat>)
    requires PartsForm(whole, frac, exponent) && exponent != Some(0)
    ensures KeypadForm(whole + "." + frac, exponent)
  {
    WithPoint(whole, frac);
  }

  lemma FormOfWhole(whole: string, exponent: Option<nat>)
    requires PartsForm(whole, "", exponent)
    ensures KeypadForm(whole, exponent)
  {
    DigitsOnly(whole);
  }

  lemma StripZerosNoop(whole: string, frac: string)
    requires AllDigits(whole) && whole != "" && (|whole| > 1 ==> whole[0] != '0')
    ensures StripZeros(whole + "." + frac) == whole + "." + frac
  {
    var s := whole + "." + frac;
    if |whole| == 1 {
      assert s[1] == '.';
    } else {
      assert s[0] == whole[0];
    }
  }

  /** Digits typed before the point. */
  lemma PressWhole(whole: string, key: string, exponent: Option<nat>)
    requires KeypadForm(whole, exponent) && '.' !in whole && AllDigits(key) && key != ""
    requires key == "000" ==> whole != ""
    ensures var s := PressKey(whole, key, exponent);
            if |whole| + |key| > 12 then s == whole
            else s == StripZeros(whole + key) && s != "" && AllDigits(s)
                 && (|s| > 1 ==> s[0] != '0') && |s| <= |whole| + |key|
  {
    hide Filter;
    hide StripZeros;
    CutNone(whole, '.');
    assert IsDigit(key[0]) && key != "<" && key != ".";
    assert AllDigits(whole);
    assert AllDigits(whole + key);
    DigitsOnly(whole + key);
    StripZerosDigits(whole + key);
  }

  /** Digits typed after the point. */
  lemma PressFrac(whole: string, frac: string, key: string, exponent: Option<nat>)
    requires KeypadForm(whole + "." + frac, exponent) && Before(whole + "." + frac, '.') == whole
    requires AllDigits(key) && key != ""
    ensures var s := PressKey(whole + "." + frac, key, exponent);
            if |whole| + |frac| + |key| > 12
               || (exponent.Some? && |frac| + |key| > exponent.value)
            then s == whole + "." + frac
            else s == whole + "." + (frac + key)
  {
    hide Filter;
    hide StripZeros;
    hide IndexOf;
    hide Before;
    hide After;
    var s, next := whole + "." + frac, whole + "." + (frac + key);
    assert s[|whole|] == '.';
    assert IsDigit(key[0]) && key != "<" && key != ".";
    assert s + key == next;
    PointedParts(whole, frac, exponent);
    WithPoint(whole, frac + key);
    StripZerosNoop(whole, frac + key);
  }

  lemma PointedParts(whole: string, frac: string, exponent: Option<nat>)
    requires KeypadForm(whole + "." + frac, exponent) && Before(whole + "." + frac, '.') == whole
    ensures PartsForm(whole, frac, exponent)
  {
    CutAt(whole, '.', frac);
  }

  lemma DropLast(s: string, exponent: Option<nat>)
    requires KeypadForm(s, exponent) && s != ""
    ensures var t := s[..|s| - 1];
            var whole, frac := Before(s, '.'), After(s, '.');
            && ('.' !in s ==> t == whole[..|whole| - 1] && '.' !in t && Before(t, '.') == t && After(t, '.') == "")
            && ('.' in s && frac == "" ==> t == whole)
            && ('.' in s && frac != "" ==>
                  && t == whole + "." + frac[..|frac| - 1]
                  && Before(t, '.') == whole && After(t, '.') == frac[..|frac| - 1])
    ensures KeypadForm(s[..|s| - 1], exponent)
  {
    var whole, frac := Before(s, '.'), After(s, '.');
    if '.' in s {
      assert s == whole + "." + frac;
      if frac == "" {
        assert s[..|s| - 1] == whole;
        DigitsOnly(whole);
      } else {
        var f := frac[..|frac| - 1];
        assert s[..|s| - 1] == whole + "." + f;
        WithPoint(whole, f);
      }
    } else {
      assert s == whole;
      DigitsOnly(whole[..|whole| - 1]);
    }
  }

  /** Whatever is pressed, the box keeps its shape. */
  lemma PressKeepsForm(s: string, key: string, exponent: Option<nat>)
    requires KeypadForm(s, exponent) && IsKey(key)
    ensures KeypadForm(PressKey(s, key, exponent), exponent)
  {
    hide Filter;
    hide StripZeros;
    hide Before;
    hide After;
    hide IndexOf;
    hide PartsForm;
    if key == "<" {
      if s != "" {
        DropLast(s, exponent);
      }
    } else if key == "." {
      PointKeepsForm(s, exponent);
    } else if '.' in s {
      FracKeepsForm(s, key, exponent);
    } else {
      WholeKeepsForm(s, key, exponent);
    }
  }

  lemma WholeKeepsForm(s: string, key: string, exponent: Option<nat>)
    requires KeypadForm(s, exponent) && '.' !in s && AllDigits(key) && key != ""
    ensures KeypadForm(PressKey(s, key, exponent), exponent)
  {
    if !(key == "000" && s == "") {
      PressWhole(s, key, exponent);
      if PressKey(s, key, exponent) != s {
        FormOfWhole(PressKey(s, key, exponent), exponent);
      }
    }
  }

  lemma PointKeepsForm(s: string, exponent: Option<nat>)
    requires KeypadForm(s, exponent)
    ensures KeypadForm(PressKey(s, ".", exponent), exponent)
  {
    if '.' !in s && exponent != Some(0) {
      var w := if s == "" then "0" else s;
      CutNone(s, '.');
      assert PressKey(s, ".", exponent) == w + "." + "";
      FormOfParts(w, "", exponent);
    }
  }

  lemma FracKeepsForm(s: string, key: string, exponent: Option<nat>)
    requires KeypadForm(s, exponent) && '.' in s && AllDigits(key) && key != ""
    ensures KeypadForm(PressKey(s, key, exponent), exponent)
  {
    var whole, frac := Before(s, '.'), After(s, '.');
    PressFrac(whole, frac, key, exponent);
    if PressKey(s, key, exponent) != s {
      FormOfParts(whole, frac + key, exponent);
    }
  }

  // ------------------------------------------------------------- the simulation

  lemma ToNatZero(s: string)
    requires AllDigits(s) && s != "" && (|s| > 1 ==> s[0] != '0')
    ensures ToNat(s) == 0 <==> s == "0"
  {
    if |s| > 1 {
      ToNatLower(s);
    } else {
      assert s == [s[0]];
      ToNatOne(s[0]);
    }
  }

  lemma StripZerosLength(whole: string, key: string)
    requires AllDigits(whole) && AllDigits(key) && (|whole| > 1 ==> whole[0] != '0')
    requires whole == "0" || (whole != "" && ToNat(whole) > 0) || (whole == "" && |key| == 1)
    requires whole == "0" ==> |key| == 1 || key == "000"
    ensures |StripZeros(whole + key)| == if whole == "0" then 1 else |whole| + |key|
  {
    var next := whole + key;
    assert AllDigits(next);
    if whole == "0" {
      assert next[0] == '0' && next[1..] == key;
      if key == "000" {
        assert StripZeros("000") == StripZeros("00") by {
          assert "000"[1..] == "00";
        }
        assert StripZeros("00") == StripZeros("0") by {
          assert "00"[1..] == "0";
        }
      }
    } else if whole != "" {
      ToNatZero(whole);
      if |next| > 1 {
        assert next[0] == whole[0];
        assert |whole| == 1 ==> whole == [whole[0]];
      }
    }
  }

  lemma SimulateWhole(s: string, key: string, e: nat)
    requires KeypadForm(s, Some(e)) && '.' !in s && AllDigits(key)
    requires |key| == 1 || key == "000"
    ensures KeypadForm(PressKey(s, key, Some(e)), Some(e))
    ensures TillOf(PressKey(s, key, Some(e)), e) == Press(TillOf(s, e), key, e)
  {
    PressKeepsForm(s, key, Some(e));
    CutNone(s, '.');
    if !(key == "000" && s == "") {
      PressWhole(s, key, Some(e));
      if |s| + |key| <= 12 {
        var r := PressKey(s, key, Some(e));
        DigitsOnly(r);
        WholePressed(s, key, e);
      }
    }
  }

  lemma WholePressed(s: string, key: string, e: nat)
    requires AllDigits(s) && (|s| > 1 ==> s[0] != '0') && AllDigits(key)
    requires |key| == 1 || (key == "000" && s != "")
    requires |s| + |key| <= 12
    ensures var r := StripZeros(s + key);
            Press(Till(|s|, MinorValue(s, "", e), None), key, e)
            == Till(|r|, MinorValue(r, "", e), None)
  {
    hide StripZeros;
    hide ToNat;
    hide MinorValue;
    var r := StripZeros(s + key);
    if s != "" {
      ToNatZero(s);
    }
    StripZerosLength(s, key);
    PressedNumber(s, key);
    WholeValue(s, r, key, e);
  }

  lemma PressedNumber(s: string, key: string)
    requires AllDigits(key)
    ensures key == "000" ==> ToNat(StripZeros(s + key)) == ToNat(s) * 1000
    ensures |key| == 1 ==> ToNat(StripZeros(s + key)) == ToNat(s) * 10 + DigitOf(key[0])
  {
    StripZerosValue(s + key);
    ToNatConcat(s, key);
    if key == "000" {
      ToNatZeros(key);
      assert Pow10(3) == 1000;
    } else if |key| == 1 {
      assert key == [key[0]];
      ToNatOne(key[0]);
      assert Pow10(1) == 10;
    }
  }

  lemma WholeValue(s: string, r: string, key: string, e: nat)
    requires key == "000" ==> ToNat(r) == ToNat(s) * 1000
    requires key != "000" && |key| == 1 ==> ToNat(r) == ToNat(s) * 10 + DigitOf(key[0])
    ensures MinorValue(s, "", e) == ToNat(s) * Pow10(e)
    ensures MinorValue(r, "", e) == ToNat(r) * Pow10(e)
    ensures MinorValue(s, "", e) == 0 <==> ToNat(s) == 0
    ensures key == "000" ==> MinorValue(r, "", e) == 1000 * MinorValue(s, "", e)
    ensures key != "000" && |key| == 1 ==>
              MinorValue(r, "", e) == 10 * MinorValue(s, "", e) + DigitOf(key[0]) * Pow10(e)
  {
    var n, p := ToNat(s), Pow10(e);
    WholeOnly(s, e);
    WholeOnly(r, e);
    hide MinorValue;
    hide ToNat;
    hide Pow10;
    Associate(1000, n, p);
    Associate(10, n, p);
    if key != "000" && |key| == 1 {
      Distribute(n * 10, DigitOf(key[0]), p);
    }
    MulStrict(0, n, p);
  }

  lemma WholeOnly(s: string, e: nat)
    ensures MinorValue(s, "", e) == ToNat(s) * Pow10(e)
  {
    assert ToNat("") == 0;
  }

  lemma FracValue(whole: string, frac: string, key: string, e: nat)
    requires |frac| + |key| <= e
    ensures MinorValue(whole, frac + key, e)
         == MinorValue(whole, frac, e) + ToNat(key) * Pow10(e - |frac| - |key|)
  {
    var low := Pow10(e - |frac| - |key|);
    var f, k, p := ToNat(frac), ToNat(key), Pow10(|key|);
    ToNatConcat(frac, key);
    Pow10Add(|key|, e - |frac| - |key|);
    Distribute(f * p, k, low);
    Associate(f, p, low);
  }

  lemma SimulateFrac(s: string, key: string, e: nat)
    requires KeypadForm(s, Some(e)) && '.' in s && AllDigits(key)
    requires |key| == 1 || key == "000"
    ensures KeypadForm(PressKey(s, key, Some(e)), Some(e))
    ensures TillOf(PressKey(s, key, Some(e)), e) == Press(TillOf(s, e), key, e)
  {
    var whole, frac := Before(s, '.'), After(s, '.');
    PressFrac(whole, frac, key, Some(e));
    if |whole| + |frac| + |key| <= 12 && |frac| + |key| <= e {
      TillOfParts(whole, frac + key, e);
      FracPressed(whole, frac, key, e);
    }
  }

  lemma FracPressed(whole: string, frac: string, key: string, e: nat)
    requires AllDigits(key) && (|key| == 1 || key == "000")
    requires |whole| + |frac| + |key| <= 12 && |frac| + |key| <= e
    ensures Press(Till(|whole|, MinorValue(whole, frac, e), Some(|frac|)), key, e)
         == Till(|whole|, MinorValue(whole, frac + key, e), Some(|frac + key|))
  {
    FracValue(whole, frac, key, e);
    if key == "000" {
      ToNatZeros(key);
    } else {
      assert key == [key[0]];
      ToNatOne(key[0]);
    }
  }

  lemma TillOfParts(whole: string, frac: string, e: nat)
    requires PartsForm(whole, frac, Some(e)) && e > 0
    ensures KeypadForm(whole + "." + frac, Some(e))
    ensures TillOf(whole + "." + frac, e) == Till(|whole|, MinorValue(whole, frac, e), Some(|frac|))
  {
    FormOfParts(whole, frac, Some(e));
    WithPoint(whole, frac);
  }

  lemma SimulatePoint(s: string, e: nat)
    requires KeypadForm(s, Some(e))
    ensures KeypadForm(PressKey(s, ".", Some(e)), Some(e))
    ensures TillOf(PressKey(s, ".", Some(e)), e) == AppendPoint(TillOf(s, e), e)
  {
    PressKeepsForm(s, ".", Some(e));
    if '.' !in s && e > 0 {
      CutNone(s, '.');
      var w := if s == "" then "0" else s;
      assert PressKey(s, ".", Some(e)) == w + "." + "";
      WithPoint(w, "");
      ToNatOne('0');
    }
  }

  lemma SimulateDelete(s: string, e: nat)
    requires KeypadForm(s, Some(e))
    ensures KeypadForm(PressKey(s, "<", Some(e)), Some(e))
    ensures TillOf(PressKey(s, "<", Some(e)), e) == Delete(TillOf(s, e), e)
  {
    PressKeepsForm(s, "<", Some(e));
    if s != "" {
      DropLast(s, Some(e));
      var whole, frac := Before(s, '.'), After(s, '.');
      if '.' !in s {
        DropDigit(ToNat(whole[..|whole| - 1]), DigitOf(whole[|whole| - 1]), Pow10(e));
      } else if frac == "" {
        DigitsOnly(whole);
      } else {
        DeleteFrac(whole, frac, e);
      }
    }
  }

  lemma DeleteFrac(whole: string, frac: string, e: nat)
    requires frac != "" && |frac| <= e
    ensures var v := MinorValue(whole, frac, e);
            MinorValue(whole, frac[..|frac| - 1], e) == WithoutRemainder(v, Pow10(e - |frac| + 1))
  {
    var f, last := frac[..|frac| - 1], frac[|frac| - 1];
    assert frac == f + [last];
    FracValue(whole, f, [last], e);
    ToNatOne(last);
    var low, d := Pow10(e - |frac|), DigitOf(last);
    var q := CarriedBy(whole, f, e);
    assert Pow10(e - |f|) == 10 * low;
    MulMonotone(0, d, low);
    MulStrict(d, 10, low);
    Euclid(q, 10 * low, d * low);
  }

  /** A value with few decimals is a multiple of the power of ten they leave. */
  lemma CarriedBy(whole: string, f: string, e: nat) returns (q: nat)
    requires |f| <= e
    ensures MinorValue(whole, f, e) == q * Pow10(e - |f|)
  {
    var w, p, low := ToNat(whole), Pow10(|f|), Pow10(e - |f|);
    Pow10Add(|f|, e - |f|);
    Associate(w, p, low);
    Distribute(w * p, ToNat(f), low);
    q := w * p + ToNat(f);
  }

  /** One key: the string moves exactly as the machine does. */
  lemma PressSimulates(s: string, key: string, e: nat)
    requires KeypadForm(s, Some(e)) && IsKey(key)
    ensures KeypadForm(PressKey(s, key, Some(e)), Some(e))
    ensures TillOf(PressKey(s, key, Some(e)), e) == Press(TillOf(s, e), key, e)
  {
    if key == "<" {
      SimulateDelete(s, e);
    } else if key == "." {
      SimulatePoint(s, e);
    } else if '.' in s {
      SimulateFrac(s, key, e);
    } else {
      SimulateWhole(s, key, e);
    }
  }

  /** Every run of keys from an empty box, for every exponent: the string is well
      formed and reads as the machine's state. */
  lemma {:induction false} KeypadSimulatesTill(keys: seq<string>, e: nat)
    requires forall i :: 0 <= i < |keys| ==> IsKey(keys[i])
    ensures KeypadForm(Run("", keys, Some(e)), Some(e))
    ensures TillOf(Run("", keys, Some(e)), e) == RunTill(keys, e)
  {
    if keys != [] {
      KeypadSimulatesTill(keys[..|keys| - 1], e);
      PressSimulates(Run("", keys[..|keys| - 1], Some(e)), keys[|keys| - 1], e);
    }
  }

  /** A keypad given no exponent keeps the same shape, but for the decimals. */
  lemma {:induction false} KeypadKeepsForm(keys: seq<string>, exponent: Option<nat>)
    requires forall i :: 0 <= i < |keys| ==> IsKey(keys[i])
    ensures KeypadForm(Run("", keys, exponent), exponent)
  {
    if keys != [] {
      KeypadKeepsForm(keys[..|keys| - 1], exponent);
      PressKeepsForm(Run("", keys[..|keys| - 1], exponent), keys[|keys| - 1], exponent);
    }
  }

  // ------------------------------------------- the machine determines the string

  lemma SplitValue(whole: string, frac: string, e: nat)
    requires |frac| <= e
    ensures MinorValue(whole, frac, e) / Pow10(e) == ToNat(whole)
    ensures MinorValue(whole, frac, e) % Pow10(e) == ToNat(frac) * Pow10(e - |frac|)
  {
    var n, low := ToNat(frac), Pow10(e - |frac|);
    ToNatBound(frac);
    Pow10Add(|frac|, e - |frac|);
    MulStrict(n, Pow10(|frac|), low);
    MulMonotone(0, n, low);
    Euclid(ToNat(whole), Pow10(e), n * low);
  }

  /** Two boxes that read the same hold the same characters. */
  lemma TillDeterminesText(s: string, t: string, e: nat)
    requires KeypadForm(s, Some(e)) && KeypadForm(t, Some(e))
    requires TillOf(s, e) == TillOf(t, e)
    ensures s == t
  {
    if s == "" || t == "" {
      assert Before(s, '.') == "" <==> s == "";
      assert Before(t, '.') == "" <==> t == "";
    } else {
      PartsDetermined(Before(s, '.'), After(s, '.'), Before(t, '.'), After(t, '.'), e);
    }
  }

  lemma PartsDetermined(sw: string, sf: string, tw: string, tf: string, e: nat)
    requires AllDigits(sw) && AllDigits(sf) && AllDigits(tw) && AllDigits(tf)
    requires |sw| == |tw| && |sf| == |tf| <= e
    requires MinorValue(sw, sf, e) == MinorValue(tw, tf, e)
    ensures sw == tw && sf == tf
  {
    SplitValue(sw, sf, e);
    SplitValue(tw, tf, e);
    ToNatInjective(sw, tw);
    MulCancel(ToNat(sf), ToNat(tf), Pow10(e - |sf|));
    ToNatInjective(sf, tf);
  }

  // --------------------------------------------------------------- what is drawn

  /** On any non-empty box `figureOf` is a decimal with digits on both sides of its
      point, worth exactly what the keypad's machine holds. */
  lemma FigureKeepsValue(s: string, e: nat)
    requires KeypadForm(s, Some(e)) && s != ""
    ensures var f := FigureOf(s);
            && IsDecimal(f) && ('.' in f ==> After(f, '.') != "")
            && MinorOf(f, e) == Some(TillOf(s, e).value)
            && MinorOf(s, e) == Some(TillOf(s, e).value)
  {
    hide MinorOf;
    hide FigureOf;
    hide MinorValue;
    var whole, frac := Before(s, '.'), After(s, '.');
    KeypadTight(s, e);
    MinorOfDecimal(s, e);
    FigureDropsPoint(s, e);
    if '.' in s && frac == "" {
      DigitsOnly(whole);
      FormOfWhole(whole, Some(e));
      KeypadTight(whole, e);
      MinorOfDecimal(whole, e);
    }
  }

  /** Only a trailing point goes. */
  lemma FigureDropsPoint(s: string, e: nat)
    requires KeypadForm(s, Some(e)) && s != ""
    ensures FigureOf(s) == if '.' in s && After(s, '.') == "" then Before(s, '.') else s
  {
    KeypadTight(s, e);
    assert IsDecimal(s);
    hide *;
    if '.' in s && After(s, '.') == "" {
      FigureOfPointed(s);
    } else {
      LastIsDigit(s);
      FigureOfDecimal(s);
    }
  }

  lemma FigureOfPointed(s: string)
    requires Trim(s) == s && IsDecimal(s) && '.' in s && After(s, '.') == ""
    ensures FigureOf(s) == Before(s, '.')
  {
    hide Trim;
    var whole := Before(s, '.');
    assert s == whole + ".";
    assert s[..|s| - 1] == whole;
    DigitsOnly(whole);
    assert IsDecimal(whole);
    hide IsDecimal;
    hide Before;
    hide After;
  }

  lemma FigureOfDecimal(s: string)
    requires Trim(s) == s && IsDecimal(s) && ('.' in s ==> After(s, '.') != "")
    requires s != "" && IsDigit(s[|s| - 1])
    ensures FigureOf(s) == s
  {
    hide Trim;
    hide IsDecimal;
    hide After;
  }

  /** A decimal that has digits after its point, or no point, ends in a digit. */
  lemma LastIsDigit(s: string)
    requires IsDecimal(s) && ('.' in s ==> After(s, '.') != "")
    ensures s != "" && IsDigit(s[|s| - 1])
  {
    var whole, frac := Before(s, '.'), After(s, '.');
    if '.' in s {
      assert s == whole + "." + frac;
      assert s[|s| - 1] == frac[|frac| - 1];
    } else {
      assert s[|s| - 1] == whole[|whole| - 1];
    }
  }

  lemma KeypadTight(s: string, e: nat)
    requires KeypadForm(s, Some(e)) && s != ""
    ensures Trim(s) == s && IsDecimal(s)
  {
    var whole, frac := Before(s, '.'), After(s, '.');
    assert s[0] == whole[0];
    if '.' in s {
      assert s == whole + "." + frac;
      assert s[|s| - 1] == if frac == "" then '.' else frac[|frac| - 1];
    } else {
      assert s == whole;
    }
    TrimTight(s);
  }

  /** What `minorOf` answers on a trimmed decimal. */
  lemma MinorOfDecimal(s: string, e: nat)
    requires Trim(s) == s && IsDecimal(s)
    ensures |After(s, '.')| <= e ==> MinorOf(s, e) == Some(MinorValue(Before(s, '.'), After(s, '.'), e))
    ensures |After(s, '.')| > e ==> MinorOf(s, e) == None
  {
    hide Before;
    hide After;
    hide Trim;
    hide ToNat;
    hide Pow10;
    hide MinorValue;
    var whole, frac := Before(s, '.'), After(s, '.');
    FractionIsAfter(s);
    if |frac| <= e {
      PaddedValue(whole, frac, e);
    }
  }

  lemma PaddedValue(whole: string, frac: string, e: nat)
    requires |frac| <= e
    ensures ToNat(whole + PadEnd(frac, e)) == MinorValue(whole, frac, e)
  {
    hide ToNat;
    hide Pow10;
    var zeros := Repeat('0', e - |frac|);
    assert PadEnd(frac, e) == frac + zeros;
    ToNatConcat(whole, frac + zeros);
    ToNatConcat(frac, zeros);
    ToNatZeros(zeros);
  }

  lemma FractionIsAfter(s: string)
    requires '.' !in After(s, '.')
    ensures Fraction(s) == After(s, '.')
  {
    if '.' in s {
      SplitCons(Before(s, '.'), '.', After(s, '.'));
    }
  }
}
