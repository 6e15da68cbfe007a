/** A pasted amount is cleaned the way the keypad would have built it.

    `typedAmount` works on the whole string at once; the keypad works key by key.
    This module proves exactly when the two agree: for a currency with decimals,
    precisely when the cleaned amount fits the keypad's twelve digits; for one
    without, `typedAmount` also drops digits the keypad would have taken. */
module Typed {
  import opened Text
  import opened Decimal
  import opened AmountEntry
  import opened Keypad

  predicate DigitsAndPoints(d: string) {
    forall i :: 0 <= i < |d| ==> IsDigitOrPoint(d[i])
  }

  /** The keys of the digits and points of a string, one after the other. */
  function Keys(d: string): (keys: seq<string>)
    ensures |keys| == |d|
  {
    seq(|d|, i requires 0 <= i < |d| => [d[i]])
  }

  function Keyed(d: string, e: nat): string {
    Run("", Keys(d), Some(e))
  }

  lemma KeyedSnoc(p: string, c: char, e: nat)
    ensures Keyed(p + [c], e) == PressKey(Keyed(p, e), [c], Some(e))
  {
    var keys := Keys(p + [c]);
    assert keys[..|p|] == Keys(p);
    assert keys[|p|] == [c];
  }

  // ------------------------------------------------------------ the cleaned amount

  /** `typedAmount` without its list of pieces: the integer part, and the digits
      after the first point, cut to the exponent. */
  function Cleaned(d: string, e: nat): string {
    var whole := StripZeros(Before(d, '.'));
    if '.' !in d || e == 0 then whole
    else (if whole == "" then "0" else whole) + "." + Take(Filter(After(d, '.'), IsDigit), e)
  }

  lemma {:induction false} JoinedPieces(t: string)
    requires DigitsAndPoints(t)
    ensures Join(Split(t, '.'), "") == Filter(t, IsDigit)
    decreases |t|
  {
    var w, r := Before(t, '.'), After(t, '.');
    if '.' in t {
      AfterIsClean(t);
      JoinedPieces(r);
      FirstPiece(w, Split(r, '.'));
      assert t == w + "." + r;
      hide Before;
      hide After;
      hide Join;
      hide Split;
      FilterPointed(w, r);
      SplitCons(w, '.', r);
      assert w + ['.'] + r == w + "." + r;
    } else {
      FilterAll(t, IsDigit);
      assert Split(t, '.') == [t];
      assert Join([t], "") == t;
    }
  }

  lemma FirstPiece(w: string, pieces: seq<string>)
    requires pieces != []
    ensures Join([w] + pieces, "") == w + Join(pieces, "")
  {
    assert ([w] + pieces)[1..] == pieces;
    assert w + "" == w;
  }

  lemma FilterPointed(w: string, r: string)
    requires AllDigits(w)
    ensures Filter(w + "." + r, IsDigit) == w + Filter(r, IsDigit)
  {
    FilterAll(w, IsDigit);
    FilterNone(".", IsDigit);
    FilterConcat(w + ".", r, IsDigit);
    FilterConcat(w, ".", IsDigit);
    hide *;
    assert w + "" == w;
  }

  lemma AfterIsClean(d: string)
    requires DigitsAndPoints(d)
    ensures DigitsAndPoints(After(d, '.')) && AllDigits(Before(d, '.'))
  {
    var w, r := Before(d, '.'), After(d, '.');
    forall i | 0 <= i < |r| ensures IsDigitOrPoint(r[i]) {
      assert r[i] == d[|w| + 1 + i];
    }
    forall i | 0 <= i < |w| ensures IsDigit(w[i]) {
      assert w[i] == d[i] && w[i] in w;
    }
  }

  lemma FilteredIsClean(raw: string)
    ensures DigitsAndPoints(Filter(raw, IsDigitOrPoint))
  {
    FilterKeeps(raw, IsDigitOrPoint);
  }

  lemma TypedIsCleaned(raw: string, e: nat)
    ensures TypedAmount(raw, e) == Cleaned(Filter(raw, IsDigitOrPoint), e)
  {
    var d := Filter(raw, IsDigitOrPoint);
    FilteredIsClean(raw);
    if '.' in d {
      AfterIsClean(d);
      JoinedPieces(After(d, '.'));
      assert Split(d, '.')[1..] == Split(After(d, '.'), '.');
    }
  }

  lemma CleanedParts(d: string, e: nat)
    requires DigitsAndPoints(d)
    ensures var w := StripZeros(Before(d, '.'));
            && AllDigits(w) && (|w| > 1 ==> w[0] != '0')
            && CountDigits(Cleaned(d, e))
               == if '.' !in d || e == 0 then |w|
                  else (if w == "" then 1 else |w|) + |Take(Filter(After(d, '.'), IsDigit), e)|
  {
    AfterIsClean(d);
    var w := StripZeros(Before(d, '.'));
    StripZerosDigits(Before(d, '.'));
    if '.' !in d || e == 0 {
      DigitsOnly(w);
    } else {
      DigitsKept(After(d, '.'));
      CountWithPoint(if w == "" then "0" else w, Take(Filter(After(d, '.'), IsDigit), e));
    }
  }

  // -------------------------------------------------------------- one more character

  lemma CutSnoc(p: string, c: char)
    ensures '.' in p ==> Before(p + [c], '.') == Before(p, '.') && After(p + [c], '.') == After(p, '.') + [c]
    ensures '.' !in p && c != '.' ==> '.' !in p + [c] && Before(p + [c], '.') == p + [c]
    ensures '.' !in p && c == '.' ==> Before(p + [c], '.') == p && After(p + [c], '.') == ""
  {
    if '.' in p {
      assert p + [c] == Before(p, '.') + "." + (After(p, '.') + [c]);
      CutAt(Before(p, '.'), '.', After(p, '.') + [c]);
    } else if c == '.' {
      assert p + [c] == p + "." + "";
      CutAt(p, '.', "");
    } else {
      CutNone(p + [c], '.');
    }
  }

  lemma FilterSnoc(s: string, c: char)
    ensures Filter(s + [c], IsDigit) == if IsDigit(c) then Filter(s, IsDigit) + [c] else Filter(s, IsDigit)
  {
    FilterConcat(s, [c], IsDigit);
    if IsDigit(c) {
      FilterAll([c], IsDigit);
    } else {
      FilterNone([c], IsDigit);
    }
  }

  lemma CleanPrefix(p: string, c: char)
    requires DigitsAndPoints(p + [c])
    ensures DigitsAndPoints(p) && IsDigitOrPoint(c)
  {
    forall i | 0 <= i < |p| ensures IsDigitOrPoint(p[i]) {
      assert p[i] == (p + [c])[i];
    }
    assert (p + [c])[|p|] == c;
  }

  /** A second point is dropped by both, and a first one typed by both. */
  lemma SnocPoint(p: string, e: nat)
    requires DigitsAndPoints(p + ".") && e > 0
    ensures Cleaned(p + ".", e) == PressKey(Cleaned(p, e), ".", Some(e))
  {
    CleanPrefix(p, '.');
    CutSnoc(p, '.');
    hide PressKey;
    hide Cleaned;
    if '.' in p {
      SecondPoint(p, e);
    } else {
      FirstPoint(p, e);
    }
  }

  lemma SecondPoint(p: string, e: nat)
    requires DigitsAndPoints(p) && DigitsAndPoints(p + ".") && e > 0 && '.' in p
    requires Before(p + ".", '.') == Before(p, '.') && After(p + ".", '.') == After(p, '.') + "."
    ensures Cleaned(p + ".", e) == PressKey(Cleaned(p, e), ".", Some(e))
  {
    hide Before;
    hide After;
    hide StripZeros;
    hide DigitsAndPoints;
    FilterSnoc(After(p, '.'), '.');
    hide Filter;
    hide Take;
    var w := StripZeros(Before(p, '.'));
    assert '.' in p + "." by { assert (p + ".")[|p|] == '.'; }
    assert '.' in Cleaned(p, e) by {
      assert Cleaned(p, e)[if w == "" then 1 else |w|] == '.';
    }
  }

  lemma FirstPoint(p: string, e: nat)
    requires DigitsAndPoints(p) && DigitsAndPoints(p + ".") && e > 0 && '.' !in p
    requires Before(p + ".", '.') == p && After(p + ".", '.') == ""
    ensures Cleaned(p + ".", e) == PressKey(Cleaned(p, e), ".", Some(e))
  {
    var w := StripZeros(p);
    CutNone(p, '.');
    AfterIsClean(p);
    StripZerosDigits(p);
    DigitsOnly(w);
    hide StripZeros;
    hide Before;
    hide After;
    hide AllDigits;
    hide DigitsAndPoints;
    assert '.' in p + "." by { assert (p + ".")[|p|] == '.'; }
    assert Take(Filter("", IsDigit), e) == "";
    assert Cleaned(p + ".", e) == (if w == "" then "0" else w) + "." + "";
  }

  lemma SnocWhole(p: string, c: char, e: nat)
    requires DigitsAndPoints(p) && IsDigit(c) && '.' !in p
    requires CountDigits(Cleaned(p + [c], e)) <= 12
    ensures Cleaned(p + [c], e) == PressKey(Cleaned(p, e), [c], Some(e))
  {
    CutSnoc(p, c);
    CutNone(p, '.');
    AfterIsClean(p);
    var w := StripZeros(p);
    StripZerosDigits(p);
    StripZerosAppend(p, [c]);
    var next := w + [c];
    DigitsOnly(next);
    assert StripZeros(next) == Cleaned(p + [c], e);
    StripZerosDigits(next);
    DigitsOnly(StripZeros(next));
    StripZerosOnce(w, c);
  }

  lemma StripZerosOnce(w: string, c: char)
    requires AllDigits(w) && (|w| > 1 ==> w[0] != '0') && IsDigit(c)
    ensures StripZeros(w + [c]) == if w == "0" then [c] else w + [c]
  {
    var next := w + [c];
    if w == "0" {
      assert next[1..] == [c];
    } else if w != "" {
      assert next[0] == w[0];
      assert |w| == 1 ==> w == [w[0]];
    }
  }

  lemma SnocFrac(p: string, c: char, e: nat)
    requires DigitsAndPoints(p) && IsDigit(c) && '.' in p && e > 0
    requires CountDigits(Cleaned(p + [c], e)) <= 12
    ensures Cleaned(p + [c], e) == PressKey(Cleaned(p, e), [c], Some(e))
  {
    hide PressKey;
    hide Filter;
    hide Before;
    hide After;
    hide StripZeros;
    CutSnoc(p, c);
    FilterSnoc(After(p, '.'), c);
    CleanedParts(p, e);
    assert DigitsAndPoints(p + [c]);
    CleanedParts(p + [c], e);
    var w := StripZeros(Before(p, '.'));
    var whole := if w == "" then "0" else w;
    var all := Filter(After(p, '.'), IsDigit);
    DigitsKept(After(p, '.'));
    FracPress(whole, Take(all, e), [c], e);
    if |all| < e {
      assert Take(all + [c], e) == Take(all, e) + [c];
    } else {
      assert Take(all + [c], e) == Take(all, e);
    }
  }

  lemma FracPress(whole: string, frac: string, key: string, e: nat)
    requires AllDigits(whole) && whole != "" && (|whole| > 1 ==> whole[0] != '0')
    requires AllDigits(frac) && |frac| <= e && |key| == 1 && IsDigit(key[0])
    requires |frac| < e ==> |whole| + |frac| + 1 <= 12
    ensures PressKey(whole + "." + frac, key, Some(e))
         == if |frac| < e then whole + "." + (frac + key) else whole + "." + frac
  {
    assert whole + "." + frac + key == whole + "." + (frac + key);
    WithPoint(whole, frac + key);
    StripZerosNoop(whole, frac + key);
  }

  // -------------------------------------------------------------------- agreement

  /** A currency with decimals: cleaned to twelve digits or fewer, any string is
      what the keypad makes of its digits and points. */
  lemma {:induction false} CleanedIsKeyed(d: string, e: nat)
    requires DigitsAndPoints(d) && e > 0
    requires CountDigits(Cleaned(d, e)) <= 12
    ensures Keyed(d, e) == Cleaned(d, e)
  {
    if d != "" {
      var p, c := d[..|d| - 1], d[|d| - 1];
      assert d == p + [c];
      CleanPrefix(p, c);
      assert c != '.' ==> IsDigit(c);
      hide *;
      CleanedGrows(p, c, e);
      CleanedIsKeyed(p, e);
      KeyedSnoc(p, c, e);
      if c == '.' {
        SnocPoint(p, e);
      } else if '.' in p {
        SnocFrac(p, c, e);
      } else {
        SnocWhole(p, c, e);
      }
    }
  }

  lemma CleanedGrows(p: string, c: char, e: nat)
    requires DigitsAndPoints(p + [c])
    ensures CountDigits(Cleaned(p, e)) <= CountDigits(Cleaned(p + [c], e))
  {
    CleanPrefix(p, c);
    CleanedParts(p, e);
    CleanedParts(p + [c], e);
    if '.' in p {
      CutSnoc(p, c);
      FilterSnoc(After(p, '.'), c);
    } else {
      WholeGrows(p, c);
    }
  }

  lemma WholeGrows(p: string, c: char)
    requires DigitsAndPoints(p) && IsDigitOrPoint(c) && '.' !in p
    ensures |StripZeros(Before(p, '.'))| <= |StripZeros(Before(p + [c], '.'))|
  {
    CutSnoc(p, c);
    CutNone(p, '.');
    AfterIsClean(p);
    if c != '.' {
      StripZerosDigits(p);
      StripZerosAppend(p, [c]);
      StripZerosOnce(StripZeros(p), c);
    }
  }

  lemma KeyedIsShort(d: string, e: nat)
    requires DigitsAndPoints(d)
    ensures CountDigits(Keyed(d, e)) <= 12
  {
    forall i | 0 <= i < |d| ensures IsKey(Keys(d)[i]) {
      assert IsDigitOrPoint(d[i]);
    }
    KeypadKeepsForm(Keys(d), Some(e));
    FormIsShort(Keyed(d, e), Some(e));
  }

  lemma FormIsShort(s: string, exponent: Option<nat>)
    requires KeypadForm(s, exponent)
    ensures CountDigits(s) <= 12
  {
    if s != "" {
      if '.' in s {
        CountWithPoint(Before(s, '.'), After(s, '.'));
      } else {
        DigitsOnly(s);
      }
    }
  }

  /** For a currency with decimals the cleaner and the keypad agree exactly on the
      strings whose cleaned amount fits the keypad. */
  lemma TypedIsKeyedIffShort(raw: string, e: nat)
    requires e > 0
    ensures Keyed(Filter(raw, IsDigitOrPoint), e) == TypedAmount(raw, e)
        <==> CountDigits(TypedAmount(raw, e)) <= 12
  {
    var d := Filter(raw, IsDigitOrPoint);
    TypedIsCleaned(raw, e);
    FilteredIsClean(raw);
    KeyedIsShort(d, e);
    if CountDigits(Cleaned(d, e)) <= 12 {
      CleanedIsKeyed(d, e);
    }
  }

  // --------------------------------------------------- a currency without decimals

  /** Without decimals the keypad ignores every point and keeps the first twelve
      significant digits, wherever the points stood. */
  lemma {:induction false} KeyedWithoutDecimals(d: string)
    requires DigitsAndPoints(d)
    ensures Keyed(d, 0) == Take(StripZeros(Filter(d, IsDigit)), 12)
  {
    if d != "" {
      var p, c := d[..|d| - 1], d[|d| - 1];
      assert d == p + [c];
      CleanPrefix(p, c);
      KeyedWithoutDecimals(p);
      KeyedSnoc(p, c, 0);
      FilterSnoc(p, c);
      var all := Filter(p, IsDigit);
      DigitsKept(p);
      PressedWithoutDecimals(all, c);
      hide *;
      assert '.' != c ==> IsDigit(c) by { PointOrDigit(c); }
    } else {
      assert Keyed("", 0) == "";
    }
  }

  lemma PointOrDigit(c: char)
    ensures IsDigitOrPoint(c) && c != '.' ==> IsDigit(c)
    ensures !IsDigit('.')
  {
  }

  /** One more key on what twelve digits keep of `all`. */
  lemma PressedWithoutDecimals(all: string, c: char)
    requires AllDigits(all) && IsDigitOrPoint(c)
    ensures PressKey(Take(StripZeros(all), 12), [c], Some(0))
         == Take(StripZeros(if c == '.' then all else all + [c]), 12)
  {
    StripZerosDigits(all);
    var w := StripZeros(all);
    if c != '.' {
      StripZerosAppend(all, [c]);
      StripZerosOnce(w, c);
      hide StripZeros;
      DigitsOnly(Take(w, 12) + [c]);
      CutNone(Take(w, 12) + [c], '.');
    }
  }

  /** The digits before the first point, and those after it. */
  function WholeDigits(raw: string): string {
    Before(Filter(raw, IsDigitOrPoint), '.')
  }

  function LaterDigits(raw: string): string {
    Filter(After(Filter(raw, IsDigitOrPoint), '.'), IsDigit)
  }

  /** Without decimals the two agree exactly when the amount fits and nothing that
      counts follows a point: no digit does, or the box is already full, or every
      digit is a zero after a zero. */
  lemma TypedIsKeyedWithoutDecimals(raw: string)
    ensures Keyed(Filter(raw, IsDigitOrPoint), 0) == TypedAmount(raw, 0)
        <==> && |StripZeros(WholeDigits(raw))| <= 12
             && (|| LaterDigits(raw) == ""
                 || |StripZeros(WholeDigits(raw))| == 12
                 || (WholeDigits(raw) != "" && ToNat(WholeDigits(raw)) == 0 && ToNat(LaterDigits(raw)) == 0))
  {
    var d := Filter(raw, IsDigitOrPoint);
    var whole, later := WholeDigits(raw), LaterDigits(raw);
    TypedIsCleaned(raw, 0);
    FilteredIsClean(raw);
    KeyedWithoutDecimals(d);
    AfterIsClean(d);
    DigitsKept(After(d, '.'));
    AllItsDigits(d);
    StripZerosAppend(whole, later);
    StripZerosDigits(whole);
    StripZerosDigits(later);
    StripZerosValue(whole);
    StripZerosValue(later);
    if whole != "" {
      StrippedZero(whole);
    }
    if later != "" {
      StrippedZero(later);
    }
    StrippedJoin(StripZeros(whole), later);
  }

  lemma AllItsDigits(d: string)
    requires DigitsAndPoints(d)
    ensures Filter(d, IsDigit) == Before(d, '.') + Filter(After(d, '.'), IsDigit)
  {
    AfterIsClean(d);
    if '.' in d {
      DigitsAroundPoint(Before(d, '.'), After(d, '.'));
    } else {
      FilterAll(d, IsDigit);
    }
  }

  lemma DigitsAroundPoint(w: string, r: string)
    requires AllDigits(w)
    ensures Filter(w + "." + r, IsDigit) == w + Filter(r, IsDigit)
  {
    FilterConcat(w + ".", r, IsDigit);
    assert Filter(w + ".", IsDigit) == w by {
      FilterConcat(w, ".", IsDigit);
      FilterAll(w, IsDigit);
      FilterNone(".", IsDigit);
      assert w + "" == w;
    }
  }

  lemma StrippedZero(s: string)
    requires AllDigits(s) && s != ""
    ensures ToNat(s) == 0 <==> StripZeros(s) == "0"
  {
    StripZerosDigits(s);
    StripZerosValue(s);
    ToNatZero(StripZeros(s));
  }

  lemma StrippedJoin(w: string, t: string)
    requires AllDigits(w) && AllDigits(t) && (|w| > 1 ==> w[0] != '0')
    ensures w != "" && w != "0" ==> StripZeros(w + t) == w + t
    ensures w == "" ==> StripZeros(w + t) == StripZeros(t)
    ensures w == "0" && t != "" ==> StripZeros(w + t) == StripZeros(t)
  {
    if w == "" {
      assert w + t == t;
    } else if w == "0" {
      assert t != "" ==> (w + t)[1..] == t && (w + t)[1] == t[0];
    } else {
      assert (w + t)[0] == w[0];
      assert |w| == 1 ==> w == [w[0]];
    }
  }

  // ------------------------------------------------------------------ idempotence

  /** Cleaning a cleaned amount changes nothing, whatever the exponent. */
  lemma TypedIdempotent(raw: string, e: nat)
    ensures TypedAmount(TypedAmount(raw, e), e) == TypedAmount(raw, e)
  {
    var d := Filter(raw, IsDigitOrPoint);
    FilteredIsClean(raw);
    TypedIsCleaned(raw, e);
    hide *;
    CleanedIsStable(d, e);
  }

  lemma CleanedIsStable(d: string, e: nat)
    requires DigitsAndPoints(d)
    ensures TypedAmount(Cleaned(d, e), e) == Cleaned(d, e)
  {
    CleanedParts(d, e);
    hide TypedAmount;
    hide StripZeros;
    hide Before;
    hide AllDigits;
    var w := StripZeros(Before(d, '.'));
    if '.' !in d || e == 0 {
      TypedOfWhole(w, e);
    } else {
      var f := Take(Filter(After(d, '.'), IsDigit), e);
      assert AllDigits(f) by { TakenDigits(After(d, '.'), e); }
      assert AllDigits("0") by { ZeroIsDigits(); }
      hide Take;
      hide Filter;
      TypedOfParts(if w == "" then "0" else w, f, e);
    }
  }

  lemma TakenDigits(s: string, e: nat)
    ensures AllDigits(Take(Filter(s, IsDigit), e))
  {
    DigitsKept(s);
  }

  lemma ZeroIsDigits()
    ensures AllDigits("0")
  {
  }

  lemma StripZerosCanonical(w: string)
    requires |w| > 1 ==> w[0] != '0'
    ensures StripZeros(w) == w
  {
  }

  lemma TypedOfWhole(w: string, e: nat)
    requires AllDigits(w) && (|w| > 1 ==> w[0] != '0')
    ensures TypedAmount(w, e) == w
  {
    TypedIsCleaned(w, e);
    FilterAll(w, IsDigitOrPoint);
    CutNone(w, '.');
  }

  lemma TypedOfParts(w: string, f: string, e: nat)
    requires AllDigits(w) && w != "" && (|w| > 1 ==> w[0] != '0') && AllDigits(f) && |f| <= e && e > 0
    ensures TypedAmount(w + "." + f, e) == w + "." + f
  {
    hide TypedAmount;
    hide Before;
    hide After;
    hide StripZeros;
    hide Filter;
    var s := w + "." + f;
    TypedIsCleaned(s, e);
    StripZerosCanonical(w);
    FilterAll(s, IsDigitOrPoint);
    WithPoint(w, f);
    assert s[|w|] == '.';
    FilterAll(f, IsDigit);
  }
}
