/** `packages/client/src/amount-entry.ts`: the arithmetic of an amount that is a
    string and stays one. The currency's exponent is a parameter; every number is
    an unbounded integer, as a `bigint` is. */
module AmountEntry {
  import opened Text
  import opened Decimal

  const MAX_DIGITS := 12

  predicate IsDigitOrPoint(c: char) {
    IsDigit(c) || c == '.'
  }

  function CountDigits(s: string): nat {
    |Filter(s, IsDigit)|
  }

  /** What one key does to the amount. `None` is a keypad given no exponent. */
  function PressKey(was: string, key: string, exponent: Option<nat>): string {
    if key == "<" then
      (if was == "" then "" else was[..|was| - 1])
    else if key == "000" && was == "" then was
    else if key == "." then
      if '.' in was then was
      else if exponent == Some(0) then was
      else if was == "" then "0."
      else was + "."
    else
      var next := was + key;
      if CountDigits(next) > MAX_DIGITS then was
      else
        var dot := IndexOf(next, '.');
        if exponent.Some? && dot < |next| && |next| - dot - 1 > exponent.value then was
        else StripZeros(next)
  }

  /** A free-typed amount, cleaned. */
  function TypedAmount(raw: string, exponent: nat): string {
    var digits := Filter(raw, IsDigitOrPoint);
    var parts := Split(digits, '.');
    var intPart := StripZeros(parts[0]);
    if |parts| == 1 || exponent == 0 then intPart
    else
      (if intPart == "" then "0" else intPart) + "." + Take(Join(parts[1..], ""), exponent)
  }

  /** `s.slice(0, n)`. */
  function Take(s: string, n: nat): (r: string)
    ensures |r| <= n && |r| <= |s|
  {
    if n <= |s| then s[..n] else s
  }

  /** `s.padEnd(n, '0')`. */
  function PadEnd(s: string, n: nat): (r: string)
    ensures |r| == if |s| < n then n else |s|
  {
    s + Repeat('0', if |s| < n then n - |s| else 0)
  }

  /** `s.padStart(n, '0')`. */
  function PadStart(s: string, n: nat): (r: string)
    ensures |r| == if |s| < n then n else |s|
  {
    Repeat('0', if |s| < n then n - |s| else 0) + s
  }

  /** The second piece of `s.split('.')`, empty when there is one piece. */
  function Fraction(s: string): string {
    var parts := Split(s, '.');
    if |parts| > 1 then parts[1] else ""
  }

  /** `/^[0-9]+(\.[0-9]*)?$/`. */
  predicate IsDecimal(s: string) {
    Before(s, '.') != "" && AllDigits(Before(s, '.')) && AllDigits(After(s, '.'))
  }

  /** A well-formed decimal in minor units, or nothing. */
  function MinorOf(amount: string, scale: nat): Option<nat> {
    var trimmed := Trim(amount);
    if !IsDecimal(trimmed) then None
    else
      var whole, frac := Split(trimmed, '.')[0], Fraction(trimmed);
      if |frac| > scale then None
      else Some(ToNat((if whole == "" then "0" else whole) + PadEnd(frac, scale)))
  }

  /** `spendable.replace(/^-/, '')`. */
  function DropSign(s: string): string {
    if s != "" && s[0] == '-' then s[1..] else s
  }

  predicate IsNegative(s: string) {
    var t := Trim(s);
    t != "" && t[0] == '-'
  }

  function ExceedsBalance(amount: string, spendable: Option<string>, scale: nat): Option<bool> {
    if spendable.None? then None
    else
      var asked := MinorOf(amount, scale);
      var held := MinorOf(DropSign(spendable.value), scale);
      if asked.None? || held.None? then None
      else if IsNegative(spendable.value) then Some(asked.value > 0)
      else Some(asked.value > held.value)
  }

  /** `s.match(/\d+/)`: the first run of digits. */
  function FirstRun(s: string): string {
    if s == "" then ""
    else if IsDigit(s[0]) then LeadingDigits(s)
    else FirstRun(s[1..])
  }

  function LeadingDigits(s: string): string {
    if s != "" && IsDigit(s[0]) then [s[0]] + LeadingDigits(s[1..]) else ""
  }

  function Reverse(s: string): (r: string)
    ensures |r| == |s|
    ensures forall i :: 0 <= i < |r| ==> r[i] == s[|s| - 1 - i]
  {
    if s == "" then "" else Reverse(s[1..]) + [s[0]]
  }

  /** The `reduce` over the reversed digits, from index `i` with `out` so far. */
  function GroupFold(reversed: string, i: nat, out: string): string
    requires i <= |reversed|
    decreases |reversed| - i
  {
    if i == |reversed| then out
    else
      var d := reversed[i];
      GroupFold(reversed, i + 1, if i > 0 && i % 3 == 0 then [d] + "," + out else [d] + out)
  }

  /** The typed amount, grouped for display. */
  function GroupTyped(amount: string): string {
    var parts := Split(amount, '.');
    var grouped := GroupFold(Reverse(FirstRun(parts[0])), 0, "");
    if |parts| == 1 then grouped else grouped + "." + parts[1]
  }

  /** The amount as `feeOn` reads it: the first two pieces between points, the second
      cut to the currency's decimals, and zero when those are not digits. */
  function TypedMinor(amount: string, scale: nat): nat {
    var trimmed := Trim(amount);
    var whole, frac := Split(trimmed, '.')[0], Fraction(trimmed);
    var digits := (if whole == "" then "0" else whole) + Take(PadEnd(frac, scale), scale);
    if AllDigits(digits) then ToNat(digits) else 0
  }

  /** `numerator / 10000n`, rounded up. */
  function FeeMinor(typed: nat, basisPoints: nat): nat {
    var numerator := typed * basisPoints;
    numerator / 10000 + if numerator % 10000 == 0 then 0 else 1
  }

  /** A whole number of minor units, printed in major units. */
  function MajorText(minor: nat, scale: nat): string {
    var text := PadStart(NatText(minor), scale + 1);
    if scale == 0 then text
    else text[..|text| - scale] + "." + text[|text| - scale..]
  }

  /** The fee on an amount. The rate is the `number` the server sent, truncated. */
  function FeeOn(amount: string, basisPoints: real, scale: nat): string {
    var typed := TypedMinor(amount, scale);
    if amount == "" || basisPoints <= 0.0 || typed == 0 then
      if scale == 0 then "0" else "0." + Repeat('0', scale)
    else
      MajorText(FeeMinor(typed, basisPoints.Floor), scale)
  }

  /** A half-typed amount, as a figure that can be drawn. */
  function FigureOf(typed: string): string {
    var t := Trim(typed);
    var trimmed := if t != "" && t[|t| - 1] == '.' then t[..|t| - 1] else t;
    if IsDecimal(trimmed) && ('.' in trimmed ==> After(trimmed, '.') != "") then trimmed else "0"
  }
}
