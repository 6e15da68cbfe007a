/** Phone numbers in international form (`apps/api/src/phone.ts`): one canonical
    spelling of a number that people write in several ways, at most the fifteen digits
    of section 6.1 of ITU-T E.164. */
module Phone {
  import opened Text

  function Digits(s: string): string {
    Filter(s, IsDigit)
  }

  predicate StartsWith(s: string, prefix: string) {
    prefix <= s
  }

  /** `s.replace(/^0+/, '')`: unlike an amount, a number may lose its last zero. */
  function DropZeros(s: string): string {
    if s != "" && s[0] == '0' then DropZeros(s[1..]) else s
  }

  predicate HasPlus(national: string) {
    StartsWith(Trim(national), "+")
  }

  function InternationalDigits(dialCode: string, national: string): Option<string> {
    var code := Digits(dialCode);
    var digits := Digits(Trim(national));
    if code == "" || digits == "" then None
    else
      var international :=
        if HasPlus(national) || (StartsWith(digits, code) && !StartsWith(digits, "0")) then digits
        else code + DropZeros(digits);
      if |international| < 8 || |international| > 15 then None else Some(international)
  }

  function E164(dialCode: string, national: string): Option<string> {
    var digits := InternationalDigits(dialCode, national);
    if digits.None? then None else Some("+" + digits.value)
  }

  /** A plus counts when nothing but spaces comes before it. */
  lemma PlusExactly(s: string)
    ensures HasPlus(s) <==> exists i :: 0 <= i < |s| && s[i] == '+' && forall k :: 0 <= k < i ==> IsSpace(s[k])
  {
    var t := TrimStart(s);
    TrimStartTakesSpaces(s);
    assert t == s[|s| - |t|..];
    if t != "" {
      TrimEndKeepsFirst(t);
      assert t[0] == s[|s| - |t|];
    }
    assert HasPlus(s) <==> t != "" && t[0] == '+';
    hide HasPlus;
    if i :| 0 <= i < |s| && s[i] == '+' && forall k :: 0 <= k < i ==> IsSpace(s[k]) {
      assert !IsSpace('+');
      assert i >= |s| - |t|;
      assert i <= |s| - |t|;
    }
  }

  lemma {:induction false} TrimStartTakesSpaces(s: string)
    ensures forall i :: 0 <= i < |s| - |TrimStart(s)| ==> IsSpace(s[i])
  {
    if s != "" && IsSpace(s[0]) {
      var rest := s[1..];
      TrimStartTakesSpaces(rest);
      assert TrimStart(s) == TrimStart(rest);
      hide *;
      forall i | 0 <= i < |s| - |TrimStart(s)| ensures IsSpace(s[i]) {
        if i > 0 {
          assert s[i] == rest[i - 1];
        }
      }
    }
  }

  // ------------------------------------------------------------------- spellings

  lemma {:induction false} DropZerosForm(s: string) returns (n: nat)
    ensures s == Repeat('0', n) + DropZeros(s)
    ensures n > 0 <==> s != "" && s[0] == '0'
    ensures DropZeros(s) != "" ==> DropZeros(s)[0] != '0'
  {
    if s != "" && s[0] == '0' {
      var m := DropZerosForm(s[1..]);
      n := m + 1;
      assert Repeat('0', n) == ['0'] + Repeat('0', m);
      assert s == [s[0]] + s[1..];
    } else {
      n := 0;
    }
  }

  lemma {:induction false} DropZerosOf(n: nat, s: string)
    requires s != "" && s[0] != '0'
    ensures DropZeros(Repeat('0', n) + s) == s
  {
    if n > 0 {
      assert (Repeat('0', n) + s)[1..] == Repeat('0', n - 1) + s;
      DropZerosOf(n - 1, s);
    } else {
      assert Repeat('0', n) + s == s;
    }
  }

  lemma TrimKeepsDigits(s: string)
    ensures Digits(Trim(s)) == Digits(s)
  {
    TrimStartKeepsDigits(s);
    TrimEndKeepsDigits(TrimStart(s));
  }

  lemma {:induction false} TrimStartKeepsDigits(s: string)
    ensures Digits(TrimStart(s)) == Digits(s)
  {
    if s != "" && IsSpace(s[0]) {
      TrimStartKeepsDigits(s[1..]);
    }
  }

  lemma {:induction false} TrimEndKeepsDigits(s: string)
    ensures Digits(TrimEnd(s)) == Digits(s)
  {
    if s != "" && IsSpace(s[|s| - 1]) {
      var front, last := s[..|s| - 1], s[|s| - 1..];
      TrimEndKeepsDigits(front);
      FilterNone(last, IsDigit);
      FilterConcat(front, last, IsDigit);
      assert s == front + last;
    }
  }

  predicate IsNumber(s: string) {
    AllDigits(s) && s != "" && s[0] != '0'
  }

  /** One or more trunk zeros, then the national number. */
  ghost predicate Trunked(digits: string, s: string) {
    exists n: nat :: n > 0 && digits == Repeat('0', n) + s
  }

  lemma TrunkedForm(digits: string, s: string)
    requires IsNumber(s)
    ensures Trunked(digits, s) <==> digits != "" && digits[0] == '0' && DropZeros(digits) == s
    ensures digits == s ==> DropZeros(digits) == s && !Trunked(digits, s)
  {
    var n := DropZerosForm(digits);
    if Trunked(digits, s) {
      var m: nat :| m > 0 && digits == Repeat('0', m) + s;
      DropZerosOf(m, s);
      assert digits[0] == Repeat('0', m)[0];
    }
  }

  /** What a customer may write for the national number `s` under the code `c`. Only
      the digits and a leading plus matter: spaces, dashes and brackets do not. */
  ghost predicate Spells(national: string, c: string, s: string) {
    var digits := Digits(national);
    if HasPlus(national) then digits == c + s
    else digits == c + s || Trunked(digits, s) || (digits == s && !StartsWith(s, c))
  }

  /** Every spelling of a number gives its international form, and nothing else does:
      with a plus and the code, with the code alone, with any number of trunk zeros,
      and bare, unless the bare number happens to start with the code. */
  lemma SpellingsOfANumber(dialCode: string, national: string, s: string)
    requires IsNumber(Digits(dialCode)) && IsNumber(s)
    requires 8 <= |Digits(dialCode) + s| <= 15
    ensures E164(dialCode, national) == Some("+" + Digits(dialCode) + s)
        <==> Spells(national, Digits(dialCode), s)
  {
    var c, digits := Digits(dialCode), Digits(national);
    TrimKeepsDigits(national);
    var r := InternationalDigits(dialCode, national);
    PlusForm(r, c, s);
    if digits == "" {
      assert !Trunked(digits, s);
    } else if !HasPlus(national) {
      assert r == if 8 <= |Read(c, digits)| <= 15 then Some(Read(c, digits)) else None;
      ReadsNational(c, digits, s);
    }
  }

  lemma PlusForm(r: Option<string>, c: string, s: string)
    ensures (if r.None? then None else Some("+" + r.value)) == Some("+" + c + s) <==> r == Some(c + s)
  {
    assert "+" + c + s == "+" + (c + s);
    assert r.Some? ==> ("+" + r.value)[1..] == r.value;
    assert ("+" + (c + s))[1..] == c + s;
  }

  /** How digits without a plus are read. */
  function Read(c: string, digits: string): string {
    if StartsWith(digits, c) && !StartsWith(digits, "0") then digits else c + DropZeros(digits)
  }

  lemma ReadsNational(c: string, digits: string, s: string)
    requires IsNumber(c) && IsNumber(s) && digits != ""
    ensures Read(c, digits) == c + s
        <==> digits == c + s || Trunked(digits, s) || (digits == s && !StartsWith(s, c))
  {
    TrunkedForm(digits, s);
    var n := DropZerosForm(digits);
    hide Trunked;
    hide AllDigits;
    assert (c + s)[0] == c[0];
    assert (c + s)[|c|..] == s;
    assert (c + DropZeros(digits))[|c|..] == DropZeros(digits);
    assert digits[0] != '0' ==> DropZeros(digits) == digits;
    assert StartsWith(digits, "0") <==> digits[0] == '0';
    assert digits == c + s ==> StartsWith(digits, c);
    assert StartsWith(s, c) && digits == s ==> |s| < |c + s|;
  }

  /** A bare national number that starts with the code's digits is taken for an
      international one: it is stored as itself, without the code, or refused when it is
      too short to be one. */
  lemma BareNumberExactly(dialCode: string, s: string)
    requires IsNumber(Digits(dialCode)) && IsNumber(s)
    requires 8 <= |Digits(dialCode) + s| <= 15
    ensures E164(dialCode, s)
         == if !StartsWith(s, Digits(dialCode)) then Some("+" + (Digits(dialCode) + s))
            else if 8 <= |s| then Some("+" + s)
            else None
    ensures E164(dialCode, s) == Some("+" + Digits(dialCode) + s) <==> !StartsWith(s, Digits(dialCode))
  {
    FilterAll(s, IsDigit);
    TrimTight(s);
    var c := Digits(dialCode);
    assert "+" + c + s == "+" + (c + s);
    assert |"+" + s| < |"+" + (c + s)|;
    assert StartsWith(s, "0") <==> s[0] == '0';
    assert DropZeros(s) == s;
    hide Digits;
    hide Trim;
    hide AllDigits;
  }

  /** Two numbers written with trunk zeros, or with the code, are stored as one exactly
      when they are one. */
  lemma StoredAsOneExactly(dialCode: string, n1: string, s1: string, n2: string, s2: string)
    requires IsNumber(Digits(dialCode)) && IsNumber(s1) && IsNumber(s2)
    requires 8 <= |Digits(dialCode) + s1| <= 15 && 8 <= |Digits(dialCode) + s2| <= 15
    requires Spells(n1, Digits(dialCode), s1) && Spells(n2, Digits(dialCode), s2)
    ensures E164(dialCode, n1) == E164(dialCode, n2) <==> s1 == s2
  {
    var c := Digits(dialCode);
    SpellingsOfANumber(dialCode, n1, s1);
    SpellingsOfANumber(dialCode, n2, s2);
    assert ("+" + c + s1)[1 + |c|..] == s1 && ("+" + c + s2)[1 + |c|..] == s2;
  }

  /** Separators inside a number change nothing about how it is stored, unless they
      bring or take away a leading plus. */
  lemma SeparatorsDoNotMatter(dialCode: string, a: string, separators: string, b: string)
    requires forall i :: 0 <= i < |separators| ==> !IsDigit(separators[i])
    requires HasPlus(a + separators + b) <==> HasPlus(a + b)
    ensures E164(dialCode, a + separators + b) == E164(dialCode, a + b)
  {
    DigitsWithout(a, separators, b);
    SameDigitsSamePhone(dialCode, a + separators + b, a + b);
  }

  lemma DigitsWithout(a: string, separators: string, b: string)
    requires forall i :: 0 <= i < |separators| ==> !IsDigit(separators[i])
    ensures Digits(a + separators + b) == Digits(a + b)
  {
    FilterConcat(a + separators, b, IsDigit);
    FilterConcat(a, separators, IsDigit);
    FilterNone(separators, IsDigit);
    FilterConcat(a, b, IsDigit);
  }

  lemma SameDigitsSamePhone(dialCode: string, m: string, n: string)
    requires Digits(m) == Digits(n) && (HasPlus(m) <==> HasPlus(n))
    ensures E164(dialCode, m) == E164(dialCode, n)
  {
    TrimKeepsDigits(m);
    TrimKeepsDigits(n);
    hide Digits;
    hide HasPlus;
    hide Trim;
  }

  /** After a digit, any separators do: no plus comes before it. */
  lemma SeparatorsInside(dialCode: string, a: string, separators: string, b: string)
    requires a != "" && !IsSpace(a[0]) && forall i :: 0 <= i < |separators| ==> !IsDigit(separators[i])
    ensures E164(dialCode, a + separators + b) == E164(dialCode, a + b)
  {
    FirstCharacter(a, separators + b);
    FirstCharacter(a, b);
    assert a + separators + b == a + (separators + b);
    SeparatorsDoNotMatter(dialCode, a, separators, b);
  }

  lemma FirstCharacter(a: string, b: string)
    requires a != "" && !IsSpace(a[0])
    ensures HasPlus(a + b) <==> a[0] == '+'
  {
    assert (a + b)[0] == a[0];
    assert TrimStart(a + b) == a + b;
    TrimEndKeepsFirst(a + b);
  }

  lemma {:induction false} TrimEndKeepsFirst(s: string)
    requires s != "" && !IsSpace(s[0])
    ensures TrimEnd(s) != "" && TrimEnd(s)[0] == s[0]
  {
    if IsSpace(s[|s| - 1]) {
      TrimEndKeepsFirst(s[..|s| - 1]);
    }
  }

  // ------------------------------------------------------------------ stored form

  predicate IsStored(phone: string) {
    9 <= |phone| <= 16 && phone[0] == '+' && AllDigits(phone[1..])
  }

  lemma StoredReads(phone: string)
    requires IsStored(phone)
    ensures Trim(phone) == phone && Digits(phone) == phone[1..] && HasPlus(phone)
    ensures phone != "" && phone[0] == '+' && 8 <= |phone[1..]| <= 15
  {
    assert IsDigit(phone[1..][|phone| - 2]);
    TrimTight(phone);
    FilterAll(phone[1..], IsDigit);
    assert !IsDigit(phone[0]);
  }

  /** A stored number is read back as itself under every country's code, ... */
  lemma StoredIsFixed(dialCode: string, phone: string)
    requires IsStored(phone) && Digits(dialCode) != ""
    ensures E164(dialCode, phone) == Some(phone)
  {
    StoredReads(phone);
    assert "+" + phone[1..] == phone;
    hide *;
    PlusIsBelieved(dialCode, phone);
  }

  lemma PlusIsBelieved(dialCode: string, national: string)
    requires HasPlus(national) && Digits(dialCode) != "" && 8 <= |Digits(Trim(national))| <= 15
    ensures E164(dialCode, national) == Some("+" + Digits(Trim(national)))
  {
    hide Digits;
    hide Trim;
    hide HasPlus;
    hide DropZeros;
  }

  /** ... every answer is a stored number, and so asking again changes nothing. */
  lemma E164Idempotent(dialCode: string, national: string, other: string)
    ensures var r := E164(dialCode, national);
            r.Some? ==> IsStored(r.value)
                        && (Digits(other) != "" ==> E164(other, r.value) == r)
                        && E164(dialCode, r.value) == r
  {
    var r := E164(dialCode, national);
    if r.Some? {
      var c, digits := Digits(dialCode), Digits(Trim(national));
      var n := DropZerosForm(digits);
      DigitsKept(dialCode);
      DigitsKept(Trim(national));
      assert AllDigits(DropZeros(digits)) by {
        forall i | 0 <= i < |DropZeros(digits)| ensures IsDigit(DropZeros(digits)[i]) {
          assert DropZeros(digits)[i] == digits[n + i];
        }
      }
      assert r.value[1..] == InternationalDigits(dialCode, national).value;
      assert IsStored(r.value);
      StoredIsFixed(dialCode, r.value);
      if Digits(other) != "" {
        StoredIsFixed(other, r.value);
      }
    }
  }

  /** What is refused: no code, no digits, or a length outside eight to fifteen. A plus
      is believed, so a number stored with a zero after its plus was written so. */
  lemma RefusedExactly(dialCode: string, national: string)
    ensures var c, d := Digits(dialCode), Digits(national);
            E164(dialCode, national).None?
            <==> c == "" || d == ""
                 || !(8 <= (if HasPlus(national) || (StartsWith(d, c) && d[0] != '0') then |d|
                            else |c| + |DropZeros(d)|) <= 15)
    ensures IsNumber(Digits(dialCode)) && E164(dialCode, national).Some? ==>
              (E164(dialCode, national).value[1] == '0' <==> HasPlus(national) && Digits(national)[0] == '0')
  {
    TrimKeepsDigits(national);
  }
}
