/** The whitelisted test phones (`apps/api/src/config.ts`, `parseTestAccounts`), kept in
    the form registration stores. */
module TestAccounts {
  import opened Text
  import opened EnvList
  import opened Phone

  /** What survives `replace(/[\s-]/g, '')`. */
  predicate IsWritten(c: char) {
    !IsSpace(c) && c != '-'
  }

  function Body(entry: string): string {
    var written := Filter(entry, IsWritten);
    if StartsWith(written, "+") then written[1..] else written
  }

  /** `/^\+?[1-9][0-9]{7,14}$/` on what is written. */
  predicate IsAccountPhone(entry: string) {
    8 <= |Body(entry)| <= 15 && IsNumber(Body(entry))
  }

  function Mapped(entries: seq<string>): Result<seq<string>, string> {
    if entries == [] then Ok([])
    else if !IsAccountPhone(entries[0]) then Err(entries[0])
    else
      var rest := Mapped(entries[1..]);
      if rest.Err? then rest else Ok(["+" + Body(entries[0])] + rest.value)
  }

  function Listed(raw: Option<string>): seq<string> {
    if Optional(raw).None? then [] else Entries(raw.value)
  }

  function ParsePhones(raw: Option<string>): Result<seq<string>, string> {
    Mapped(Listed(raw))
  }

  /** Spaces and dashes do not count, wherever they stand. */
  lemma SpacingDoesNotCount(a: string, spacing: string, b: string)
    requires forall i :: 0 <= i < |spacing| ==> IsSpace(spacing[i]) || spacing[i] == '-'
    ensures Body(a + spacing + b) == Body(a + b) && (IsAccountPhone(a + spacing + b) <==> IsAccountPhone(a + b))
  {
    hide IsSpace;
    FilterConcat(a + spacing, b, IsWritten);
    FilterConcat(a, spacing, IsWritten);
    FilterNone(spacing, IsWritten);
    FilterConcat(a, b, IsWritten);
    hide Filter;
  }

  /** Without them, a phone is a plus or nothing, a digit from 1 to 9 and seven to
      fourteen more digits. */
  lemma AccountPhoneExactly(entry: string)
    requires forall i :: 0 <= i < |entry| ==> !IsSpace(entry[i]) && entry[i] != '-'
    ensures var i := if entry != "" && entry[0] == '+' then 1 else 0;
            && (IsAccountPhone(entry)
                <==> 8 <= |entry| - i <= 15 && '1' <= entry[i] <= '9'
                     && forall k :: i < k < |entry| ==> '0' <= entry[k] <= '9')
            && Body(entry) == entry[i..]
  {
    BodyWithoutSpacing(entry);
    hide Body;
    hide IsSpace;
    var i := if entry != "" && entry[0] == '+' then 1 else 0;
    NumberInCharacters(entry, i);
  }

  lemma BodyWithoutSpacing(entry: string)
    requires forall i :: 0 <= i < |entry| ==> !IsSpace(entry[i]) && entry[i] != '-'
    ensures Body(entry) == entry[if entry != "" && entry[0] == '+' then 1 else 0..]
  {
    FilterAll(entry, IsWritten);
    hide Filter;
    hide IsSpace;
    assert StartsWith(entry, "+") <==> entry != "" && entry[0] == '+';
  }

  lemma NumberInCharacters(entry: string, i: nat)
    requires i <= |entry|
    ensures IsNumber(entry[i..])
        <==> i < |entry| && '1' <= entry[i] <= '9' && forall k :: i < k < |entry| ==> '0' <= entry[k] <= '9'
  {
    var body := entry[i..];
    assert forall k :: i <= k < |entry| ==> entry[k] == body[k - i];
    assert forall k :: 0 <= k < |body| ==> body[k] == entry[k + i];
  }

  /** No variable, or a blank one, names no phone. */
  lemma UnsetNamesNone(raw: Option<string>)
    ensures raw.None? || Trim(raw.value) == "" ==> ParsePhones(raw) == Ok([])
  {
    hide Trim;
  }

  // -------------------------------------------------------------- the list, exactly

  /** Each phone is the entry in its place. */
  predicate AreAccepted(entries: seq<string>, phones: seq<string>) {
    && |phones| == |entries|
    && forall i :: 0 <= i < |entries| ==> IsAccountPhone(entries[i]) && phones[i] == "+" + Body(entries[i])
  }

  lemma AcceptedCons(entries: seq<string>, phones: seq<string>)
    requires entries != []
    ensures AreAccepted(entries, phones)
        <==> && phones != [] && IsAccountPhone(entries[0]) && phones[0] == "+" + Body(entries[0])
             && AreAccepted(entries[1..], phones[1..])
  {
    hide Body;
    hide IsAccountPhone;
    if phones != [] {
      var e, p := entries[1..], phones[1..];
      assert forall i :: 1 <= i < |entries| ==> entries[i] == e[i - 1];
      assert forall i :: 1 <= i < |phones| ==> phones[i] == p[i - 1];
      assert forall i :: 0 <= i < |e| ==> e[i] == entries[i + 1];
      assert forall i :: 0 <= i < |p| ==> p[i] == phones[i + 1];
    }
  }

  /** No entry is dropped: the list is accepted exactly when every entry is a phone, in
      order, ... */
  lemma {:induction false} MappedExactly(entries: seq<string>, phones: seq<string>)
    ensures Mapped(entries) == Ok(phones) <==> AreAccepted(entries, phones)
  {
    if entries != [] {
      var rest := Mapped(entries[1..]);
      AcceptedCons(entries, phones);
      if phones != [] {
        MappedExactly(entries[1..], phones[1..]);
        assert phones == [phones[0]] + phones[1..];
      }
      hide AreAccepted;
      hide Body;
      hide IsAccountPhone;
      assert rest.Ok? ==> (["+" + Body(entries[0])] + rest.value)[1..] == rest.value;
    }
  }

  /** ... and otherwise the first that is not one is named. */
  lemma {:induction false} FirstRefused(entries: seq<string>) returns (i: nat)
    requires Mapped(entries).Err?
    ensures i < |entries| && !IsAccountPhone(entries[i]) && Mapped(entries).error == entries[i]
    ensures forall j :: 0 <= j < i ==> IsAccountPhone(entries[j])
  {
    hide IsAccountPhone;
    if !IsAccountPhone(entries[0]) {
      i := 0;
    } else {
      var k := FirstRefused(entries[1..]);
      i := k + 1;
      assert forall j :: 1 <= j < i ==> entries[j] == entries[1..][j - 1];
    }
  }

  // --------------------------------------------------------- against registration

  /** Every accepted phone is in stored form, and every country reads it as itself. */
  lemma AcceptedIsFixed(entry: string, dialCode: string)
    requires IsAccountPhone(entry) && Digits(dialCode) != ""
    ensures IsStored("+" + Body(entry))
    ensures E164(dialCode, "+" + Body(entry)) == Some("+" + Body(entry))
  {
    var p := "+" + Body(entry);
    assert p[1..] == Body(entry);
    StoredIsFixed(dialCode, p);
  }

  lemma {:induction false} WrittenHasTheDigits(s: string)
    ensures Digits(Filter(s, IsWritten)) == Digits(s)
  {
    if s != "" {
      WrittenHasTheDigits(s[1..]);
      var kept := Filter(s[1..], IsWritten);
      if IsWritten(s[0]) {
        assert ([s[0]] + kept)[1..] == kept;
      }
    }
  }

  lemma AccountDigits(entry: string)
    requires IsAccountPhone(entry)
    ensures Digits(entry) == Body(entry)
  {
    var written := Filter(entry, IsWritten);
    WrittenHasTheDigits(entry);
    FilterAll(Body(entry), IsDigit);
  }

  /** The very text of an accepted entry, given at registration, is stored as the phone
      accepted here exactly when it starts with a plus or with the country's code. */
  lemma RegisteredAsListedExactly(entry: string, dialCode: string)
    requires IsEntry(entry) && IsAccountPhone(entry) && Digits(dialCode) != ""
    ensures E164(dialCode, entry) == Some("+" + Body(entry))
        <==> StartsWith(entry, "+") || StartsWith(Body(entry), Digits(dialCode))
  {
    hide *;
    AccountDigits(entry);
    BodyIsNumber(entry);
    ReadAsWritten(dialCode, entry);
    PlusRead(dialCode, entry, Body(entry));
  }

  lemma BodyIsNumber(entry: string)
    requires IsAccountPhone(entry)
    ensures IsNumber(Body(entry)) && 8 <= |Body(entry)| <= 15
  {
  }

  lemma PlusRead(dialCode: string, entry: string, d: string)
    ensures E164(dialCode, entry) == Some("+" + d) <==> InternationalDigits(dialCode, entry) == Some(d)
  {
    hide InternationalDigits;
    var r := InternationalDigits(dialCode, entry);
    assert r.Some? ==> ("+" + r.value)[1..] == r.value;
    assert ("+" + d)[1..] == d;
  }

  lemma ReadAsWritten(dialCode: string, entry: string)
    requires Digits(dialCode) != "" && IsNumber(Digits(entry)) && 8 <= |Digits(entry)| <= 15
    requires IsEntry(entry)
    ensures InternationalDigits(dialCode, entry) == Some(Digits(entry))
        <==> StartsWith(entry, "+") || StartsWith(Digits(entry), Digits(dialCode))
  {
    hide Digits;
    hide Trim;
    hide AllDigits;
    TrimTight(entry);
    var c, d := Digits(dialCode), Digits(entry);
    assert DropZeros(d) == d;
    assert |c + d| > |d|;
  }

  // -------------------------------------------------------------------- round trip

  predicate IsListed(phone: string) {
    9 <= |phone| <= 16 && phone[0] == '+' && IsNumber(phone[1..])
  }

  lemma ListedIsEntry(phone: string)
    requires IsListed(phone)
    ensures IsEntry(phone) && IsAccountPhone(phone) && "+" + Body(phone) == phone
  {
    ListedCharacters(phone);
    hide IsSpace;
    hide IsWritten;
    hide AllDigits;
    FilterAll(phone, IsWritten);
    hide Filter;
  }

  lemma ListedCharacters(phone: string)
    requires IsListed(phone)
    ensures forall i :: 0 <= i < |phone| ==> phone[i] != ',' && !IsSpace(phone[i]) && IsWritten(phone[i])
  {
    assert forall i :: 1 <= i < |phone| ==> phone[i] == phone[1..][i - 1] && IsDigit(phone[i]);
  }

  /** Accepted phones, joined with commas, are accepted again as they are. */
  lemma PhonesRoundTrip(phones: seq<string>)
    requires phones != [] && forall i :: 0 <= i < |phones| ==> IsListed(phones[i])
    ensures ParsePhones(Some(Join(phones, ","))) == Ok(phones)
  {
    hide Body;
    hide IsEntry;
    hide IsAccountPhone;
    hide IsListed;
    hide Entries;
    hide IsBlank;
    var raw := Join(phones, ",");
    hide Join;
    forall i | 0 <= i < |phones|
      ensures IsEntry(phones[i]) && IsAccountPhone(phones[i]) && "+" + Body(phones[i]) == phones[i]
    {
      ListedIsEntry(phones[i]);
    }
    EntriesOfJoin(phones);
    MappedExactly(phones, phones);
    if IsBlank(raw) {
      BlankHasNoEntries(raw);
      assert false;
    }
  }
}
