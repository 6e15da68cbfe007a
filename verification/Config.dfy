/** What the API takes from its environment (`apps/api/src/config.ts`): the keyrings
    that sign sessions and seal secrets, and a rate in basis points.

    Base64 decoding is a parameter. */
module Config {
  import opened Text
  import opened EnvList
  import AmountEntry
  import Fee

  type Bytes = seq<bv8>

  datatype Key = Key(version: string, secret: Bytes)

  datatype Ring = Ring(current: Key, accepted: seq<Key>)

  datatype Error =
    | Missing(variable: string)
    | NotTogether
    | Shapeless(entry: string)
    | BadVersion(version: string)
    | BadLength(version: string, length: nat)
    | Twice(version: string)
    | NotAccepted(current: string)

  // ------------------------------------------------------------------ one entry

  /** `/^v[0-9]+$/`. */
  predicate IsVersion(s: string) {
    |s| > 1 && s[0] == 'v' && AllDigits(s[1..])
  }

  /** A session key has at least this many bytes; ... */
  predicate Signs(length: nat) {
    length >= 32
  }

  /** ... an encryption key has exactly as many as its cipher takes. */
  predicate Seals(length: nat) {
    length == 32
  }

  function KeyOf(entry: string, decode: string -> Bytes, fits: nat -> bool): Result<Key, Error> {
    if ':' !in entry then Err(Shapeless(entry))
    else
      var version, secret := Before(entry, ':'), decode(After(entry, ':'));
      if !IsVersion(version) then Err(BadVersion(version))
      else if !fits(|secret|) then Err(BadLength(version, |secret|))
      else Ok(Key(version, secret))
  }

  predicate Has(keys: seq<Key>, version: string) {
    exists i :: 0 <= i < |keys| && keys[i].version == version
  }

  function Find(keys: seq<Key>, version: string): (r: Option<Key>)
    ensures r.Some? <==> Has(keys, version)
    ensures r.Some? ==> r.value in keys && r.value.version == version
  {
    if keys == [] then None
    else if keys[0].version == version then
      assert Has(keys, version);
      Some(keys[0])
    else
      var r := Find(keys[1..], version);
      assert Has(keys[1..], version) ==> Has(keys, version) by {
        if Has(keys[1..], version) {
          var i :| 0 <= i < |keys[1..]| && keys[1..][i].version == version;
          assert keys[i + 1].version == version;
        }
      }
      assert Has(keys, version) ==> Has(keys[1..], version) by {
        if Has(keys, version) {
          var i :| 0 <= i < |keys| && keys[i].version == version;
          assert keys[1..][i - 1].version == version;
        }
      }
      r
  }

  // -------------------------------------------------------------------- the ring

  /** The entries taken in order onto those already accepted. */
  function Collect(accepted: seq<Key>, entries: seq<string>, decode: string -> Bytes, fits: nat -> bool)
    : Result<seq<Key>, Error>
    decreases entries
  {
    if entries == [] then Ok(accepted)
    else
      match KeyOf(entries[0], decode, fits)
      case Err(e) => Err(e)
      case Ok(key) =>
        if Has(accepted, key.version) then Err(Twice(key.version))
        else Collect(accepted + [key], entries[1..], decode, fits)
  }

  function RingOf(accepted: Result<seq<Key>, Error>, current: string): Result<Ring, Error> {
    match accepted
    case Err(e) => Err(e)
    case Ok(keys) =>
      var found := Find(keys, current);
      if found.None? then Err(NotAccepted(current)) else Ok(Ring(found.value, keys))
  }

  function AccessRing(keys: Option<string>, current: Option<string>, decode: string -> Bytes): Result<Ring, Error> {
    if Optional(keys).None? then Err(Missing("ACCESS_TOKEN_KEYS"))
    else if Optional(current).None? then Err(Missing("ACCESS_TOKEN_CURRENT_VERSION"))
    else RingOf(Collect([], Entries(keys.value), decode, Signs), current.value)
  }

  /** The encryption keyring is optional, as a whole. */
  function SealRing(keys: Option<string>, current: Option<string>, decode: string -> Bytes)
    : Result<Option<Ring>, Error>
  {
    if Optional(keys).None? && Optional(current).None? then Ok(None)
    else if Optional(keys).None? || Optional(current).None? then Err(NotTogether)
    else
      match RingOf(Collect([], Entries(keys.value), decode, Seals), current.value)
      case Err(e) => Err(e)
      case Ok(ring) => Ok(Some(ring))
  }

  // --------------------------------------------------------- the parsers themselves

  method ParseKeyring(keys: Option<string>, current: Option<string>, decode: string -> Bytes)
    returns (r: Result<Ring, Error>)
    ensures r == AccessRing(keys, current, decode)
  {
    hide Collect;
    hide Kept;
    hide Trim;
    hide Before;
    hide After;
    hide IsVersion;
    hide Has;
    CollectDone(decode, Signs);
    if Optional(keys).None? {
      return Err(Missing("ACCESS_TOKEN_KEYS"));
    }
    if Optional(current).None? {
      return Err(Missing("ACCESS_TOKEN_CURRENT_VERSION"));
    }
    var parts, accepted := Split(keys.value, ','), [];
    for i := 0 to |parts|
      invariant Collect([], Kept(parts), decode, Signs) == Collect(accepted, Kept(parts[i..]), decode, Signs)
    {
      CollectPart(accepted, parts, i, decode, Signs);
      var trimmed := Trim(parts[i]);
      if trimmed == "" {
        continue;
      }
      if ':' !in trimmed {
        return Err(Shapeless(trimmed));
      }
      var version, secret := Before(trimmed, ':'), decode(After(trimmed, ':'));
      if !IsVersion(version) {
        return Err(BadVersion(version));
      }
      if |secret| < 32 {
        return Err(BadLength(version, |secret|));
      }
      if Has(accepted, version) {
        return Err(Twice(version));
      }
      accepted := accepted + [Key(version, secret)];
    }
    var found := Find(accepted, current.value);
    r := if found.None? then Err(NotAccepted(current.value)) else Ok(Ring(found.value, accepted));
  }

  method ParseEncryptionKeyring(keys: Option<string>, current: Option<string>, decode: string -> Bytes)
    returns (r: Result<Option<Ring>, Error>)
    ensures r == SealRing(keys, current, decode)
  {
    hide Collect;
    hide Kept;
    hide Trim;
    hide Before;
    hide After;
    hide IsVersion;
    hide Has;
    CollectDone(decode, Seals);
    var raw, version := Optional(keys), Optional(current);
    if raw.None? && version.None? {
      return Ok(None);
    }
    if raw.None? || version.None? {
      return Err(NotTogether);
    }
    var parts, accepted := Split(raw.value, ','), [];
    for i := 0 to |parts|
      invariant Collect([], Kept(parts), decode, Seals) == Collect(accepted, Kept(parts[i..]), decode, Seals)
    {
      CollectPart(accepted, parts, i, decode, Seals);
      var trimmed := Trim(parts[i]);
      if trimmed == "" {
        continue;
      }
      if ':' !in trimmed {
        return Err(Shapeless(trimmed));
      }
      var name, key := Before(trimmed, ':'), decode(After(trimmed, ':'));
      if !IsVersion(name) {
        return Err(BadVersion(name));
      }
      if |key| != 32 {
        return Err(BadLength(name, |key|));
      }
      if Has(accepted, name) {
        return Err(Twice(name));
      }
      accepted := accepted + [Key(name, key)];
    }
    var found := Find(accepted, version.value);
    r := if found.None? then Err(NotAccepted(version.value)) else Ok(Some(Ring(found.value, accepted)));
  }

  lemma CollectDone(decode: string -> Bytes, fits: nat -> bool)
    ensures forall accepted :: Collect(accepted, Kept([]), decode, fits) == Ok(accepted)
  {
  }

  /** One part of the value, as the loops take it. */
  lemma CollectPart(accepted: seq<Key>, parts: seq<string>, i: nat, decode: string -> Bytes, fits: nat -> bool)
    requires i < |parts|
    ensures var all, rest := Collect(accepted, Kept(parts[i..]), decode, fits), Kept(parts[i + 1..]);
            var key := KeyOf(Trim(parts[i]), decode, fits);
            all == if Trim(parts[i]) == "" then Collect(accepted, rest, decode, fits)
                   else if key.Err? then Err(key.error)
                   else if Has(accepted, key.value.version) then Err(Twice(key.value.version))
                   else Collect(accepted + [key.value], rest, decode, fits)
  {
    hide KeyOf;
    hide Has;
    assert parts[i..][1..] == parts[i + 1..];
    var rest, entry := Kept(parts[i + 1..]), Trim(parts[i]);
    if entry != "" {
      assert Kept(parts[i..]) == [entry] + rest;
      assert ([entry] + rest)[1..] == rest;
    }
  }

  // ------------------------------------------------------- what an accepted ring is

  predicate Distinct(keys: seq<Key>) {
    forall i, j :: 0 <= i < j < |keys| ==> keys[i].version != keys[j].version
  }

  predicate AreRead(keys: seq<Key>, entries: seq<string>, decode: string -> Bytes, fits: nat -> bool) {
    && |keys| == |entries|
    && forall i :: 0 <= i < |entries| ==> KeyOf(entries[i], decode, fits) == Ok(keys[i])
  }

  /** Every entry becomes a key, in order, and no version comes twice: nothing else is
      accepted and nothing that is so is refused. */
  lemma {:induction false} CollectExactly(
    accepted: seq<Key>, entries: seq<string>, more: seq<Key>, decode: string -> Bytes, fits: nat -> bool)
    requires Distinct(accepted)
    ensures Collect(accepted, entries, decode, fits) == Ok(accepted + more)
        <==> AreRead(more, entries, decode, fits) && Distinct(accepted + more)
    ensures Collect(accepted, entries, decode, fits).Ok? ==> accepted <= Collect(accepted, entries, decode, fits).value
    decreases entries
  {
    hide KeyOf;
    if entries == [] {
      assert accepted + more == accepted <==> more == [];
    } else {
      var head := KeyOf(entries[0], decode, fits);
      if head.Ok? && !Has(accepted, head.value.version) {
        var a, rest := accepted + [head.value], if more == [] then [] else more[1..];
        CollectExactly(a, entries[1..], rest, decode, fits);
        CollectStep(accepted, head.value, entries, more, decode, fits);
      } else if head.Ok? && AreRead(more, entries, decode, fits) {
        var i :| 0 <= i < |accepted| && accepted[i].version == head.value.version;
        assert (accepted + more)[i] == accepted[i] && (accepted + more)[|accepted|] == more[0];
      }
    }
  }

  lemma CollectStep(
    accepted: seq<Key>, key: Key, entries: seq<string>, more: seq<Key>, decode: string -> Bytes, fits: nat -> bool)
    requires entries != [] && KeyOf(entries[0], decode, fits) == Ok(key)
    ensures AreRead(more, entries, decode, fits)
        <==> more != [] && more[0] == key && AreRead(more[1..], entries[1..], decode, fits)
    ensures more != [] && more[0] == key ==> accepted + more == (accepted + [key]) + more[1..]
    ensures (accepted + [key]) <= accepted + more ==> more != [] && more[0] == key
  {
    hide KeyOf;
    if (accepted + [key]) <= accepted + more {
      assert (accepted + more)[|accepted|] == (accepted + [key])[|accepted|];
    }
    if more != [] && more[0] == key && AreRead(more[1..], entries[1..], decode, fits) {
      forall i | 0 <= i < |entries| ensures KeyOf(entries[i], decode, fits) == Ok(more[i]) {
        if i > 0 {
          assert entries[i] == entries[1..][i - 1] && more[i] == more[1..][i - 1];
        }
      }
    }
  }

  lemma FindUnique(keys: seq<Key>, key: Key)
    requires Distinct(keys) && key in keys
    ensures Find(keys, key.version) == Some(key)
  {
    var i :| 0 <= i < |keys| && keys[i] == key;
    assert Has(keys, key.version);
  }

  /** A ring is accepted exactly when its keys are the entries, in order and of distinct
      versions, and its current key is the one that has the current version. */
  lemma RingExactly(
    entries: seq<string>, current: string, decode: string -> Bytes, fits: nat -> bool, ring: Ring)
    ensures RingOf(Collect([], entries, decode, fits), current) == Ok(ring)
        <==> && AreRead(ring.accepted, entries, decode, fits) && Distinct(ring.accepted)
             && ring.current in ring.accepted && ring.current.version == current
  {
    CollectExactly([], entries, ring.accepted, decode, fits);
    assert [] + ring.accepted == ring.accepted;
    hide AreRead;
    hide Collect;
    if Distinct(ring.accepted) && ring.current in ring.accepted {
      FindUnique(ring.accepted, ring.current);
    }
  }

  // ------------------------------------------------------------- in plain characters

  /** `v`, one or more digits, a colon, and a text that decodes to the secret. */
  predicate IsKeyText(entry: string, key: Key, decode: string -> Bytes) {
    && |key.version| >= 2 && key.version[0] == 'v'
    && (forall i :: 1 <= i < |key.version| ==> '0' <= key.version[i] <= '9')
    && key.version + ":" <= entry
    && key.secret == decode(entry[|key.version| + 1..])
  }

  lemma KeyTextExactly(entry: string, key: Key, decode: string -> Bytes, fits: nat -> bool)
    ensures KeyOf(entry, decode, fits) == Ok(key) <==> IsKeyText(entry, key, decode) && fits(|key.secret|)
  {
    if KeyOf(entry, decode, fits) == Ok(key) {
      KeyIsText(entry, key, decode, fits);
    }
    if IsKeyText(entry, key, decode) && fits(|key.secret|) {
      TextIsKey(entry, key, decode, fits);
    }
    hide *;
  }

  lemma KeyIsText(entry: string, key: Key, decode: string -> Bytes, fits: nat -> bool)
    requires KeyOf(entry, decode, fits) == Ok(key)
    ensures IsKeyText(entry, key, decode) && fits(|key.secret|)
  {
    var v := key.version;
    assert entry == v + ":" + After(entry, ':');
    assert forall i :: 1 <= i < |v| ==> v[i] == v[1..][i - 1];
  }

  lemma TextIsKey(entry: string, key: Key, decode: string -> Bytes, fits: nat -> bool)
    requires IsKeyText(entry, key, decode) && fits(|key.secret|)
    ensures KeyOf(entry, decode, fits) == Ok(key)
  {
    var v, t := key.version, entry[|key.version| + 1..];
    assert IsVersion(v) && ':' !in v;
    assert entry == v + [':'] + t && entry[|v|] == ':';
    hide Before;
    hide After;
    hide IsVersion;
    hide IsKeyText;
    CutAt(v, ':', t);
  }

  predicate IsSet(value: Option<string>) {
    value.Some? && Trim(value.value) != ""
  }

  /** Every entry is the text of the key in its place, versions are pairwise distinct,
      and the current key is the one of the current version. */
  predicate IsRing(ring: Ring, entries: seq<string>, current: string, decode: string -> Bytes) {
    && |ring.accepted| == |entries|
    && (forall i :: 0 <= i < |entries| ==> IsKeyText(entries[i], ring.accepted[i], decode))
    && (forall i, j :: 0 <= i < j < |entries| ==> ring.accepted[i].version != ring.accepted[j].version)
    && ring.current in ring.accepted && ring.current.version == current
  }

  predicate SecretsAtLeast(ring: Ring, length: nat) {
    forall i :: 0 <= i < |ring.accepted| ==> |ring.accepted[i].secret| >= length
  }

  predicate SecretsExactly(ring: Ring, length: nat) {
    forall i :: 0 <= i < |ring.accepted| ==> |ring.accepted[i].secret| == length
  }

  predicate AreTexts(keys: seq<Key>, entries: seq<string>, decode: string -> Bytes, fits: nat -> bool) {
    && |keys| == |entries|
    && forall i :: 0 <= i < |entries| ==> IsKeyText(entries[i], keys[i], decode) && fits(|keys[i].secret|)
  }

  lemma ReadsInCharacters(keys: seq<Key>, entries: seq<string>, decode: string -> Bytes, fits: nat -> bool)
    ensures AreRead(keys, entries, decode, fits) <==> AreTexts(keys, entries, decode, fits)
  {
    hide KeyOf;
    hide IsKeyText;
    if |keys| == |entries| {
      forall i | 0 <= i < |entries|
        ensures KeyOf(entries[i], decode, fits) == Ok(keys[i])
            <==> IsKeyText(entries[i], keys[i], decode) && fits(|keys[i].secret|)
      {
        KeyTextExactly(entries[i], keys[i], decode, fits);
      }
    }
  }

  lemma RingInCharacters(
    entries: seq<string>, current: string, decode: string -> Bytes, fits: nat -> bool, ring: Ring)
    ensures RingOf(Collect([], entries, decode, fits), current) == Ok(ring)
        <==> && IsRing(ring, entries, current, decode)
             && forall i :: 0 <= i < |ring.accepted| ==> fits(|ring.accepted[i].secret|)
  {
    hide Collect;
    hide RingOf;
    hide AreRead;
    hide IsKeyText;
    RingExactly(entries, current, decode, fits, ring);
    ReadsInCharacters(ring.accepted, entries, decode, fits);
  }

  lemma SetExactly(value: Option<string>)
    ensures Optional(value).Some? <==> IsSet(value)
  {
    hide Trim;
  }

  /** The API starts with these session keys if and only if both variables are set, the
      list reads as this ring and every secret has at least 32 bytes. */
  lemma SessionKeysExactly(keys: Option<string>, current: Option<string>, decode: string -> Bytes, ring: Ring)
    ensures AccessRing(keys, current, decode) == Ok(ring)
        <==> && IsSet(keys) && IsSet(current)
             && IsRing(ring, Entries(keys.value), current.value, decode) && SecretsAtLeast(ring, 32)
  {
    SetExactly(keys);
    SetExactly(current);
    hide Collect;
    hide RingOf;
    hide Entries;
    hide Trim;
    hide IsRing;
    hide Optional;
    if IsSet(keys) && IsSet(current) {
      RingInCharacters(Entries(keys.value), current.value, decode, Signs, ring);
    }
  }

  /** What the API says when it does not start for want of a variable, or because the
      current version is none of the list's. */
  lemma RefusalIsNamed(keys: Option<string>, current: Option<string>, decode: string -> Bytes)
    ensures !IsSet(keys) ==> AccessRing(keys, current, decode) == Err(Missing("ACCESS_TOKEN_KEYS"))
    ensures IsSet(keys) && !IsSet(current) ==>
              AccessRing(keys, current, decode) == Err(Missing("ACCESS_TOKEN_CURRENT_VERSION"))
    ensures IsSet(keys) && IsSet(current) ==>
              var read := Collect([], Entries(keys.value), decode, Signs);
              && (read.Err? ==> AccessRing(keys, current, decode) == Err(read.error))
              && (read.Ok? && (forall key :: key in read.value ==> key.version != current.value) ==>
                    AccessRing(keys, current, decode) == Err(NotAccepted(current.value)))
  {
    SetExactly(keys);
    SetExactly(current);
    hide Collect;
    hide Entries;
    hide Trim;
    hide Optional;
    hide Find;
  }

  /** It starts with these encryption keys if and only if both variables are set, the
      list reads as this ring and every secret has exactly 32 bytes; and without any if
      and only if neither is set. */
  lemma EncryptionKeysExactly(keys: Option<string>, current: Option<string>, decode: string -> Bytes, ring: Ring)
    ensures SealRing(keys, current, decode) == Ok(Some(ring))
        <==> && IsSet(keys) && IsSet(current)
             && IsRing(ring, Entries(keys.value), current.value, decode) && SecretsExactly(ring, 32)
    ensures SealRing(keys, current, decode) == Ok(None) <==> !IsSet(keys) && !IsSet(current)
    ensures (IsSet(keys) <==> !IsSet(current)) ==> SealRing(keys, current, decode) == Err(NotTogether)
  {
    SetExactly(keys);
    SetExactly(current);
    hide Collect;
    hide RingOf;
    hide Entries;
    hide Trim;
    hide IsRing;
    hide Optional;
    if IsSet(keys) && IsSet(current) {
      RingInCharacters(Entries(keys.value), current.value, decode, Seals, ring);
    }
  }

  /** What is wrong with an entry that comes after these keys. */
  predicate IsFault(entry: string, earlier: seq<Key>, decode: string -> Bytes, fits: nat -> bool, error: Error) {
    match error
    case Shapeless(e) => e == entry && ':' !in entry
    case BadVersion(v) => v + ":" <= entry && ':' !in v && !IsVersion(v)
    case BadLength(v, n) =>
      v + ":" <= entry && ':' !in v && IsVersion(v) && n == |decode(entry[|v| + 1..])| && !fits(n)
    case Twice(v) => (exists key :: key in earlier && key.version == v) && v + ":" <= entry
    case _ => false
  }

  /** A list that is refused is refused for its first fault: all entries before it are
      keys of distinct versions. */
  lemma {:induction false} FirstFault(
    accepted: seq<Key>, entries: seq<string>, decode: string -> Bytes, fits: nat -> bool) returns (i: nat, keys: seq<Key>)
    requires Collect(accepted, entries, decode, fits).Err? && Distinct(accepted)
    ensures i < |entries| && AreRead(keys, entries[..i], decode, fits) && Distinct(accepted + keys)
    ensures IsFault(entries[i], accepted + keys, decode, fits, Collect(accepted, entries, decode, fits).error)
    decreases entries
  {
    hide *;
    CollectUnfolds(accepted, entries, decode, fits);
    var head := KeyOf(entries[0], decode, fits);
    if head.Ok? && !Has(accepted, head.value.version) {
      var longer := accepted + [head.value];
      DistinctLonger(accepted, head.value);
      var j, more := FirstFault(longer, entries[1..], decode, fits);
      i, keys := j + 1, [head.value] + more;
      assert accepted + keys == longer + more;
      OneMoreRead(head.value, more, entries, j, decode, fits);
    } else {
      i, keys := 0, [];
      FaultOf(entries[0], accepted, decode, fits);
      assert accepted + keys == accepted;
      NoneRead(entries, decode, fits);
    }
  }

  lemma NoneRead(entries: seq<string>, decode: string -> Bytes, fits: nat -> bool)
    ensures AreRead([], entries[..0], decode, fits)
  {
  }

  lemma DistinctLonger(keys: seq<Key>, key: Key)
    requires Distinct(keys) && !Has(keys, key.version)
    ensures Distinct(keys + [key])
  {
  }

  lemma CollectUnfolds(accepted: seq<Key>, entries: seq<string>, decode: string -> Bytes, fits: nat -> bool)
    ensures var all := Collect(accepted, entries, decode, fits);
            if entries == [] then all.Ok?
            else
              var head := KeyOf(entries[0], decode, fits);
              all == if head.Err? then Err(head.error)
                     else if Has(accepted, head.value.version) then Err(Twice(head.value.version))
                     else Collect(accepted + [head.value], entries[1..], decode, fits)
  {
    hide KeyOf;
    hide Has;
  }

  lemma OneMoreRead(
    key: Key, more: seq<Key>, entries: seq<string>, j: nat, decode: string -> Bytes, fits: nat -> bool)
    requires entries != [] && j < |entries| - 1 && KeyOf(entries[0], decode, fits) == Ok(key)
    requires AreRead(more, entries[1..][..j], decode, fits)
    ensures AreRead([key] + more, entries[..j + 1], decode, fits) && entries[1..][j] == entries[j + 1]
  {
    hide KeyOf;
    var rest := entries[1..][..j];
    forall i | 0 <= i < j + 1 ensures KeyOf(entries[..j + 1][i], decode, fits) == Ok(([key] + more)[i]) {
      if i > 0 {
        assert entries[..j + 1][i] == rest[i - 1] && ([key] + more)[i] == more[i - 1];
      }
    }
  }

  lemma FaultOf(entry: string, accepted: seq<Key>, decode: string -> Bytes, fits: nat -> bool)
    ensures var head := KeyOf(entry, decode, fits);
            if head.Err? then IsFault(entry, accepted, decode, fits, head.error)
            else Has(accepted, head.value.version) ==> IsFault(entry, accepted, decode, fits, Twice(head.value.version))
  {
    if ':' in entry {
      var v := Before(entry, ':');
      assert entry == v + ":" + After(entry, ':');
      assert entry[|v| + 1..] == After(entry, ':');
      hide Before;
      hide After;
      if Has(accepted, v) {
        var k :| 0 <= k < |accepted| && accepted[k].version == v;
        assert accepted[k] in accepted;
      }
    }
  }

  // ------------------------------------------------------------------- round trip

  function EntryOf(key: Key, encode: Bytes -> string): string {
    key.version + ":" + encode(key.secret)
  }

  function Printed(keys: seq<Key>, encode: Bytes -> string): (r: seq<string>)
    ensures |r| == |keys| && forall i :: 0 <= i < |r| ==> r[i] == EntryOf(keys[i], encode)
  {
    seq(|keys|, i requires 0 <= i < |keys| => EntryOf(keys[i], encode))
  }

  /** A key the format can carry. Base64 has neither commas nor spaces. */
  predicate Prints(key: Key, encode: Bytes -> string, decode: string -> Bytes, fits: nat -> bool) {
    && IsVersion(key.version) && fits(|key.secret|)
    && decode(encode(key.secret)) == key.secret
    && ',' !in encode(key.secret) && NoSpaces(encode(key.secret))
  }

  lemma EntryReads(key: Key, encode: Bytes -> string, decode: string -> Bytes, fits: nat -> bool)
    requires Prints(key, encode, decode, fits)
    ensures KeyOf(EntryOf(key, encode), decode, fits) == Ok(key)
    ensures IsEntry(EntryOf(key, encode))
  {
    var v, t := key.version, encode(key.secret);
    assert forall i :: 1 <= i < |v| ==> v[i] == v[1..][i - 1] && IsDigit(v[i]);
    CutAt(v, ':', t);
    assert v + ":" + t == v + [':'] + t;
    assert t == "" ==> v + ":" + t == v + ":";
  }

  /** A printed ring is read back as itself, in order, with any spaces and empty entries
      between its commas. */
  lemma RingRoundTrip(
    ring: Ring, pieces: seq<Piece>, encode: Bytes -> string, decode: string -> Bytes, fits: nat -> bool)
    requires forall i :: 0 <= i < |ring.accepted| ==> Prints(ring.accepted[i], encode, decode, fits)
    requires Distinct(ring.accepted) && ring.current in ring.accepted
    requires forall i :: 0 <= i < |pieces| ==> PieceOk(pieces[i])
    requires Texts(pieces) == Printed(ring.accepted, encode)
    ensures RingOf(Collect([], Entries(Written(pieces)), decode, fits), ring.current.version) == Ok(ring)
    ensures !IsBlank(Written(pieces))
  {
    var entries := Printed(ring.accepted, encode);
    hide Entries;
    hide Prints;
    hide KeyOf;
    EntriesOfWritten(pieces);
    forall i | 0 <= i < |entries| ensures KeyOf(entries[i], decode, fits) == Ok(ring.accepted[i]) {
      EntryReads(ring.accepted[i], encode, decode, fits);
    }
    RingExactly(entries, ring.current.version, decode, fits, ring);
    if IsBlank(Written(pieces)) {
      BlankHasNoEntries(Written(pieces));
      assert false;
    }
  }

  // -------------------------------------------------------------------- the fleet

  /** One running instance, as its environment configures it. */
  datatype Instance = Instance(keys: string, current: string)

  function RingAt(x: Instance, decode: string -> Bytes): Result<Ring, Error> {
    AccessRing(Some(x.keys), Some(x.current), decode)
  }

  /** Both start, and what `x` signs `y` can verify. */
  predicate Accepts(y: Instance, x: Instance, decode: string -> Bytes) {
    && RingAt(x, decode).Ok? && RingAt(y, decode).Ok?
    && RingAt(x, decode).value.current in RingAt(y, decode).value.accepted
  }

  predicate Healthy(fleet: seq<Instance>, decode: string -> Bytes) {
    forall i, j :: 0 <= i < |fleet| && 0 <= j < |fleet| ==> Accepts(fleet[j], fleet[i], decode)
  }

  /** An instance after the new key was published to it or not, and after its current
      version was switched or not. */
  function Deployed(x: Instance, entry: string, version: string, published: bool, switched: bool): Instance {
    Instance(if published then x.keys + "," + entry else x.keys, if switched then version else x.current)
  }

  function Fleet(start: seq<Instance>, entry: string, version: string, published: set<nat>, switched: set<nat>)
    : (fleet: seq<Instance>)
    ensures |fleet| == |start|
    ensures forall i :: 0 <= i < |fleet| ==> fleet[i] == Deployed(start[i], entry, version, i in published, i in switched)
  {
    seq(|start|, i requires 0 <= i < |start| => Deployed(start[i], entry, version, i in published, i in switched))
  }

  predicate Everywhere(start: seq<Instance>, published: set<nat>) {
    forall i: nat :: i < |start| ==> i in published
  }

  predicate Nowhere(start: seq<Instance>, switched: set<nat>) {
    forall i: nat :: i < |start| ==> i !in switched
  }

  /** The new key is none of those already out. */
  predicate New(x: Instance, entry: string, key: Key, decode: string -> Bytes) {
    && IsEntry(entry) && KeyOf(entry, decode, Signs) == Ok(key)
    && RingAt(x, decode).Ok? && !Has(RingAt(x, decode).value.accepted, key.version)
  }

  lemma AcceptsKeys(x: Instance, decode: string -> Bytes, ring: Ring)
    ensures RingAt(x, decode) == Ok(ring)
        <==> && !IsBlank(x.keys) && !IsBlank(x.current)
             && AreRead(ring.accepted, Entries(x.keys), decode, Signs) && Distinct(ring.accepted)
             && ring.current in ring.accepted && ring.current.version == x.current
  {
    RingExactly(Entries(x.keys), x.current, decode, Signs, ring);
  }

  lemma VersionNotBlank(key: Key, entry: string, decode: string -> Bytes)
    requires IsEntry(entry) && KeyOf(entry, decode, Signs) == Ok(key)
    ensures !IsBlank(key.version)
  {
    var v := key.version;
    assert IsDigit(v[1..][|v| - 2]);
    TrimTight(v);
  }

  lemma AppendedReads(keys: seq<Key>, raw: string, entry: string, key: Key, decode: string -> Bytes)
    requires AreRead(keys, Entries(raw), decode, Signs) && Distinct(keys)
    requires IsEntry(entry) && KeyOf(entry, decode, Signs) == Ok(key) && !Has(keys, key.version)
    ensures AreRead(keys + [key], Entries(raw + "," + entry), decode, Signs) && Distinct(keys + [key])
    ensures !IsBlank(raw + "," + entry)
  {
    hide KeyOf;
    hide Entries;
    hide IsEntry;
    hide IsBlank;
    EntriesAppend(raw, entry);
    if IsBlank(raw + "," + entry) {
      BlankHasNoEntries(raw + "," + entry);
      assert false;
    }
  }

  function Reads(was: Ring, key: Key, published: bool, switched: bool): Ring {
    Ring(if switched then key else was.current, if published then was.accepted + [key] else was.accepted)
  }

  /** What one instance reads at each point of a rotation. */
  lemma DeployedReads(
    x: Instance, entry: string, key: Key, published: bool, switched: bool, decode: string -> Bytes)
    requires New(x, entry, key, decode)
    ensures var was := RingAt(x, decode).value;
            var r := RingAt(Deployed(x, entry, key.version, published, switched), decode);
            if switched && !published then r.Err?
            else r == Ok(Reads(was, key, published, switched))
  {
    var was := RingAt(x, decode).value;
    var y := Deployed(x, entry, key.version, published, switched);
    AcceptsKeys(x, decode, was);
    hide RingAt;
    hide AreRead;
    if switched && !published {
      SwitchedAloneFails(x, y, key, decode);
    } else {
      VersionNotBlank(key, entry, decode);
      if published {
        AppendedReads(was.accepted, x.keys, entry, key, decode);
      }
      AcceptsKeys(y, decode, Reads(was, key, published, switched));
    }
  }

  lemma SwitchedAloneFails(x: Instance, y: Instance, key: Key, decode: string -> Bytes)
    requires RingAt(x, decode).Ok? && !Has(RingAt(x, decode).value.accepted, key.version)
    requires y == Instance(x.keys, key.version)
    ensures RingAt(y, decode).Err?
  {
    hide Collect;
    hide Find;
    hide Entries;
    hide Optional;
    hide Has;
  }

  lemma KeyHasVersion(keys: seq<Key>, key: Key)
    ensures key in keys ==> Has(keys, key.version)
  {
  }

  /** One instance before its key is published refuses one that has switched; ... */
  lemma UnpublishedRefuses(
    y: Instance, x: Instance, entry: string, key: Key, here: bool, there: bool, decode: string -> Bytes)
    requires New(x, entry, key, decode) && New(y, entry, key, decode)
    ensures !Accepts(Deployed(y, entry, key.version, false, here), Deployed(x, entry, key.version, there, true), decode)
  {
    DeployedReads(x, entry, key, there, true, decode);
    DeployedReads(y, entry, key, false, here, decode);
    KeyHasVersion(RingAt(y, decode).value.accepted, key);
    hide RingAt;
    hide Has;
  }

  /** ... before any switch, or after every publication, they accept each other. */
  lemma RotatedAccepts(
    y: Instance, x: Instance, entry: string, key: Key,
    publishedY: bool, switchedY: bool, publishedX: bool, switchedX: bool, decode: string -> Bytes)
    requires New(x, entry, key, decode) && New(y, entry, key, decode) && Accepts(y, x, decode)
    requires (!switchedX && !switchedY) || (publishedX && publishedY)
    ensures Accepts(Deployed(y, entry, key.version, publishedY, switchedY),
                    Deployed(x, entry, key.version, publishedX, switchedX), decode)
  {
    DeployedReads(x, entry, key, publishedX, switchedX, decode);
    DeployedReads(y, entry, key, publishedY, switchedY, decode);
    hide RingAt;
    hide New;
  }

  /** At any moment of a rotation, with the key on some instances and the switch made on
      some: every instance starts and accepts what every other signs exactly when the
      switch has been made nowhere or the key is everywhere. */
  lemma HealthyExactly(
    start: seq<Instance>, entry: string, key: Key, published: set<nat>, switched: set<nat>, decode: string -> Bytes)
    requires Healthy(start, decode) && forall i :: 0 <= i < |start| ==> New(start[i], entry, key, decode)
    ensures Healthy(Fleet(start, entry, key.version, published, switched), decode)
        <==> Nowhere(start, switched) || Everywhere(start, published)
  {
    var fleet := Fleet(start, entry, key.version, published, switched);
    hide Accepts;
    hide New;
    hide Deployed;
    if Nowhere(start, switched) || Everywhere(start, published) {
      forall i, j | 0 <= i < |fleet| && 0 <= j < |fleet| ensures Accepts(fleet[j], fleet[i], decode) {
        RotatedAccepts(start[j], start[i], entry, key, j in published, j in switched, i in published, i in switched, decode);
      }
    } else {
      var i: nat :| i < |start| && i in switched;
      var j: nat :| j < |start| && j !in published;
      UnpublishedRefuses(start[j], start[i], entry, key, j in switched, i in published, decode);
      assert !Accepts(fleet[j], fleet[i], decode);
    }
  }

  datatype Deploy = Publish(instance: nat) | Switch(instance: nat)

  /** The fleet accepts its own sessions now and after every one of these deploys. */
  ghost predicate AlwaysHealthy(
    start: seq<Instance>, entry: string, version: string, published: set<nat>, switched: set<nat>,
    deploys: seq<Deploy>, decode: string -> Bytes)
    decreases deploys
  {
    && Healthy(Fleet(start, entry, version, published, switched), decode)
    && (deploys != [] ==>
          match deploys[0]
          case Publish(i) => AlwaysHealthy(start, entry, version, published + {i}, switched, deploys[1..], decode)
          case Switch(i) => AlwaysHealthy(start, entry, version, published, switched + {i}, deploys[1..], decode))
  }

  /** Two deploys: no instance of the fleet is switched before all have the key. */
  predicate TwoDeploys(start: seq<Instance>, published: set<nat>, deploys: seq<Deploy>)
    decreases deploys
  {
    deploys != [] ==>
      match deploys[0]
      case Publish(i) => TwoDeploys(start, published + {i}, deploys[1..])
      case Switch(i) => (i < |start| ==> Everywhere(start, published)) && TwoDeploys(start, published, deploys[1..])
  }

  /** Whatever the order within each deploy, a rotation never refuses a session exactly
      when it is two deploys. */
  lemma {:induction false} RotationExactly(
    start: seq<Instance>, entry: string, key: Key, published: set<nat>, switched: set<nat>,
    deploys: seq<Deploy>, decode: string -> Bytes)
    requires Healthy(start, decode) && forall i :: 0 <= i < |start| ==> New(start[i], entry, key, decode)
    requires Nowhere(start, switched) || Everywhere(start, published)
    ensures AlwaysHealthy(start, entry, key.version, published, switched, deploys, decode)
        <==> TwoDeploys(start, published, deploys)
    decreases deploys
  {
    hide Healthy;
    hide New;
    HealthyExactly(start, entry, key, published, switched, decode);
    if deploys != [] {
      match deploys[0]
      case Publish(i) =>
        RotationExactly(start, entry, key, published + {i}, switched, deploys[1..], decode);
      case Switch(i) =>
        HealthyExactly(start, entry, key, published, switched + {i}, decode);
        if i >= |start| || Everywhere(start, published) {
          RotationExactly(start, entry, key, published, switched + {i}, deploys[1..], decode);
        }
    }
  }

  /** A fleet whose instances all hold one printed keyring, each spaced as it likes: it
      rotates to a new printed key safely exactly in two deploys. */
  lemma PrintedFleetRotates(
    ring: Ring, start: seq<Instance>, pieces: seq<seq<Piece>>, key: Key, deploys: seq<Deploy>,
    encode: Bytes -> string, decode: string -> Bytes)
    requires forall i :: 0 <= i < |ring.accepted| ==> Prints(ring.accepted[i], encode, decode, Signs)
    requires Distinct(ring.accepted) && ring.current in ring.accepted
    requires |pieces| == |start|
    requires forall i :: 0 <= i < |start| ==> WrittenFrom(start[i], ring, pieces[i], encode)
    requires Prints(key, encode, decode, Signs) && !Has(ring.accepted, key.version)
    ensures AlwaysHealthy(start, EntryOf(key, encode), key.version, {}, {}, deploys, decode)
        <==> TwoDeploys(start, {}, deploys)
  {
    EntryReads(key, encode, decode, Signs);
    forall i | 0 <= i < |start| ensures RingAt(start[i], decode) == Ok(ring) {
      WrittenReads(start[i], ring, pieces[i], encode, decode);
    }
    hide RingAt;
    hide KeyOf;
    hide IsEntry;
    hide Prints;
    assert Healthy(start, decode);
    RotationExactly(start, EntryOf(key, encode), key, {}, {}, deploys, decode);
  }

  predicate WrittenFrom(x: Instance, ring: Ring, pieces: seq<Piece>, encode: Bytes -> string) {
    && x == Instance(Written(pieces), ring.current.version)
    && (forall i :: 0 <= i < |pieces| ==> PieceOk(pieces[i]))
    && Texts(pieces) == Printed(ring.accepted, encode)
  }

  lemma WrittenReads(
    x: Instance, ring: Ring, pieces: seq<Piece>, encode: Bytes -> string, decode: string -> Bytes)
    requires forall i :: 0 <= i < |ring.accepted| ==> Prints(ring.accepted[i], encode, decode, Signs)
    requires Distinct(ring.accepted) && ring.current in ring.accepted
    requires WrittenFrom(x, ring, pieces, encode)
    ensures RingAt(x, decode) == Ok(ring)
  {
    hide Texts;
    hide KeyOf;
    hide Collect;
    hide Entries;
    hide PieceOk;
    var i :| 0 <= i < |ring.accepted| && ring.accepted[i] == ring.current;
    assert Prints(ring.accepted[i], encode, decode, Signs);
    EntryReads(ring.current, encode, decode, Signs);
    VersionNotBlank(ring.current, EntryOf(ring.current, encode), decode);
    hide Prints;
    hide IsBlank;
    hide RingOf;
    RingRoundTrip(ring, pieces, encode, decode, Signs);
  }

  // ------------------------------------------------------------------------ rates

  /** `Number` is a parameter: the whole number a text stands for, if it does. */
  function BasisPoints(raw: Option<string>, number: string -> Option<int>): Result<int, string> {
    if Optional(raw).None? then Ok(0)
    else
      match number(raw.value)
      case None => Err(raw.value)
      case Some(n) => if n < 0 || n > 10_000 then Err(raw.value) else Ok(n)
  }

  /** An unset rate is none; a set one is taken if and only if it is a whole number from
      0 to 10000. */
  lemma RateExactly(raw: Option<string>, number: string -> Option<int>, rate: int)
    ensures BasisPoints(raw, number) == Ok(rate)
        <==> if IsSet(raw) then number(raw.value) == Some(rate) && 0 <= rate <= 10000 else rate == 0
  {
    SetExactly(raw);
    hide Trim;
    hide Optional;
  }

  /** No configured rate takes more than the amount, and an unset one takes nothing. */
  lemma ConfiguredFeeWithinAmount(raw: Option<string>, number: string -> Option<int>, typed: nat)
    requires BasisPoints(raw, number).Ok?
    ensures var rate := BasisPoints(raw, number).value;
            && 0 <= rate
            && AmountEntry.FeeMinor(typed, rate) <= typed
            && (Optional(raw).None? ==> AmountEntry.FeeMinor(typed, rate) == 0)
  {
    Fee.FeeWithinAmount(typed, BasisPoints(raw, number).value);
  }
}
