/** Environment variables that hold a list (`apps/api/src/config.ts`): what counts as
    set, and how a comma-separated value reads. */
module EnvList {
  import opened Text

  predicate IsBlank(s: string) {
    Trim(s) == ""
  }

  /** `optional`: a variable that is absent or blank is not set. The value itself is
      not trimmed. */
  function Optional(value: Option<string>): Option<string> {
    if value.Some? && !IsBlank(value.value) then value else None
  }

  /** The trimmed parts that are not blank. */
  function Kept(parts: seq<string>): (r: seq<string>)
    ensures |r| <= |parts|
    ensures forall i :: 0 <= i < |r| ==> r[i] != "" && !IsSpace(r[i][0]) && !IsSpace(r[i][|r[i]| - 1])
  {
    if parts == [] then []
    else if IsBlank(parts[0]) then Kept(parts[1..])
    else [Trim(parts[0])] + Kept(parts[1..])
  }

  function Entries(raw: string): seq<string> {
    Kept(Split(raw, ','))
  }

  // ---------------------------------------------------------- ways of writing it

  predicate AllSpaces(s: string) {
    forall i :: 0 <= i < |s| ==> IsSpace(s[i])
  }

  /** An entry as it can stand between commas. */
  predicate IsEntry(s: string) {
    s != "" && ',' !in s && !IsSpace(s[0]) && !IsSpace(s[|s| - 1])
  }

  /** One part of a written list: nothing but spaces, or an entry with spaces around. */
  datatype Piece = Blank(pad: string) | Entry(before: string, text: string, after: string)

  predicate PieceOk(p: Piece) {
    match p
    case Blank(pad) => AllSpaces(pad)
    case Entry(before, text, after) => AllSpaces(before) && AllSpaces(after) && IsEntry(text)
  }

  function Spelt(p: Piece): string {
    match p
    case Blank(pad) => pad
    case Entry(before, text, after) => before + text + after
  }

  function SpeltAll(pieces: seq<Piece>): (r: seq<string>)
    ensures |r| == |pieces|
    ensures forall i :: 0 <= i < |r| ==> r[i] == Spelt(pieces[i])
  {
    if pieces == [] then [] else [Spelt(pieces[0])] + SpeltAll(pieces[1..])
  }

  function Written(pieces: seq<Piece>): string {
    Join(SpeltAll(pieces), ",")
  }

  function Texts(pieces: seq<Piece>): seq<string> {
    if pieces == [] then []
    else if pieces[0].Blank? then Texts(pieces[1..])
    else [pieces[0].text] + Texts(pieces[1..])
  }

  lemma SpeltTrims(p: Piece)
    requires PieceOk(p)
    ensures ',' !in Spelt(p)
    ensures Trim(Spelt(p)) == if p.Blank? then "" else p.text
  {
    assert ',' !in Spelt(p) by {
      hide Trim;
      assert !IsSpace(',');
    }
    hide IsSpace;
    match p
    case Blank(pad) =>
      TrimPadded(pad, "", "");
      assert pad + "" + "" == pad;
    case Entry(before, text, after) =>
      TrimPadded(before, text, after);
  }

  lemma {:induction false} KeptSpelt(pieces: seq<Piece>)
    requires forall i :: 0 <= i < |pieces| ==> PieceOk(pieces[i])
    ensures Kept(SpeltAll(pieces)) == Texts(pieces)
  {
    if pieces != [] {
      SpeltTrims(pieces[0]);
      KeptSpelt(pieces[1..]);
      assert SpeltAll(pieces)[1..] == SpeltAll(pieces[1..]);
    }
  }

  /** However a list is spaced, and wherever it has empty parts, it reads as its
      entries in order. */
  lemma EntriesOfWritten(pieces: seq<Piece>)
    requires pieces != []
    requires forall i :: 0 <= i < |pieces| ==> PieceOk(pieces[i])
    ensures Entries(Written(pieces)) == Texts(pieces)
  {
    forall i | 0 <= i < |pieces| ensures ',' !in SpeltAll(pieces)[i] {
      SpeltTrims(pieces[i]);
    }
    SplitJoin(SpeltAll(pieces), ',');
    KeptSpelt(pieces);
  }

  function Plain(entries: seq<string>): (r: seq<Piece>)
    ensures |r| == |entries|
    ensures forall i :: 0 <= i < |r| ==> r[i] == Entry("", entries[i], "")
  {
    seq(|entries|, i requires 0 <= i < |entries| => Entry("", entries[i], ""))
  }

  lemma {:induction false} TextsPlain(entries: seq<string>)
    ensures Texts(Plain(entries)) == entries
  {
    if entries != [] {
      TextsPlain(entries[1..]);
      assert Plain(entries)[1..] == Plain(entries[1..]);
    }
  }

  lemma PlainOk(entries: seq<string>)
    requires forall i :: 0 <= i < |entries| ==> IsEntry(entries[i])
    ensures forall i :: 0 <= i < |entries| ==> PieceOk(Plain(entries)[i])
  {
  }

  lemma SpeltPlain(entries: seq<string>)
    ensures SpeltAll(Plain(entries)) == entries
  {
    forall i | 0 <= i < |entries| ensures SpeltAll(Plain(entries))[i] == entries[i] {
      assert "" + entries[i] + "" == entries[i];
    }
  }

  lemma WrittenIs(pieces: seq<Piece>)
    ensures Written(pieces) == Join(SpeltAll(pieces), ",")
  {
  }

  /** Joining entries with commas and reading them back is the identity. */
  lemma EntriesOfJoin(entries: seq<string>)
    requires entries != []
    requires forall i :: 0 <= i < |entries| ==> IsEntry(entries[i])
    ensures Entries(Join(entries, ",")) == entries
  {
    var pieces := Plain(entries);
    PlainOk(entries);
    hide *;
    SpeltPlain(entries);
    TextsPlain(entries);
    WrittenIs(pieces);
    EntriesOfWritten(pieces);
  }

  lemma {:induction false} KeptConcat(a: seq<string>, b: seq<string>)
    ensures Kept(a + b) == Kept(a) + Kept(b)
  {
    if a == [] {
      assert a + b == b;
    } else {
      assert (a + b)[1..] == a[1..] + b;
      KeptConcat(a[1..], b);
    }
  }

  lemma {:induction false} SplitAppend(raw: string, w: string)
    requires ',' !in w
    ensures Split(raw + "," + w, ',') == Split(raw, ',') + [w]
    decreases |raw|
  {
    if ',' in raw {
      var a, b := Before(raw, ','), After(raw, ',');
      SplitAppend(b, w);
      SplitAppendStep(a, b, w);
    } else {
      SplitNone(raw);
      SplitNone(w);
      SplitCons(raw, ',', w);
    }
  }

  lemma SplitAppendStep(a: string, b: string, w: string)
    requires ',' !in a && Split(b + "," + w, ',') == Split(b, ',') + [w]
    ensures Split(a + [','] + b + "," + w, ',') == Split(a + [','] + b, ',') + [w]
  {
    hide *;
    Regroup(a, b, w);
    SplitCons(a, ',', b + "," + w);
    SplitCons(a, ',', b);
  }

  lemma SplitNone(w: string)
    requires ',' !in w
    ensures Split(w, ',') == [w]
  {
  }

  lemma Regroup(a: string, b: string, w: string)
    ensures a + [','] + b + "," + w == a + [','] + (b + "," + w)
  {
  }

  /** Appending a comma and an entry to the text appends that entry to the list. */
  lemma EntriesAppend(raw: string, entry: string)
    requires IsEntry(entry)
    ensures Entries(raw + "," + entry) == Entries(raw) + [entry]
  {
    SplitAppend(raw, entry);
    KeptConcat(Split(raw, ','), [entry]);
    TrimTight(entry);
    assert Kept([entry]) == [entry];
  }

  // ------------------------------------------------------------------ blank values

  lemma {:induction false} TrimStartKeepsComma(s: string)
    requires ',' in s
    ensures ',' in TrimStart(s)
  {
    if s != "" && IsSpace(s[0]) {
      assert ',' in s[1..];
      TrimStartKeepsComma(s[1..]);
    }
  }

  lemma {:induction false} TrimEndKeepsComma(s: string)
    requires ',' in s
    ensures ',' in TrimEnd(s)
  {
    if s != "" && IsSpace(s[|s| - 1]) {
      assert ',' in s[..|s| - 1];
      TrimEndKeepsComma(s[..|s| - 1]);
    }
  }

  lemma TrimKeepsComma(s: string)
    ensures ',' in s ==> ',' in Trim(s)
  {
    if ',' in s {
      TrimStartKeepsComma(s);
      TrimEndKeepsComma(TrimStart(s));
    }
  }

  /** A blank variable has no entries. */
  lemma BlankHasNoEntries(raw: string)
    requires IsBlank(raw)
    ensures Entries(raw) == []
  {
    TrimKeepsComma(raw);
    SplitNone(raw);
    assert Kept([raw]) == [];
  }
}
