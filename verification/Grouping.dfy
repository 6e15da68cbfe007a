/** The typed amount, grouped for display, and the Convert input that strips the
    grouping again on every edit. */
module Grouping {
  import opened Text
  import opened AmountEntry
  import opened Keypad
  import opened Typed

  // ------------------------------------------------------------ groups of three

  /** Right-aligned groups of three, the first holding what is left. */
  function Groups(w: string): (groups: seq<string>)
    ensures |groups| > 0
    ensures forall i :: 1 <= i < |groups| ==> |groups[i]| == 3
    ensures |groups[0]| <= 3 && (w != "" ==> groups[0] != "")
  {
    if |w| <= 3 then [w] else Groups(w[..|w| - 3]) + [w[|w| - 3..]]
  }

  function Commas(w: string): string {
    Join(Groups(w), ",")
  }

  lemma {:induction false} JoinSnoc(parts: seq<string>, last: string, sep: string)
    requires parts != []
    ensures Join(parts + [last], sep) == Join(parts, sep) + sep + last
  {
    if |parts| == 1 {
      assert (parts + [last])[1..] == [last];
    } else {
      assert (parts + [last])[1..] == parts[1..] + [last];
      JoinSnoc(parts[1..], last, sep);
    }
  }

  lemma {:induction false} GroupsConcat(w: string)
    ensures Join(Groups(w), "") == w
  {
    if |w| > 3 {
      GroupsConcat(w[..|w| - 3]);
      JoinSnoc(Groups(w[..|w| - 3]), w[|w| - 3..], "");
    }
  }

  lemma CommasLast(w: string)
    requires |w| > 3
    ensures Commas(w) == Commas(w[..|w| - 3]) + "," + w[|w| - 3..]
  {
    JoinSnoc(Groups(w[..|w| - 3]), w[|w| - 3..], ",");
  }

  lemma CommasShort(w: string)
    requires |w| <= 3
    ensures Commas(w) == w
  {
  }

  /** One more digit on the left opens a group exactly after every third. */
  lemma {:induction false} CommasCons(d: char, s: string)
    ensures Commas([d] + s)
         == if |s| > 0 && |s| % 3 == 0 then [d] + "," + Commas(s) else [d] + Commas(s)
  {
    hide Commas;
    var w := [d] + s;
    if |s| <= 3 {
      CommasShort(s);
      if |s| < 3 {
        CommasShort(w);
      } else {
        CommasLast(w);
        CommasShort([d]);
        assert w[..1] == [d] && w[1..] == s;
      }
    } else {
      CommasLast(w);
      CommasLast(s);
      var head, last := s[..|s| - 3], s[|s| - 3..];
      assert w[..|w| - 3] == [d] + head;
      assert w[|w| - 3..] == last;
      CommasCons(d, head);
      CommasPrepended(d, head, last);
    }
  }

  lemma CommasPrepended(d: char, head: string, last: string)
    ensures ([d] + "," + Commas(head)) + "," + last == [d] + "," + (Commas(head) + "," + last)
    ensures ([d] + Commas(head)) + "," + last == [d] + (Commas(head) + "," + last)
  {
  }

  /** The `reduce` over reversed digits builds exactly those groups. */
  lemma {:induction false} FoldBuildsGroups(w: string, i: nat)
    requires i <= |w|
    ensures GroupFold(Reverse(w), i, if i == 0 then "" else Commas(w[|w| - i..])) == Commas(w)
    decreases |w| - i
  {
    hide Commas;
    var done := w[|w| - i..];
    CommasShort("");
    if i == |w| {
      assert done == w;
    } else {
      var d := w[|w| - 1 - i];
      assert Reverse(w)[i] == d;
      assert w[|w| - (i + 1)..] == [d] + done;
      CommasCons(d, done);
      FoldBuildsGroups(w, i + 1);
    }
  }

  lemma {:induction false} LeadingAll(s: string)
    requires AllDigits(s)
    ensures LeadingDigits(s) == s
  {
    if s != "" {
      LeadingAll(s[1..]);
    }
  }

  // --------------------------------------------------------------- what is grouped

  /** Digits, and at most one point with digits after it. */
  predicate PlainAmount(a: string) {
    AllDigits(Before(a, '.')) && AllDigits(After(a, '.'))
  }

  /** The integer part in groups, the decimals as typed. */
  lemma GroupedForm(a: string)
    requires PlainAmount(a)
    ensures GroupTyped(a) == Commas(Before(a, '.')) + (if '.' in a then "." + After(a, '.') else "")
  {
    var w := Before(a, '.');
    if w != "" {
      LeadingAll(w);
    }
    assert FirstRun(w) == w;
    FoldBuildsGroups(w, 0);
    if '.' in a {
      FractionIsAfter(a);
      assert Commas(w) + "." + After(a, '.') == Commas(w) + ("." + After(a, '.'));
    } else {
      assert Commas(w) + "" == Commas(w);
    }
  }

  /** For every string: the first run of digits before the point in groups, and what
      stands between the first point and the second as it is. */
  lemma GroupedExactly(a: string)
    ensures GroupTyped(a)
         == Commas(FirstRun(Before(a, '.'))) + (if '.' in a then "." + Before(After(a, '.'), '.') else "")
  {
    var w := FirstRun(Before(a, '.'));
    FoldBuildsGroups(w, 0);
    if '.' in a {
      assert Commas(w) + "." + Before(After(a, '.'), '.') == Commas(w) + ("." + Before(After(a, '.'), '.'));
    } else {
      assert Commas(w) + "" == Commas(w);
    }
  }

  /** That run starts at the first digit and ends before the next character that is
      none; a string without digits has none. */
  lemma {:induction false} FirstRunExactly(s: string) returns (i: nat, j: nat)
    ensures i <= j <= |s| && FirstRun(s) == s[i..j]
    ensures forall k :: 0 <= k < i ==> !('0' <= s[k] <= '9')
    ensures forall k :: i <= k < j ==> '0' <= s[k] <= '9'
    ensures i == j ==> i == |s|
    ensures j < |s| ==> !('0' <= s[j] <= '9')
  {
    if s == "" {
      i, j := 0, 0;
    } else if IsDigit(s[0]) {
      i, j := 0, |LeadingDigits(s)|;
      LeadingExactly(s);
    } else {
      i, j := FirstRunExactly(s[1..]);
      i, j := i + 1, j + 1;
      assert forall k :: 1 <= k < |s| ==> s[k] == s[1..][k - 1];
      assert s[i..j] == s[1..][i - 1..j - 1];
    }
  }

  lemma {:induction false} LeadingExactly(s: string)
    ensures var n := |LeadingDigits(s)|;
            && n <= |s| && LeadingDigits(s) == s[..n]
            && (forall k :: 0 <= k < n ==> '0' <= s[k] <= '9')
            && (n < |s| ==> !('0' <= s[n] <= '9'))
  {
    if s != "" && IsDigit(s[0]) {
      LeadingExactly(s[1..]);
      assert s[1..][..|LeadingDigits(s)| - 1] == s[1..|LeadingDigits(s)|];
      assert forall k :: 1 <= k < |s| ==> s[k] == s[1..][k - 1];
    }
  }

  /** What stands before the point, cut at its commas, is the integer part in
      right-aligned groups of three, the first of one to three digits. */
  lemma DrawnGroups(a: string)
    requires PlainAmount(a)
    ensures var drawn := Split(Before(GroupTyped(a), '.'), ',');
            && Join(drawn, "") == Before(a, '.')
            && (forall i :: 1 <= i < |drawn| ==> |drawn[i]| == 3)
            && |drawn[0]| <= 3 && (Before(a, '.') != "" ==> drawn[0] != "")
    ensures After(GroupTyped(a), '.') == After(a, '.') && ('.' in GroupTyped(a) <==> '.' in a)
  {
    hide Groups;
    hide Split;
    hide Join;
    GroupsConcat(Before(a, '.'));
    CommasCut(Before(a, '.'));
    DrawnParts(a);
  }

  lemma CommasCut(w: string)
    requires AllDigits(w)
    ensures Split(Commas(w), ',') == Groups(w) && '.' !in Commas(w)
  {
    GroupsAreDigits(w);
    SplitJoin(Groups(w), ',');
    CommasHaveNoPoint(w);
  }

  lemma DrawnParts(a: string)
    requires PlainAmount(a)
    ensures Before(GroupTyped(a), '.') == Commas(Before(a, '.'))
    ensures After(GroupTyped(a), '.') == After(a, '.') && ('.' in GroupTyped(a) <==> '.' in a)
  {
    var w := Before(a, '.');
    assert AllDigits(w);
    GroupedForm(a);
    CommasCut(w);
    hide GroupTyped;
    hide Commas;
    hide Groups;
    hide Split;
    hide AllDigits;
    if '.' in a {
      CutDrawn(Commas(w), After(a, '.'));
    } else {
      assert Commas(w) + "" == Commas(w);
      CutNone(Commas(w), '.');
    }
  }

  lemma CutDrawn(c: string, r: string)
    requires '.' !in c
    ensures var g := c + ("." + r); '.' in g && Before(g, '.') == c && After(g, '.') == r
  {
    var g := c + ("." + r);
    assert g == c + ['.'] + r && g[|c|] == '.';
    CutAt(c, '.', r);
  }

  lemma {:induction false} GroupsAreDigits(w: string)
    requires AllDigits(w)
    ensures forall i :: 0 <= i < |Groups(w)| ==> AllDigits(Groups(w)[i]) && ',' !in Groups(w)[i]
  {
    if |w| > 3 {
      GroupsAreDigits(w[..|w| - 3]);
    }
  }

  lemma {:induction false} CommasHaveNoPoint(w: string)
    requires AllDigits(w)
    ensures '.' !in Commas(w)
  {
    if |w| <= 3 {
      CommasShort(w);
    } else {
      CommasHaveNoPoint(w[..|w| - 3]);
      CommasLast(w);
    }
  }

  lemma {:induction false} CommasFiltered(w: string)
    requires AllDigits(w)
    ensures Filter(Commas(w), IsDigitOrPoint) == w
  {
    if |w| <= 3 {
      FilterAll(w, IsDigitOrPoint);
    } else {
      var head, last := w[..|w| - 3], w[|w| - 3..];
      CommasLast(w);
      CommasFiltered(head);
      FilterAll(last, IsDigitOrPoint);
      CommaDropped(Commas(head), last);
      hide *;
      assert head + last == w;
    }
  }

  lemma CommaDropped(a: string, b: string)
    ensures Filter(a + "," + b, IsDigitOrPoint) == Filter(a, IsDigitOrPoint) + Filter(b, IsDigitOrPoint)
  {
    FilterConcat(a + ",", b, IsDigitOrPoint);
    assert Filter(a + ",", IsDigitOrPoint) == Filter(a, IsDigitOrPoint) by {
      FilterConcat(a, ",", IsDigitOrPoint);
      FilterNone(",", IsDigitOrPoint);
      assert Filter(a, IsDigitOrPoint) + "" == Filter(a, IsDigitOrPoint);
    }
  }

  /** Taking the commas out of what is drawn gives back what is held. */
  lemma UngroupGrouped(a: string)
    requires PlainAmount(a)
    ensures Filter(GroupTyped(a), IsDigitOrPoint) == a
  {
    hide GroupTyped;
    hide Commas;
    hide Filter;
    GroupedForm(a);
    CommasFiltered(Before(a, '.'));
    if '.' in a {
      PointKept(Commas(Before(a, '.')), After(a, '.'));
    } else {
      assert Commas(Before(a, '.')) + "" == Commas(Before(a, '.'));
    }
  }

  lemma PointKept(grouped: string, r: string)
    requires AllDigits(r)
    ensures Filter(grouped + ("." + r), IsDigitOrPoint) == Filter(grouped, IsDigitOrPoint) + "." + r
  {
    hide Filter;
    FilterConcat(grouped, "." + r, IsDigitOrPoint);
    FilterAll("." + r, IsDigitOrPoint);
  }

  /** An amount built on the keypad survives being drawn and pasted back. */
  lemma TypedUndoesGrouping(a: string, e: nat)
    requires KeypadForm(a, Some(e))
    ensures TypedAmount(GroupTyped(a), e) == a
  {
    if a == "" {
      UngroupGrouped(a);
      TypedOfWhole(a, e);
    } else {
      UngroupGrouped(a);
      TypedIsCleaned(GroupTyped(a), e);
      TypedIsCleaned(a, e);
      if '.' in a {
        FilterAll(a, IsDigitOrPoint) by { PlainCharacters(a); }
        TypedOfParts(Before(a, '.'), After(a, '.'), e);
      } else {
        FilterAll(a, IsDigitOrPoint) by { PlainCharacters(a); }
        TypedOfWhole(a, e);
      }
    }
  }

  lemma PlainCharacters(a: string)
    requires PlainAmount(a)
    ensures DigitsAndPoints(a)
  {
    if '.' in a {
      assert a == Before(a, '.') + "." + After(a, '.');
    }
  }

  // ------------------------------------------------------------- the Convert input

  /** What `onChangeText` stores: the digits, and the first point. */
  function ConvertInput(next: string): string {
    var digits := Filter(next, IsDigitOrPoint);
    var parts := Split(digits, '.');
    if |parts| == 1 then parts[0] else parts[0] + "." + Join(parts[1..], "")
  }

  /** Every edit, whatever was typed or pasted, leaves digits and at most one point. */
  lemma ConvertInputIsPlain(next: string)
    ensures PlainAmount(ConvertInput(next))
    ensures '.' !in After(ConvertInput(next), '.')
  {
    var d := Filter(next, IsDigitOrPoint);
    FilteredIsClean(next);
    AfterIsClean(d);
    DigitsKept(After(d, '.'));
    if '.' in d {
      JoinedPieces(After(d, '.'));
      assert Split(d, '.')[1..] == Split(After(d, '.'), '.');
      var w, f := Before(d, '.'), Filter(After(d, '.'), IsDigit);
      assert ConvertInput(next) == w + "." + f;
      WithPoint(w, f);
    } else {
      CutNone(d, '.');
    }
  }

  /** What an edit keeps, exactly: every digit typed, in order, with the first point
      where it was typed; later points go. */
  lemma ConvertInputExactly(next: string)
    ensures var kept := ConvertInput(next);
            && (AllDigits(Before(kept, '.')) && Before(kept, '.') == Filter(Before(next, '.'), IsDigit))
            && After(kept, '.') == Filter(After(next, '.'), IsDigit)
            && ('.' in kept <==> '.' in next)
  {
    var d := Filter(next, IsDigitOrPoint);
    FilteredPieces(next);
    FilteredIsClean(next);
    AfterIsClean(d);
    DigitsKept(After(d, '.'));
    if '.' in next {
      JoinedPieces(After(d, '.'));
      assert Split(d, '.')[1..] == Split(After(d, '.'), '.');
      var w, f := Before(d, '.'), Filter(After(d, '.'), IsDigit);
      assert ConvertInput(next) == w + "." + f;
      WithPoint(w, f);
      assert (w + "." + f)[|w|] == '.';
    } else {
      CutNone(d, '.');
    }
  }

  /** Cutting at the first point and dropping what is no digit or point commute. */
  lemma FilteredPieces(next: string)
    ensures var d := Filter(next, IsDigitOrPoint);
            && ('.' in d <==> '.' in next)
            && Before(d, '.') == Filter(Before(next, '.'), IsDigit)
            && Filter(After(d, '.'), IsDigit) == Filter(After(next, '.'), IsDigit)
  {
    var w, r := Before(next, '.'), After(next, '.');
    SameFilter(w);
    FilterTwice(r);
    if '.' in next {
      assert next == w + "." + r;
      FilterConcat(w + ".", r, IsDigitOrPoint);
      FilterConcat(w, ".", IsDigitOrPoint);
      FilterAll(".", IsDigitOrPoint);
      var fw, fr := Filter(w, IsDigit), Filter(r, IsDigitOrPoint);
      assert Filter(next, IsDigitOrPoint) == fw + ['.'] + fr;
      assert '.' !in fw;
      hide Filter;
      hide Before;
      hide After;
      CutAt(fw, '.', fr);
      assert (fw + ['.'] + fr)[|fw|] == '.';
    } else {
      CutNone(next, '.');
      assert '.' !in Filter(w, IsDigit);
      CutNone(Filter(w, IsDigit), '.');
    }
  }

  lemma {:induction false} SameFilter(w: string)
    requires '.' !in w
    ensures Filter(w, IsDigitOrPoint) == Filter(w, IsDigit)
  {
    if w != "" {
      SameFilter(w[1..]);
    }
  }

  lemma {:induction false} FilterTwice(r: string)
    ensures Filter(Filter(r, IsDigitOrPoint), IsDigit) == Filter(r, IsDigit)
  {
    if r != "" {
      var rest := Filter(r[1..], IsDigitOrPoint);
      FilterTwice(r[1..]);
      assert ([r[0]] + rest)[1..] == rest;
    }
  }

  lemma ConvertInputOfPlain(a: string)
    requires PlainAmount(a)
    ensures ConvertInput(a) == a
  {
    PlainCharacters(a);
    FilterAll(a, IsDigitOrPoint);
    if '.' in a {
      var r := After(a, '.');
      DigitsOnly(r);
      assert Split(a, '.')[1..] == Split(r, '.') == [r];
      assert Join([r], "") == r;
    }
  }

  /** The controlled input is stable: drawing what it holds and reading the drawing
      back leaves it as it was. */
  lemma ConvertInputFixpoint(next: string)
    ensures ConvertInput(GroupTyped(ConvertInput(next))) == ConvertInput(next)
  {
    var a := ConvertInput(next);
    ConvertInputIsPlain(next);
    UngroupGrouped(a);
    ConvertInputOfPlain(a);
    PlainCharacters(a);
    FilterAll(a, IsDigitOrPoint);
  }
}
