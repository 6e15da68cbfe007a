/** The transaction list, cut into consecutive runs of one day
    (`apps/mobile/src/tx-list.tsx`). The day of an entry is a parameter. */
module DayRuns {

  datatype DayGroup<T> = DayGroup(day: string, entries: seq<T>)

  function Flatten<T>(groups: seq<DayGroup<T>>): seq<T> {
    if groups == [] then [] else groups[0].entries + Flatten(groups[1..])
  }

  ghost predicate OfItsDay<T>(g: DayGroup<T>, day: T -> string) {
    g.entries != [] && forall i :: 0 <= i < |g.entries| ==> day(g.entries[i]) == g.day
  }

  /** The order is the list's; a group is a whole run of one day. */
  ghost predicate AreRuns<T>(groups: seq<DayGroup<T>>, entries: seq<T>, day: T -> string) {
    && Flatten(groups) == entries
    && (forall i :: 0 <= i < |groups| ==> OfItsDay(groups[i], day))
    && (forall i :: 0 < i < |groups| ==> groups[i - 1].day != groups[i].day)
  }

  // ------------------------------------------------------------------- only one cut

  lemma {:induction false} FlattenConcat<T>(a: seq<DayGroup<T>>, b: seq<DayGroup<T>>)
    ensures Flatten(a + b) == Flatten(a) + Flatten(b)
  {
    if a == [] {
      assert a + b == b;
    } else {
      assert (a + b)[1..] == a[1..] + b;
      FlattenConcat(a[1..], b);
    }
  }

  /** The first group ends where the day first changes. */
  lemma FirstRunEnds<T>(groups: seq<DayGroup<T>>, entries: seq<T>, day: T -> string)
    requires AreRuns(groups, entries, day) && groups != []
    ensures groups[0].entries <= entries && entries[|groups[0].entries|..] == Flatten(groups[1..])
    ensures entries != [] && groups[0].day == day(entries[0])
    ensures forall i :: 0 <= i < |groups[0].entries| ==> day(entries[i]) == groups[0].day
    ensures |groups[0].entries| < |entries| ==> day(entries[|groups[0].entries|]) != groups[0].day
    ensures AreRuns(groups[1..], Flatten(groups[1..]), day)
  {
    var head, rest := groups[0].entries, groups[1..];
    assert entries == head + Flatten(rest);
    if rest != [] {
      assert rest[0] == groups[1] && OfItsDay(groups[1], day);
      assert Flatten(rest)[0] == rest[0].entries[0];
    }
    assert forall i :: 0 < i < |rest| ==> rest[i - 1] == groups[i] && rest[i] == groups[i + 1];
  }

  /** Any two cuts of a list into such runs are the same cut. */
  lemma {:induction false} RunsUnique<T>(
    a: seq<DayGroup<T>>, b: seq<DayGroup<T>>, entries: seq<T>, day: T -> string)
    requires AreRuns(a, entries, day) && AreRuns(b, entries, day)
    ensures a == b
    decreases |a|
  {
    if a == [] {
      if b != [] {
        FirstRunEnds(b, entries, day);
        assert false;
      }
    } else if b == [] {
      FirstRunEnds(a, entries, day);
      assert false;
    } else {
      FirstRunEnds(a, entries, day);
      FirstRunEnds(b, entries, day);
      hide AreRuns;
      assert |a[0].entries| == |b[0].entries|;
      assert a[0] == b[0];
      RunsUnique(a[1..], b[1..], Flatten(a[1..]), day);
      assert a == [a[0]] + a[1..] && b == [b[0]] + b[1..];
    }
  }

  // ---------------------------------------------------------------------- the seam

  predicate SameDayAtSeam<T>(a: seq<DayGroup<T>>, b: seq<DayGroup<T>>) {
    a != [] && b != [] && a[|a| - 1].day == b[0].day
  }

  /** One cut followed by another, merged only where they meet. */
  function Merge<T>(a: seq<DayGroup<T>>, b: seq<DayGroup<T>>): seq<DayGroup<T>> {
    if SameDayAtSeam(a, b) then
      a[..|a| - 1] + [DayGroup(b[0].day, a[|a| - 1].entries + b[0].entries)] + b[1..]
    else a + b
  }

  lemma FlattenOne<T>(g: DayGroup<T>)
    ensures Flatten([g]) == g.entries
  {
    assert Flatten<T>([]) == [];
  }

  lemma SeamFlat<T>(
    front: seq<DayGroup<T>>, last: DayGroup<T>, first: DayGroup<T>, back: seq<DayGroup<T>>, seam: DayGroup<T>)
    requires seam.entries == last.entries + first.entries
    ensures Flatten(front + [seam] + back) == Flatten(front + [last]) + Flatten([first] + back)
  {
    FlattenOne(seam);
    FlattenOne(last);
    FlattenOne(first);
    hide *;
    FlattenConcat(front + [seam], back);
    FlattenConcat(front, [seam]);
    FlattenConcat(front, [last]);
    FlattenConcat([first], back);
    Regroup(Flatten(front), last.entries, first.entries, Flatten(back));
  }

  lemma Regroup<T>(a: seq<T>, b: seq<T>, c: seq<T>, d: seq<T>)
    ensures a + (b + c) + d == (a + b) + (c + d)
  {
  }

  lemma MergeFlat<T>(a: seq<DayGroup<T>>, b: seq<DayGroup<T>>)
    ensures Flatten(Merge(a, b)) == Flatten(a) + Flatten(b)
  {
    if SameDayAtSeam(a, b) {
      var last, first := a[|a| - 1], b[0];
      var seam := DayGroup(first.day, last.entries + first.entries);
      var front, back := a[..|a| - 1], b[1..];
      assert a == front + [last] && b == [first] + back;
      SeamFlat(front, last, first, back, seam);
    } else {
      FlattenConcat(a, b);
    }
  }

  lemma MergeRuns<T>(a: seq<DayGroup<T>>, x: seq<T>, b: seq<DayGroup<T>>, y: seq<T>, day: T -> string)
    requires AreRuns(a, x, day) && AreRuns(b, y, day)
    ensures AreRuns(Merge(a, b), x + y, day)
  {
    MergeFlat(a, b);
    hide Flatten;
    var m := Merge(a, b);
    if SameDayAtSeam(a, b) {
      var k := |a| - 1;
      assert OfItsDay(a[k], day) && OfItsDay(b[0], day);
      assert OfItsDay(m[k], day);
      assert forall i :: 0 <= i < k ==> m[i] == a[i];
      assert forall i :: k < i < |m| ==> m[i] == b[i - k];
      assert m[k].day == a[k].day == b[0].day;
    }
  }

  /** Grouping a page and more below it is grouping each and merging at the seam. */
  lemma GroupedByPages<T>(
    all: seq<DayGroup<T>>, a: seq<DayGroup<T>>, x: seq<T>, b: seq<DayGroup<T>>, y: seq<T>, day: T -> string)
    requires AreRuns(all, x + y, day) && AreRuns(a, x, day) && AreRuns(b, y, day)
    ensures all == Merge(a, b)
    ensures a != [] ==> |all| >= |a| && all[..|a| - 1] == a[..|a| - 1]
    ensures a != [] ==> all[|a| - 1].day == a[|a| - 1].day && a[|a| - 1].entries <= all[|a| - 1].entries
  {
    MergeRuns(a, x, b, y, day);
    RunsUnique(all, Merge(a, b), x + y, day);
    hide AreRuns;
  }

  /** A day that returns later in the list gets a heading of its own: there are as many
      headings as there are days, changes included. */
  function Changes<T>(entries: seq<T>, day: T -> string): nat {
    if |entries| < 2 then |entries|
    else (if day(entries[0]) == day(entries[1]) then 0 else 1) + Changes(entries[1..], day)
  }

  lemma {:induction false} RunOfOneDay<T>(run: seq<T>, rest: seq<T>, day: T -> string)
    requires run != [] && forall i :: 0 <= i < |run| ==> day(run[i]) == day(run[0])
    requires rest != [] ==> day(rest[0]) != day(run[0])
    ensures Changes(run + rest, day) == 1 + Changes(rest, day)
  {
    if |run| == 1 {
      assert (run + rest)[1..] == rest;
    } else {
      assert (run + rest)[1..] == run[1..] + rest;
      RunOfOneDay(run[1..], rest, day);
    }
  }

  lemma {:induction false} HeadingsAreChanges<T>(groups: seq<DayGroup<T>>, entries: seq<T>, day: T -> string)
    requires AreRuns(groups, entries, day)
    ensures |groups| == Changes(entries, day)
    decreases |groups|
  {
    if groups != [] {
      FirstRunEnds(groups, entries, day);
      var n := |groups[0].entries|;
      assert entries == entries[..n] + entries[n..];
      assert n > 0 by {
        assert OfItsDay(groups[0], day);
      }
      hide AreRuns;
      RunOfOneDay(entries[..n], entries[n..], day);
      HeadingsAreChanges(groups[1..], Flatten(groups[1..]), day);
    }
  }

  // ---------------------------------------------------------------------- the loop

  lemma OneIsRun<T>(entry: T, day: T -> string)
    ensures AreRuns([DayGroup(day(entry), [entry])], [entry], day)
  {
    assert Flatten([DayGroup(day(entry), [entry])]) == [entry];
  }

  method GroupByDay<T>(entries: seq<T>, dayOf: T -> string) returns (out: seq<DayGroup<T>>)
    ensures AreRuns(out, entries, dayOf)
  {
    out := [];
    for i := 0 to |entries|
      invariant AreRuns(out, entries[..i], dayOf)
    {
      hide AreRuns;
      var entry := entries[i];
      var day := dayOf(entry);
      ghost var one := [DayGroup(day, [entry])];
      ghost var before := out;
      OneIsRun(entry, dayOf);
      MergeRuns(before, entries[..i], one, [entry], dayOf);
      assert entries[..i + 1] == entries[..i] + [entry];
      if out != [] && out[|out| - 1].day == day {
        out := out[..|out| - 1] + [DayGroup(day, out[|out| - 1].entries + [entry])];
      } else {
        out := out + [DayGroup(day, [entry])];
      }
      assert out == Merge(before, one);
    }
    assert entries[..|entries|] == entries;
  }
}
