/** The two markers this handset keeps about the announcements feed: what has been seen
    (`packages/client/src/announcements.ts`, `apps/mobile/src/announcements-seen.ts`)
    and what the status bar was told (`apps/mobile/src/push.ts`).

    Seen compares instants; told compares the times' text. `Date.parse` is a parameter,
    `None` where it answers NaN. */
module Announcements {
  import opened Text

  datatype Item = Item(uuid: string, title: string, body: string, at: string)

  type Clock = string -> Option<int>

  // ------------------------------------------------------------------------ seen

  ghost predicate Parses(items: seq<Item>, parse: Clock) {
    exists i :: 0 <= i < |items| && parse(items[i].at).Some?
  }

  ghost predicate NewestOf(items: seq<Item>, parse: Clock, at: string) {
    && (exists i :: 0 <= i < |items| && items[i].at == at)
    && parse(at).Some?
    && forall i :: 0 <= i < |items| && parse(items[i].at).Some? ==> parse(items[i].at).value <= parse(at).value
  }

  method NewestAt(items: seq<Item>, parse: Clock) returns (best: Option<string>)
    ensures best.Some? <==> Parses(items, parse)
    ensures best.Some? ==> NewestOf(items, parse, best.value)
  {
    best := None;
    for i := 0 to |items|
      invariant best.Some? <==> Parses(items[..i], parse)
      invariant best.Some? ==> NewestOf(items[..i], parse, best.value)
    {
      ghost var was := best;
      var time := parse(items[i].at);
      if time.Some? && (best.None? || time.value > parse(best.value).value) {
        best := Some(items[i].at);
      }
      NewestStep(items, i, parse, was);
    }
    assert items[..|items|] == items;
  }

  lemma NewestStep(items: seq<Item>, i: nat, parse: Clock, was: Option<string>)
    requires i < |items|
    requires was.Some? <==> Parses(items[..i], parse)
    requires was.Some? ==> NewestOf(items[..i], parse, was.value)
    ensures Parses(items[..i + 1], parse) <==> was.Some? || parse(items[i].at).Some?
    ensures was.Some? && (parse(items[i].at).None? || parse(items[i].at).value <= parse(was.value).value) ==>
              NewestOf(items[..i + 1], parse, was.value)
    ensures parse(items[i].at).Some? && (was.None? || parse(items[i].at).value > parse(was.value).value) ==>
              NewestOf(items[..i + 1], parse, items[i].at)
  {
    var now := items[..i + 1];
    assert now[..i] == items[..i] && now[i] == items[i];
    if parse(now[i].at).Some? {
      assert Parses(now, parse);
    }
    if was.Some? {
      var k :| 0 <= k < i && items[..i][k].at == was.value;
      assert now[k].at == was.value && parse(now[k].at).Some?;
    }
    if was.None? {
      forall j | 0 <= j < i ensures parse(now[j].at).None? {
        assert items[..i][j] == now[j];
      }
    }
  }

  /** Something can be read in the feed that is later than what was seen, or nothing
      that can be read was seen. */
  ghost predicate Unread(items: seq<Item>, seenAt: Option<string>, parse: Clock) {
    exists i :: && 0 <= i < |items| && parse(items[i].at).Some?
                && (seenAt.Some? && parse(seenAt.value).Some? ==> parse(items[i].at).value > parse(seenAt.value).value)
  }

  method HasUnread(items: seq<Item>, seenAt: Option<string>, parse: Clock) returns (r: bool)
    ensures r <==> Unread(items, seenAt, parse)
  {
    var newest := NewestAt(items, parse);
    if newest.None? {
      return false;
    }
    var seen := if seenAt.None? then None else parse(seenAt.value);
    r := seen.None? || parse(newest.value).value > seen.value;
    if r {
      var i :| 0 <= i < |items| && items[i].at == newest.value;
      assert parse(items[i].at).Some?;
    }
  }

  /** Some item of `later` is strictly newer than all of `feed` that can be read. */
  ghost predicate NewerThanAll(later: seq<Item>, feed: seq<Item>, parse: Clock) {
    exists i :: && 0 <= i < |later| && parse(later[i].at).Some?
                && forall j :: 0 <= j < |feed| && parse(feed[j].at).Some? ==>
                     parse(feed[j].at).value < parse(later[i].at).value
  }

  lemma SeenExactly(feed: seq<Item>, at: string, later: seq<Item>, parse: Clock)
    requires NewestOf(feed, parse, at)
    ensures Unread(later, Some(at), parse) <==> NewerThanAll(later, feed, parse)
    ensures !Unread(feed, Some(at), parse)
  {
    var k :| 0 <= k < |feed| && feed[k].at == at;
    if Unread(later, Some(at), parse) {
      var i :| 0 <= i < |later| && parse(later[i].at).Some? && parse(later[i].at).value > parse(at).value;
      assert NewerThanAll(later, feed, parse);
    }
    if NewerThanAll(later, feed, parse) {
      var i :| && 0 <= i < |later| && parse(later[i].at).Some?
               && forall j :: 0 <= j < |feed| && parse(feed[j].at).Some? ==>
                    parse(feed[j].at).value < parse(later[i].at).value;
      assert parse(feed[k].at).Some?;
      assert Unread(later, Some(at), parse);
    }
  }

  class SeenMarker {
    var stored: Option<string>

    /** The feed was drawn. The bell then lights for exactly the feeds that hold
        something newer; a feed nothing of which can be read marks nothing. */
    method MarkSeen(items: seq<Item>, parse: Clock, writeOk: bool)
      modifies this
      ensures !writeOk || !Parses(items, parse) ==> stored == old(stored)
      ensures writeOk && Parses(items, parse) ==>
                forall later: seq<Item> :: Unread(later, stored, parse) <==> NewerThanAll(later, items, parse)
    {
      var newest := NewestAt(items, parse);
      if newest.Some? && writeOk {
        stored := newest;
        forall later: seq<Item> ensures Unread(later, stored, parse) <==> NewerThanAll(later, items, parse) {
          SeenExactly(items, newest.value, later, parse);
        }
      }
    }
  }

  // --------------------------------------------------------- times compared as text

  /** `a > b` on strings. */
  predicate Later(a: string, b: string) {
    a != "" && (b == "" || a[0] > b[0] || (a[0] == b[0] && Later(a[1..], b[1..])))
  }

  lemma {:induction false} LaterOrder(a: string, b: string, c: string)
    ensures !Later(a, a)
    ensures Later(a, b) ==> !Later(b, a)
    ensures Later(a, b) || Later(b, a) || a == b
    ensures Later(a, b) && !Later(c, b) ==> Later(a, c)
    ensures !Later(a, b) && !Later(b, c) ==> !Later(a, c)
  {
    if a != "" || b != "" || c != "" {
      var x, y, z := if a == "" then "" else a[1..], if b == "" then "" else b[1..], if c == "" then "" else c[1..];
      LaterOrder(x, y, z);
      assert a != "" ==> a == [a[0]] + x;
      assert b != "" ==> b == [b[0]] + y;
    }
  }

  function LatestFrom(max: Option<string>, items: seq<Item>): Option<string>
    decreases items
  {
    if items == [] then max
    else if max.None? || Later(items[0].at, max.value) then LatestFrom(Some(items[0].at), items[1..])
    else LatestFrom(max, items[1..])
  }

  function Latest(items: seq<Item>): Option<string> {
    LatestFrom(None, items)
  }

  predicate NoneLater(items: seq<Item>, at: string) {
    forall i :: 0 <= i < |items| ==> !Later(items[i].at, at)
  }

  lemma {:induction false} LatestFromIs(max: Option<string>, items: seq<Item>)
    ensures LatestFrom(max, items).None? <==> max.None? && items == []
    ensures LatestFrom(max, items).Some? ==> NoneLater(items, LatestFrom(max, items).value)
    ensures max.Some? ==> !Later(max.value, LatestFrom(max, items).value)
    ensures LatestFrom(max, items).Some? ==>
              LatestFrom(max, items) == max || exists i :: 0 <= i < |items| && items[i].at == LatestFrom(max, items).value
    decreases items
  {
    if items == [] {
      if max.Some? {
        LaterOrder(max.value, max.value, max.value);
      }
    } else {
      var here, rest := items[0].at, items[1..];
      var next := if max.None? || Later(here, max.value) then Some(here) else max;
      var r := LatestFrom(next, rest);
      LatestFromIs(next, rest);
      LaterOrder(here, next.value, r.value);
      if max.Some? {
        LaterOrder(max.value, next.value, r.value);
        LaterOrder(here, max.value, max.value);
      }
      hide Later;
      hide LatestFrom;
      assert LatestFrom(max, items) == r by {
        LatestUnfold(max, items);
      }
      forall i | 0 <= i < |items| ensures !Later(items[i].at, r.value) {
        assert i > 0 ==> items[i] == rest[i - 1];
      }
      if r != next {
        var i :| 0 <= i < |rest| && rest[i].at == r.value;
        assert items[i + 1].at == r.value;
      } else if r != max {
        assert items[0].at == r.value;
      }
    }
  }

  lemma LatestUnfold(max: Option<string>, items: seq<Item>)
    requires items != []
    ensures LatestFrom(max, items)
         == LatestFrom(if max.None? || Later(items[0].at, max.value) then Some(items[0].at) else max, items[1..])
  {
  }

  // ------------------------------------------------------------------------- told

  function ItemsAfter(items: seq<Item>, at: string): seq<Item> {
    if items == [] then []
    else if Later(items[0].at, at) then [items[0]] + ItemsAfter(items[1..], at)
    else ItemsAfter(items[1..], at)
  }

  function Fresh(items: seq<Item>, at: string): (r: seq<Item>)
    ensures |r| <= 3
  {
    var r := ItemsAfter(items, at);
    if |r| <= 3 then r else r[..3]
  }

  /** How many of the first `k` items are later. */
  function LaterBefore(items: seq<Item>, at: string, k: nat): (n: nat)
    requires k <= |items|
    ensures n <= k
  {
    if k == 0 then 0 else LaterBefore(items, at, k - 1) + if Later(items[k - 1].at, at) then 1 else 0
  }

  lemma {:induction false} LaterBeforeTail(items: seq<Item>, at: string, k: nat)
    requires 0 < k <= |items|
    ensures LaterBefore(items, at, k)
         == (if Later(items[0].at, at) then 1 else 0) + LaterBefore(items[1..], at, k - 1)
  {
    hide Later;
    if k > 1 {
      LaterBeforeTail(items, at, k - 1);
    }
  }

  lemma {:induction false} ItemsAfterExactly(items: seq<Item>, at: string)
    ensures |ItemsAfter(items, at)| == LaterBefore(items, at, |items|)
    ensures forall k :: 0 <= k < |items| && Later(items[k].at, at) ==>
              LaterBefore(items, at, k) < |ItemsAfter(items, at)|
              && ItemsAfter(items, at)[LaterBefore(items, at, k)] == items[k]
  {
    hide Later;
    if items != [] {
      var rest := items[1..];
      ItemsAfterExactly(rest, at);
      LaterBeforeTail(items, at, |items|);
      forall k | 0 <= k < |items| && Later(items[k].at, at)
        ensures LaterBefore(items, at, k) < |ItemsAfter(items, at)|
                && ItemsAfter(items, at)[LaterBefore(items, at, k)] == items[k]
      {
        if k > 0 {
          LaterBeforeTail(items, at, k);
          assert rest[k - 1] == items[k];
        }
      }
    }
  }

  /** A poll that has read the marker and not yet written it. */
  datatype Open = Open(feed: seq<Item>, told: Option<string>)

  /** `raised` is everything put in the status bar so far. */
  datatype Device = Device(marker: Option<string>, open: map<nat, Open>, next: nat, raised: seq<Item>)

  /** `able` is how many notifications can be raised before one fails: none when there
      is no permission. */
  datatype Event = Begin(feed: seq<Item>, readOk: bool) | End(poll: nat, writeOk: bool, able: nat)

  function RaisedBy(poll: Open, able: nat): (r: seq<Item>)
    ensures |r| <= 3 && |r| <= able && (r != [] ==> poll.told.Some?)
  {
    if poll.told.None? then []
    else
      var few := Fresh(poll.feed, poll.told.value);
      if able < |few| then few[..able] else few
  }

  lemma {:induction false} ItemsAfterAre(items: seq<Item>, at: string)
    ensures forall x :: x in ItemsAfter(items, at) ==> x in items && Later(x.at, at)
  {
    hide Later;
    if items != [] {
      ItemsAfterAre(items[1..], at);
    }
  }

  /** What is raised comes from the feed, and is later than the marker read. */
  lemma RaisedByAre(poll: Open, able: nat)
    ensures forall x :: x in RaisedBy(poll, able) ==> x in poll.feed && poll.told.Some? && Later(x.at, poll.told.value)
  {
    if poll.told.Some? {
      ItemsAfterAre(poll.feed, poll.told.value);
      hide ItemsAfter;
      hide Later;
    }
  }

  function Next(d: Device, e: Event): Device {
    match e
    case Begin(feed, readOk) =>
      if feed == [] then d
      else d.(open := d.open[d.next := Open(feed, if readOk then d.marker else None)], next := d.next + 1)
    case End(id, writeOk, able) =>
      if id !in d.open then d
      else d.(open := d.open - {id}, marker := if writeOk then Latest(d.open[id].feed) else d.marker,
              raised := d.raised + RaisedBy(d.open[id], able))
  }

  function Run(d: Device, events: seq<Event>): Device
    decreases events
  {
    if events == [] then d else Run(Next(d, events[0]), events[1..])
  }

  /** One poll with nothing between its read and its write. */
  function Poll(d: Device, feed: seq<Item>, readOk: bool, writeOk: bool, able: nat): Device {
    Next(Next(d, Begin(feed, readOk)), End(d.next, writeOk, able))
  }

  lemma PollIs(d: Device, feed: seq<Item>, readOk: bool, writeOk: bool, able: nat)
    requires d.open == map[] && feed != []
    ensures Poll(d, feed, readOk, writeOk, able)
         == Device(if writeOk then Latest(feed) else d.marker, map[], d.next + 1,
                   d.raised + RaisedBy(Open(feed, if readOk then d.marker else None), able))
  {
  }

  /** An empty feed changes nothing, the marker included. */
  lemma EmptyFeedChangesNothing(d: Device, readOk: bool)
    ensures Next(d, Begin([], readOk)) == d
  {
  }

  /** However polls overlap and whatever fails: a poll that reads no marker, as the
      first does, raises nothing, and no poll raises more than three, all of them from
      its own feed and later than the marker it read. */
  lemma EachPollRaisesFew(d: Device, e: Event)
    ensures d.raised <= Next(d, e).raised
    ensures var more := Next(d, e).raised[|d.raised|..];
            && |more| <= 3
            && (more != [] ==> e.End? && e.poll in d.open && d.open[e.poll].told.Some? && |more| <= e.able)
            && forall i :: 0 <= i < |more| ==>
                 more[i] in d.open[e.poll].feed && Later(more[i].at, d.open[e.poll].told.value)
  {
    if e.End? && e.poll in d.open {
      var more := RaisedBy(d.open[e.poll], e.able);
      RaisedByAre(d.open[e.poll], e.able);
      assert (d.raised + more)[|d.raised|..] == more;
    }
  }

  /** What a poll raises is the first of its feed's items that are later than the marker
      it read, in the feed's order: three of them, or as many as there are, or as many
      as can be raised. */
  lemma RaisesTheFirstThree(feed: seq<Item>, at: string, able: nat)
    ensures var raised, n := RaisedBy(Open(feed, Some(at)), able), LaterBefore(feed, at, |feed|);
            && |raised| <= 3 && |raised| <= n && |raised| <= able
            && (|raised| == 3 || |raised| == n || |raised| == able)
            && forall k :: 0 <= k < |feed| && Later(feed[k].at, at) && LaterBefore(feed, at, k) < |raised| ==>
                 raised[LaterBefore(feed, at, k)] == feed[k]
  {
    ItemsAfterExactly(feed, at);
    hide Later;
    hide LaterBefore;
  }

  /** `a` and `b` agree on their first `k` characters, and there `b` ends or `a` has the
      greater character. */
  predicate LaterAt(a: string, b: string, k: nat) {
    && k < |a| && k <= |b| && (forall i :: 0 <= i < k ==> a[i] == b[i])
    && (k == |b| || a[k] > b[k])
  }

  /** Text is compared character by character: the first that differs decides, and a
      text that goes on is later than one that stops. */
  lemma LaterExactly(a: string, b: string)
    ensures Later(a, b) <==> exists k: nat :: LaterAt(a, b, k)
  {
    if Later(a, b) {
      var k := LaterWitness(a, b);
    }
    if k: nat :| LaterAt(a, b, k) {
      WitnessLater(a, b, k);
    }
  }

  lemma {:induction false} LaterWitness(a: string, b: string) returns (k: nat)
    requires Later(a, b)
    ensures LaterAt(a, b, k)
  {
    if b == "" || a[0] > b[0] {
      k := 0;
    } else {
      var j := LaterWitness(a[1..], b[1..]);
      k := j + 1;
      assert forall i :: 1 <= i < k ==> a[i] == a[1..][i - 1] && b[i] == b[1..][i - 1];
    }
  }

  lemma {:induction false} WitnessLater(a: string, b: string, k: nat)
    requires LaterAt(a, b, k)
    ensures Later(a, b)
  {
    if k > 0 {
      assert LaterAt(a[1..], b[1..], k - 1);
      WitnessLater(a[1..], b[1..], k - 1);
    }
  }

  // ------------------------------------------------------------- nothing raised twice

  /** No announcement comes twice, whatever its text says. */
  predicate Distinct(items: seq<Item>) {
    forall i, j :: 0 <= i < j < |items| ==> items[i].uuid != items[j].uuid
  }

  /** An announcement seen before still has its time; its words may have changed. */
  predicate SameTimes(raised: seq<Item>, feed: seq<Item>) {
    forall i, j :: 0 <= i < |raised| && 0 <= j < |feed| && raised[i].uuid == feed[j].uuid ==>
                     raised[i].at == feed[j].at
  }

  /** The marker covers everything raised. */
  predicate Covers(marker: Option<string>, raised: seq<Item>) {
    raised != [] ==> marker.Some? && NoneLater(raised, marker.value)
  }

  lemma {:induction false} AfterDistinct(items: seq<Item>, at: string)
    requires Distinct(items)
    ensures Distinct(ItemsAfter(items, at))
  {
    if items != [] {
      AfterDistinct(items[1..], at);
      ItemsAfterAre(items[1..], at);
      hide Later;
      var rest := ItemsAfter(items[1..], at);
      assert forall i :: 0 <= i < |rest| ==> rest[i].uuid != items[0].uuid;
    }
  }

  lemma RaisedByDistinct(poll: Open, able: nat)
    requires Distinct(poll.feed)
    ensures Distinct(RaisedBy(poll, able))
  {
    if poll.told.Some? {
      AfterDistinct(poll.feed, poll.told.value);
    }
  }

  /** Whether what was raised can be raised again by some feed is decided by the marker
      the next poll reads. */
  lemma RaisedAgainExactly(marker: Option<string>, raised: seq<Item>)
    requires marker.Some?
    ensures Covers(marker, raised)
        <==> forall feed: seq<Item>, x: Item :: x in raised ==> x !in RaisedBy(Open(feed, marker), 3)
  {
    if Covers(marker, raised) {
      forall feed: seq<Item>, x: Item | x in raised ensures x !in RaisedBy(Open(feed, marker), 3) {
        RaisedByAre(Open(feed, marker), 3);
        assert !Later(x.at, marker.value);
      }
    } else {
      var i :| 0 <= i < |raised| && Later(raised[i].at, marker.value);
      var x := raised[i];
      assert ItemsAfter([x], marker.value) == [x];
      assert x in raised && x in RaisedBy(Open([x], marker), 3);
    }
  }

  /** The feed's newest is not older than anything raised. */
  predicate NotOlder(feed: seq<Item>, raised: seq<Item>) {
    Latest(feed).Some? && NoneLater(raised, Latest(feed).value)
  }

  lemma LatestCovers(feed: seq<Item>)
    requires feed != []
    ensures Latest(feed).Some? && NoneLater(feed, Latest(feed).value)
    ensures exists i :: 0 <= i < |feed| && feed[i].at == Latest(feed).value
  {
    LatestFromIs(None, feed);
  }

  lemma {:induction false} AfterIsEmpty(items: seq<Item>, at: string)
    ensures ItemsAfter(items, at) == [] <==> NoneLater(items, at)
  {
    if items != [] {
      AfterIsEmpty(items[1..], at);
      assert forall i :: 0 < i < |items| ==> items[i] == items[1..][i - 1];
    }
  }

  /** A poll raises nothing if and only if it read no marker, may raise none, or holds
      nothing later than the marker. */
  predicate RaisesNothing(feed: seq<Item>, told: Option<string>, able: nat) {
    told.None? || able == 0 || NoneLater(feed, told.value)
  }

  lemma RaisesNothingExactly(feed: seq<Item>, told: Option<string>, able: nat)
    ensures RaisedBy(Open(feed, told), able) == [] <==> RaisesNothing(feed, told, able)
  {
    if told.Some? {
      AfterIsEmpty(feed, told.value);
    }
  }

  function MarkerRead(d: Device, readOk: bool): Option<string> {
    if readOk then d.marker else None
  }

  /** Exactly when one poll leaves the marker covering what was raised: if it writes,
      when its newest is not older than anything raised before; if the write fails, when
      it has nothing to raise. */
  lemma PollCoversExactly(d: Device, feed: seq<Item>, readOk: bool, writeOk: bool, able: nat)
    requires d.open == map[] && feed != [] && Covers(d.marker, d.raised)
    ensures var now := Poll(d, feed, readOk, writeOk, able);
            Covers(now.marker, now.raised)
            <==> if writeOk then NotOlder(feed, d.raised) else RaisesNothing(feed, MarkerRead(d, readOk), able)
  {
    PollIs(d, feed, readOk, writeOk, able);
    LatestCovers(feed);
    var told := MarkerRead(d, readOk);
    RaisesNothingExactly(feed, told, able);
    var more := RaisedBy(Open(feed, told), able);
    RaisedByAre(Open(feed, told), able);
    hide Latest;
    hide Poll;
    hide Later;
    hide Fresh;
    hide RaisedBy;
    hide RaisesNothing;
    CoversBoth(d.raised, more, if writeOk then Latest(feed) else d.marker);
    if writeOk {
      assert NoneLater(more, Latest(feed).value);
    } else if more != [] {
      assert Later(more[0].at, d.marker.value);
    }
  }

  lemma CoversBoth(raised: seq<Item>, more: seq<Item>, marker: Option<string>)
    ensures Covers(marker, raised + more) <==> Covers(marker, raised) && Covers(marker, more)
  {
    var all := raised + more;
    assert forall i :: 0 <= i < |more| ==> all[|raised| + i] == more[i];
    assert forall i :: 0 <= i < |raised| ==> all[i] == raised[i];
  }

  /** One poll, as it ends. */
  datatype Answer = Answer(feed: seq<Item>, readOk: bool, writeOk: bool, able: nat)

  function Polled(d: Device, p: Answer): Device {
    if p.feed == [] then d else Poll(d, p.feed, p.readOk, p.writeOk, p.able)
  }

  function Polls(d: Device, polls: seq<Answer>): Device
    decreases polls
  {
    if polls == [] then d
    else Polls(Polled(d, polls[0]), polls[1..])
  }

  /** Each feed names an announcement once and at its own time, and a poll writes a
      newest that is not older than anything raised, or has nothing to raise. */
  predicate Steady(d: Device, polls: seq<Answer>)
    decreases polls
  {
    polls != [] ==>
      var p := polls[0];
      && Distinct(p.feed) && SameTimes(d.raised, p.feed)
      && (p.feed != [] ==>
            if p.writeOk then NotOlder(p.feed, d.raised)
            else RaisesNothing(p.feed, MarkerRead(d, p.readOk), p.able))
      && Steady(Polled(d, p), polls[1..])
  }

  /** What one poll raises is later than everything raised before it, and new. */
  lemma PollRaisesNew(d: Device, feed: seq<Item>, readOk: bool, writeOk: bool, able: nat)
    requires d.open == map[] && feed != [] && Covers(d.marker, d.raised)
    ensures var now := Poll(d, feed, readOk, writeOk, able).raised;
            && d.raised <= now
            && (forall i, j :: 0 <= i < |d.raised| <= j < |now| ==> Later(now[j].at, now[i].at))
            && (Distinct(d.raised) && Distinct(feed) && SameTimes(d.raised, feed) ==> Distinct(now))
  {
    PollIs(d, feed, readOk, writeOk, able);
    var poll := Open(feed, MarkerRead(d, readOk));
    var more := RaisedBy(poll, able);
    RaisedByAre(poll, able);
    if Distinct(feed) {
      RaisedByDistinct(poll, able);
    }
    hide *;
    if more != [] && d.raised != [] {
      AllLater(d.raised, more, d.marker.value) by {
        CoversIs(d, feed, readOk, able);
      }
    }
    if SameTimes(d.raised, feed) && Distinct(d.raised) && Distinct(feed) {
      assert forall j :: 0 <= j < |more| ==> more[j] in feed by { assert poll.feed == feed; }
      BothDistinct(d.raised, more, feed);
    }
    assert forall i :: 0 <= i < |d.raised| ==> (d.raised + more)[i] == d.raised[i];
    assert forall j :: |d.raised| <= j < |d.raised + more| ==> (d.raised + more)[j] == more[j - |d.raised|];
  }

  lemma CoversIs(d: Device, feed: seq<Item>, readOk: bool, able: nat)
    requires Covers(d.marker, d.raised) && d.raised != []
    ensures d.marker.Some? && NoneLater(d.raised, d.marker.value)
    ensures forall x :: x in RaisedBy(Open(feed, MarkerRead(d, readOk)), able) ==> Later(x.at, d.marker.value)
  {
    RaisedByAre(Open(feed, MarkerRead(d, readOk)), able);
    hide Later;
    hide Fresh;
    hide RaisedBy;
  }

  lemma AllLater(raised: seq<Item>, more: seq<Item>, marker: string)
    requires NoneLater(raised, marker) && forall x :: x in more ==> Later(x.at, marker)
    ensures forall i, j :: 0 <= i < |raised| && 0 <= j < |more| ==> Later(more[j].at, raised[i].at)
  {
    forall i, j | 0 <= i < |raised| && 0 <= j < |more| ensures Later(more[j].at, raised[i].at) {
      assert more[j] in more;
      LaterOrder(more[j].at, marker, raised[i].at);
      hide Later;
    }
  }

  lemma BothDistinct(raised: seq<Item>, more: seq<Item>, feed: seq<Item>)
    requires SameTimes(raised, feed) && Distinct(raised) && Distinct(more)
    requires forall j :: 0 <= j < |more| ==> more[j] in feed
    requires forall i, j :: 0 <= i < |raised| && 0 <= j < |more| ==> Later(more[j].at, raised[i].at)
    ensures Distinct(raised + more)
  {
    forall i, j | 0 <= i < |raised| && 0 <= j < |more| ensures raised[i].uuid != more[j].uuid {
      var k :| 0 <= k < |feed| && feed[k] == more[j];
      LaterOrder(more[j].at, more[j].at, more[j].at);
    }
  }

  /** Runs of polls that do not overlap: nothing is raised twice, and the marker covers
      everything raised. */
  lemma {:induction false} NothingRaisedTwice(d: Device, polls: seq<Answer>)
    requires d.open == map[] && Covers(d.marker, d.raised) && Distinct(d.raised) && Steady(d, polls)
    ensures var end := Polls(d, polls);
            end.open == map[] && Covers(end.marker, end.raised) && Distinct(end.raised)
    decreases polls
  {
    if polls != [] {
      var p := polls[0];
      if p.feed == [] {
        NothingRaisedTwice(d, polls[1..]);
      } else {
        PollIs(d, p.feed, p.readOk, p.writeOk, p.able);
        PollCoversExactly(d, p.feed, p.readOk, p.writeOk, p.able);
        PollRaisesNew(d, p.feed, p.readOk, p.writeOk, p.able);
        hide Poll;
        hide Covers;
        hide Distinct;
        NothingRaisedTwice(Poll(d, p.feed, p.readOk, p.writeOk, p.able), polls[1..]);
      }
    }
  }

  /** A working store, feeds that name an announcement once and always at the same
      time, and a newest time that never goes back. */
  predicate Forward(marker: Option<string>, seen: seq<Item>, polls: seq<Answer>)
    decreases polls
  {
    polls != [] ==>
      var p := polls[0];
      && Distinct(p.feed) && SameTimes(seen, p.feed) && p.writeOk
      && (if p.feed == [] then Forward(marker, seen, polls[1..])
          else (marker.Some? && Latest(p.feed).Some? ==> !Later(marker.value, Latest(p.feed).value))
               && Forward(Latest(p.feed), seen + p.feed, polls[1..]))
  }

  lemma RaisedWasSeen(d: Device, feed: seq<Item>, readOk: bool, writeOk: bool, able: nat, seen: seq<Item>)
    requires d.open == map[] && feed != [] && forall x :: x in d.raised ==> x in seen
    ensures forall x :: x in Poll(d, feed, readOk, writeOk, able).raised ==> x in seen + feed
  {
    PollIs(d, feed, readOk, writeOk, able);
    RaisedByAre(Open(feed, MarkerRead(d, readOk)), able);
    hide Poll;
    hide RaisedBy;
    hide Later;
  }

  lemma OlderStaysCovered(marker: string, raised: seq<Item>, newest: string)
    requires NoneLater(raised, marker) && !Later(marker, newest)
    ensures NoneLater(raised, newest)
  {
    forall i | 0 <= i < |raised| ensures !Later(raised[i].at, newest) {
      LaterOrder(raised[i].at, marker, newest);
    }
  }

  lemma SameTimesOfFewer(raised: seq<Item>, seen: seq<Item>, feed: seq<Item>)
    requires SameTimes(seen, feed) && forall x :: x in raised ==> x in seen
    ensures SameTimes(raised, feed)
  {
    forall i, j | 0 <= i < |raised| && 0 <= j < |feed| && raised[i].uuid == feed[j].uuid
      ensures raised[i].at == feed[j].at
    {
      assert raised[i] in seen;
      var k :| 0 <= k < |seen| && seen[k] == raised[i];
    }
  }

  /** Such runs are steady, so that nothing is raised twice in them. */
  lemma {:induction false} ForwardIsSteady(d: Device, seen: seq<Item>, polls: seq<Answer>)
    requires d.open == map[] && Covers(d.marker, d.raised) && Distinct(d.raised)
    requires Forward(d.marker, seen, polls) && forall x :: x in d.raised ==> x in seen
    ensures Steady(d, polls) && Distinct(Polls(d, polls).raised)
    decreases polls
  {
    if polls != [] {
      var p := polls[0];
      if p.feed == [] {
        ForwardIsSteady(d, seen, polls[1..]);
      } else {
        PollIs(d, p.feed, p.readOk, p.writeOk, p.able);
        LatestCovers(p.feed);
        if d.raised != [] {
          OlderStaysCovered(d.marker.value, d.raised, Latest(p.feed).value);
        }
        PollCoversExactly(d, p.feed, p.readOk, p.writeOk, p.able);
        assert SameTimes(d.raised, p.feed) by { SameTimesOfFewer(d.raised, seen, p.feed); }
        PollRaisesNew(d, p.feed, p.readOk, p.writeOk, p.able);
        RaisedWasSeen(d, p.feed, p.readOk, p.writeOk, p.able, seen);
        hide Poll;
        hide Covers;
        hide Distinct;
        hide Latest;
        hide SameTimes;
        ForwardIsSteady(Poll(d, p.feed, p.readOk, p.writeOk, p.able), seen + p.feed, polls[1..]);
      }
    }
  }

  function Started(marker: string): Device {
    Device(Some(marker), map[], 0, [])
  }

  /** Two polls that overlap, each reading the marker before the other wrote it, raise
      the same announcement twice. */
  lemma OverlapRaisesTwice(x: Item, marker: string)
    requires Later(x.at, marker)
    ensures Run(Started(marker), [Begin([x], true), Begin([x], true), End(0, true, 1), End(1, true, 1)])
              .raised == [x, x]
  {
    var d0 := Started(marker);
    var e := [Begin([x], true), Begin([x], true), End(0, true, 1), End(1, true, 1)];
    var open := Open([x], Some(marker));
    assert ItemsAfter([x], marker) == [x];
    assert RaisedBy(open, 1) == [x];
    hide RaisedBy;
    hide Later;
    hide Latest;
    var d1 := Next(d0, e[0]);
    var d2 := Next(d1, e[1]);
    assert d2 == Started(marker).(open := map[0 := open, 1 := open], next := 2);
    var d3 := Next(d2, e[2]);
    assert d3.open == map[1 := open] && d3.raised == [x];
    var d4 := Next(d3, e[3]);
    assert d4.raised == [x, x];
    hide Next;
    assert Run(d0, e) == Run(d1, e[1..]);
    assert e[1..][1..] == e[2..] && Run(d1, e[1..]) == Run(d2, e[2..]);
    assert e[2..][1..] == e[3..] && Run(d2, e[2..]) == Run(d3, e[3..]);
    assert e[3..][1..] == [] && Run(d3, e[3..]) == Run(d4, []);
  }

  /** A newest that goes back lets the next feed raise an old announcement again. */
  lemma NewestGoingBackRaisesAgain(d: Device, x: Item, y: Item)
    requires d.open == map[] && x in d.raised && Later(x.at, y.at)
    ensures var d1 := Poll(d, [y], true, true, 3);
            d1.marker == Some(y.at) && Poll(d1, [x], true, true, 3).raised == d1.raised + [x]
  {
    PollIs(d, [y], true, true, 3);
    var d1 := Poll(d, [y], true, true, 3);
    assert [y][1..] == [];
    assert LatestFrom(None, [y]) == LatestFrom(Some(y.at), [y][1..]);
    PollIs(d1, [x], true, true, 3);
    assert ItemsAfter([x], y.at) == [x];
  }

  // --------------------------------------------------------------------- the handset

  lemma RaisedOf(feed: seq<Item>, told: Option<string>, able: nat)
    ensures RaisedBy(Open(feed, told), able)
         == if told.None? then []
            else Fresh(feed, told.value)[..if able < |Fresh(feed, told.value)| then able else |Fresh(feed, told.value)|]
  {
    hide Fresh;
  }

  class Handset {
    var marker: Option<string>
    var next: nat
    var raised: seq<Item>

    function View(): Device
      reads this
    {
      Device(marker, map[], next, raised)
    }

    /** One poll, with the store and the status bar as the parameters say. */
    method NotifyNew(items: seq<Item>, readOk: bool, writeOk: bool, able: nat)
      modifies this
      ensures View() == if items == [] then old(View()) else Poll(old(View()), items, readOk, writeOk, able)
    {
      var newest := Latest(items);
      if items == [] {
        return;
      }
      var told := if readOk then marker else None;
      PollIs(View(), items, readOk, writeOk, able);
      RaisedOf(items, told, able);
      hide *;
      next := next + 1;
      if writeOk {
        marker := newest;
      }
      if told.None? {
        return;
      }
      var few := Fresh(items, told.value);
      var n := if able < |few| then able else |few|;
      ghost var before := raised;
      for i := 0 to n
        invariant raised == before + few[..i]
        invariant marker == (if writeOk then newest else old(marker)) && next == old(next) + 1
      {
        raised := raised + [few[i]];
        assert few[..i + 1] == few[..i] + [few[i]];
      }
    }
  }
}
