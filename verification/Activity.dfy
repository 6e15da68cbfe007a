/** The Activity screen (`apps/mobile/app/activity.tsx`): keyset paging under filter
    switches, with first pages, older pages and new postings arriving in any order.

    The screen's handlers are the functions `Selected`, `FirstArrived`, ... on a
    `Screen` value; the class `ActivityScreen` updates its fields as the component
    does and is proved against them; the whole system adds the server's log and
    runs every interleaving. */
module Activity {
  import opened Text
  import opened Ledger
  import opened Loads

  // ------------------------------------------------------------------ the screen

  /** A page asked for by "Load more": for which tab, and below which cursor. */
  datatype More = More(asked: Tab, before: nat)

  datatype Screen = Screen(
    first: Hook<Tab, Page>,
    pages: seq<Posting>,
    cursor: Option<nat>,
    paging: bool,
    moreError: Option<Failure>)

  function Opened(tab: Tab): Screen {
    Screen(Mount(tab), [], None, false, None)
  }

  /** The tab the rail shows as selected; `current.current` is always this one. */
  function Current(s: Screen): Tab {
    s.first.deps
  }

  predicate Shown(s: Screen) {
    Settled(s.first)
  }

  function Selected(s: Screen, tab: Tab): Screen {
    s.(first := Step(s.first, Rerender(tab)))
  }

  /** A first page: the load itself stores it when its tab is still selected, whether
      or not its generation was cancelled. */
  function FirstArrived(s: Screen, g: nat, page: Page): Screen {
    if !IsAsking(s.first, g) then s
    else
      var stored :=
        if s.first.attempts[g].asked == Current(s)
        then s.(pages := page.entries, cursor := page.next, moreError := None)
        else s;
      stored.(first := Step(s.first, Resolve(g, page)))
  }

  function FirstFailed(s: Screen, g: nat, failure: Failure): Screen {
    s.(first := Step(s.first, Reject(g, failure)))
  }

  function FirstRetried(s: Screen, g: nat): Screen {
    s.(first := Step(s.first, Wake(g)))
  }

  /** "Load more" is drawn on a settled screen with a cursor, and inert while paging. */
  predicate CanLoadMore(s: Screen) {
    Shown(s) && s.cursor.Some? && !s.paging
  }

  function Asked(s: Screen): Screen
    requires CanLoadMore(s)
  {
    s.(paging := true, moreError := None)
  }

  function OlderArrived(s: Screen, asked: Tab, page: Page): Screen {
    if asked != Current(s) then s.(paging := false)
    else s.(pages := s.pages + page.entries, cursor := page.next, paging := false)
  }

  function OlderFailed(s: Screen, asked: Tab, failure: Failure): Screen {
    if asked != Current(s) then s.(paging := false)
    else s.(moreError := Some(failure), paging := false)
  }

  class ActivityScreen {
    const first: UseLoad<Tab, Page>
    var pages: seq<Posting>
    var cursor: Option<nat>
    var paging: bool
    var moreError: Option<Failure>

    function View(): Screen
      reads this, first
    {
      Screen(first.View(), pages, cursor, paging, moreError)
    }

    ghost predicate Valid()
      reads this, first
    {
      Loads.Inv(first.View())
    }

    constructor (tab: Tab)
      ensures Valid() && fresh(first) && View() == Opened(tab)
    {
      first := new UseLoad<Tab, Page>(tab);
      pages, cursor, paging, moreError := [], None, false, None;
    }

    method Select(tab: Tab)
      requires Valid()
      modifies this, first
      ensures Valid() && View() == Selected(old(View()), tab)
    {
      first.Render(tab);
    }

    method FirstPage(g: nat, page: Page)
      requires Valid()
      modifies this, first
      ensures Valid() && View() == FirstArrived(old(View()), g, page)
    {
      if g in first.attempts && first.attempts[g].Asking? {
        if first.attempts[g].asked == first.deps {
          pages := page.entries;
          cursor := page.next;
          moreError := None;
        }
        first.Succeed(g, page);
      }
    }

    /** Answers what was asked of the server, if anything was. */
    method LoadMore() returns (request: Option<More>)
      requires Valid() && Shown(View())
      modifies this
      ensures Valid()
      ensures request == if CanLoadMore(old(View())) then Some(More(Current(old(View())), old(cursor).value)) else None
      ensures View() == if CanLoadMore(old(View())) then Asked(old(View())) else old(View())
    {
      if cursor.None? || paging {
        return None;
      }
      paging := true;
      moreError := None;
      request := Some(More(first.deps, cursor.value));
    }

    method OlderPage(asked: Tab, answer: Result<Page, Failure>)
      requires Valid()
      modifies this
      ensures Valid()
      ensures View() == match answer
                        case Ok(page) => OlderArrived(old(View()), asked, page)
                        case Err(failure) => OlderFailed(old(View()), asked, failure)
    {
      if first.deps == asked {
        match answer {
          case Ok(page) =>
            pages := pages + page.entries;
            cursor := page.next;
          case Err(failure) =>
            moreError := Some(failure);
        }
      }
      paging := false;
    }
  }

  // ------------------------------------------------------------ the whole system

  /** The server's log, the screen, and the older page in flight: what it asked, and
      how long the log was when it asked. `top` is how long the log was when the first
      page on screen was read. */
  datatype System = System(
    log: seq<Posting>,
    limit: nat,
    screen: Screen,
    more: Option<More>,
    since: nat,
    top: nat)

  /** `seen` is how much of the log the server had when it answered. */
  datatype Event =
    | Post(p: Posting)
    | Select(tab: Tab)
    | FirstAnswer(gen: nat, seen: nat)
    | FirstFailure(gen: nat, failure: Failure)
    | FirstRetry(gen: nat)
    | TapMore
    | MoreAnswer(seen: nat)
    | MoreFailure(failure: Failure)

  /** The screen is opened on a history of any length. */
  function Start(log: seq<Posting>, tab: Tab, limit: nat): System {
    System(log, limit, Opened(tab), None, 0, 0)
  }

  function FirstPageAt(s: System, tab: Tab, seen: nat): Page
    requires s.limit > 0 && seen <= |s.log|
  {
    PageOf(History(s.log[..seen], tab), None, s.limit)
  }

  function OlderPageAt(s: System, m: More, seen: nat): Page
    requires s.limit > 0 && seen <= |s.log|
  {
    PageOf(History(s.log[..seen], m.asked), Some(m.before), s.limit)
  }

  function FirstServed(s: System, g: nat, seen: nat): System
    requires s.limit > 0 && seen <= |s.log| && IsAsking(s.screen.first, g)
  {
    var asked := s.screen.first.attempts[g].asked;
    s.(screen := FirstArrived(s.screen, g, FirstPageAt(s, asked, seen)),
       top := if asked == Current(s.screen) then seen else s.top)
  }

  function Next(s: System, e: Event): (r: System)
    requires s.limit > 0
    ensures r.limit == s.limit
  {
    match e
    case Post(p) =>
      if s.log != [] && p.id <= s.log[|s.log| - 1].id then s else s.(log := s.log + [p])
    case Select(tab) =>
      s.(screen := Selected(s.screen, tab))
    case FirstAnswer(g, seen) =>
      if seen <= |s.log| && IsAsking(s.screen.first, g)
      then FirstServed(s, g, seen)
      else s
    case FirstFailure(g, failure) =>
      s.(screen := FirstFailed(s.screen, g, failure))
    case FirstRetry(g) =>
      s.(screen := FirstRetried(s.screen, g))
    case TapMore =>
      if CanLoadMore(s.screen)
      then s.(screen := Asked(s.screen),
              more := Some(More(Current(s.screen), s.screen.cursor.value)), since := |s.log|)
      else s
    case MoreAnswer(seen) =>
      if s.more.Some? && s.since <= seen <= |s.log|
      then s.(screen := OlderArrived(s.screen, s.more.value.asked, OlderPageAt(s, s.more.value, seen)), more := None)
      else s
    case MoreFailure(failure) =>
      if s.more.Some?
      then s.(screen := OlderFailed(s.screen, s.more.value.asked, failure), more := None)
      else s
  }

  function Run(s: System, events: seq<Event>): (r: System)
    requires s.limit > 0
    ensures r.limit == s.limit
    decreases events
  {
    if events == [] then s else Run(Next(s, events[0]), events[1..])
  }

  // ---------------------------------------------------- what holds without condition

  /** A cursor names a row of that history. */
  ghost predicate RowOf(h: seq<Posting>, id: nat) {
    exists j :: 0 <= j < |h| && h[j].id == id
  }

  ghost predicate AllOf(rows: seq<Posting>, tab: Tab) {
    forall i :: 0 <= i < |rows| ==> Matches(tab, rows[i])
  }

  ghost predicate Inv(s: System) {
    && s.limit > 0
    && Increasing(s.log)
    && Loads.Inv(s.screen.first)
    && s.since <= |s.log| && s.top <= |s.log|
    && (s.screen.paging <==> s.more.Some?)
    && (s.more.Some? ==> RowOf(History(s.log[..s.since], s.more.value.asked), s.more.value.before))
    && (Shown(s.screen) ==> AllOf(s.screen.pages, Current(s.screen)))
    && (Shown(s.screen) && s.screen.cursor.Some? ==>
          RowOf(History(s.log, Current(s.screen)), s.screen.cursor.value))
  }

  lemma RowStays(log: seq<Posting>, seen: nat, tab: Tab, id: nat)
    requires seen <= |log| && RowOf(History(log[..seen], tab), id)
    ensures RowOf(History(log, tab), id)
  {
    HistoryGrows(log, seen, tab);
    var h := History(log[..seen], tab);
    var j :| 0 <= j < |h| && h[j].id == id;
    assert History(log, tab)[j] == h[j];
  }

  lemma PageIsOfTab(h: seq<Posting>, tab: Tab, before: Option<nat>, limit: nat)
    requires limit > 0 && forall i :: 0 <= i < |h| ==> Matches(tab, h[i])
    ensures var page := PageOf(h, before, limit);
            AllOf(page.entries, tab) && (page.next.Some? ==> RowOf(h, page.next.value))
  {
    var k := Below(h, before);
    var n := if limit < k then limit else k;
    if n == limit {
      assert h[k - n].id == PageOf(h, before, limit).next.value;
    }
  }

  lemma PostKeepsInv(s: System, p: Posting)
    requires Inv(s)
    ensures Inv(Next(s, Post(p)))
  {
    var t := Next(s, Post(p));
    if t != s {
      assert t.log[..|s.log|] == s.log;
      assert t.log[..s.since] == s.log[..s.since];
      if Shown(s.screen) && s.screen.cursor.Some? {
        RowStays(t.log, |s.log|, Current(s.screen), s.screen.cursor.value);
      }
    }
  }

  /** The selected tab is the one last tapped. */
  function SelectedAfter(tab: Tab, events: seq<Event>): Tab {
    if events == [] then tab
    else if events[|events| - 1].Select? then events[|events| - 1].tab
    else SelectedAfter(tab, events[..|events| - 1])
  }

  lemma NextSelects(s: System, e: Event)
    requires s.limit > 0
    ensures Current(Next(s, e).screen) == if e.Select? then e.tab else Current(s.screen)
    ensures s.log <= Next(s, e).log
  {
    hide FirstPageAt;
    hide OlderPageAt;
  }

  lemma {:induction false} SelectsLastTapped(log: seq<Posting>, tab: Tab, limit: nat, events: seq<Event>)
    requires limit > 0
    ensures Current(Run(Start(log, tab, limit), events).screen) == SelectedAfter(tab, events)
  {
    if events != [] {
      var before, last := events[..|events| - 1], events[|events| - 1];
      SelectsLastTapped(log, tab, limit, before);
      assert events == before + [last];
      RunSnoc(Start(log, tab, limit), before, last);
      NextSelects(Run(Start(log, tab, limit), before), last);
      hide Next;
      hide Run;
    }
  }

  /** What a first page brings is of its tab, and its cursor names a row. */
  lemma FirstPageIsOfTab(s: System, tab: Tab, seen: nat)
    requires s.limit > 0 && seen <= |s.log|
    ensures var page := FirstPageAt(s, tab, seen);
            && AllOf(page.entries, tab)
            && (page.next.Some? ==> RowOf(History(s.log, tab), page.next.value))
  {
    var page := FirstPageAt(s, tab, seen);
    HistoryIsOfTab(s.log[..seen], tab);
    PageIsOfTab(History(s.log[..seen], tab), tab, None, s.limit);
    hide PageOf;
    hide History;
    if page.next.Some? {
      RowStays(s.log, seen, tab, page.next.value);
    }
  }

  lemma FirstKeepsInv(s: System, g: nat, seen: nat)
    requires Inv(s)
    ensures Inv(Next(s, FirstAnswer(g, seen)))
  {
    if seen <= |s.log| && IsAsking(s.screen.first, g) {
      var tab := s.screen.first.attempts[g].asked;
      FirstPageIsOfTab(s, tab, seen);
      hide FirstPageAt;
      hide RowOf;
      hide AllOf;
      hide History;
      hide Increasing;
      StepKeepsInv(s.screen.first, Resolve(g, FirstPageAt(s, tab, seen)));
    }
  }

  lemma OlderPageIsOfTab(s: System, m: More, seen: nat)
    requires s.limit > 0 && seen <= |s.log|
    ensures var page := OlderPageAt(s, m, seen);
            && AllOf(page.entries, m.asked)
            && (page.next.Some? ==> RowOf(History(s.log, m.asked), page.next.value))
  {
    var page := OlderPageAt(s, m, seen);
    HistoryIsOfTab(s.log[..seen], m.asked);
    PageIsOfTab(History(s.log[..seen], m.asked), m.asked, Some(m.before), s.limit);
    hide PageOf;
    hide History;
    if page.next.Some? {
      RowStays(s.log, seen, m.asked, page.next.value);
    }
  }

  lemma AllOfBoth(a: seq<Posting>, b: seq<Posting>, tab: Tab)
    requires AllOf(a, tab) && AllOf(b, tab)
    ensures AllOf(a + b, tab)
  {
  }

  lemma MoreKeepsInv(s: System, seen: nat)
    requires Inv(s)
    ensures Inv(Next(s, MoreAnswer(seen)))
  {
    if s.more.Some? && s.since <= seen <= |s.log| {
      OlderPageIsOfTab(s, s.more.value, seen);
      hide OlderPageAt;
      hide RowOf;
      hide AllOf;
      hide History;
      hide Increasing;
      if Shown(s.screen) && s.more.value.asked == Current(s.screen) {
        AllOfBoth(s.screen.pages, OlderPageAt(s, s.more.value, seen).entries, s.more.value.asked);
      }
    }
  }

  lemma NextKeepsInv(s: System, e: Event)
    requires Inv(s)
    ensures Inv(Next(s, e))
  {
    match e
    case Post(p) => PostKeepsInv(s, p);
    case Select(tab) => StepKeepsInv<Tab, Page>(s.screen.first, Rerender(tab));
    case FirstAnswer(g, seen) => FirstKeepsInv(s, g, seen);
    case FirstFailure(g, failure) => StepKeepsInv<Tab, Page>(s.screen.first, Reject(g, failure));
    case FirstRetry(g) => StepKeepsInv<Tab, Page>(s.screen.first, Wake(g));
    case TapMore => assert s.log[..|s.log|] == s.log;
    case MoreAnswer(seen) => MoreKeepsInv(s, seen);
    case MoreFailure(failure) =>
  }

  lemma {:induction false} RunKeepsInv(s: System, events: seq<Event>)
    requires Inv(s)
    ensures Inv(Run(s, events))
    decreases events
  {
    if events != [] {
      NextKeepsInv(s, events[0]);
      RunKeepsInv(Next(s, events[0]), events[1..]);
    }
  }

  /** Every interleaving: rows on a settled screen are rows of the selected tab. */
  lemma SettledRowsAreOfTab(log: seq<Posting>, tab: Tab, limit: nat, events: seq<Event>)
    requires limit > 0 && Increasing(log)
    ensures var s := Run(Start(log, tab, limit), events).screen;
            !s.first.loading && s.first.error.None? ==>
              forall i :: 0 <= i < |s.pages| ==>
                && s.pages[i].currency == s.first.deps.currency
                && (s.first.deps.kinds == [] || s.pages[i].kind in s.first.deps.kinds)
  {
    RunKeepsInv(Start(log, tab, limit), events);
  }

  // ------------------------------------------------------- the run of the history

  /** The rows are the run of the history that starts at its `top`-th row and goes down
      without a gap, and the cursor is the last of them -- absent only when the run
      reaches the oldest posting. */
  predicate Stretch(pages: seq<Posting>, cursor: Option<nat>, h: seq<Posting>, top: nat) {
    && |pages| <= top <= |h|
    && pages == Newest(h, top - |pages|, |pages|)
    && (cursor.None? ==> |pages| == top)
    && (cursor.Some? ==> pages != [] && cursor.value == h[top - |pages|].id)
  }

  /** How much of a tab's history there was when the first page on screen was read. */
  function TopOf(s: System): nat
    requires s.top <= |s.log|
  {
    |History(s.log[..s.top], Current(s.screen))|
  }

  /** A settled screen shows its tab's history from the newest row of the first page. */
  predicate ShowsStretch(s: System)
    requires s.top <= |s.log|
  {
    Shown(s.screen) ==> Stretch(s.screen.pages, s.screen.cursor, History(s.log, Current(s.screen)), TopOf(s))
  }

  /** No row twice, and every row older than the one above it. */
  lemma StretchHasNoDuplicates(pages: seq<Posting>, cursor: Option<nat>, h: seq<Posting>, top: nat)
    requires Increasing(h) && Stretch(pages, cursor, h, top)
    ensures forall i, j :: 0 <= i < j < |pages| ==> pages[j].id < pages[i].id
  {
  }

  /** An older page follows on when the cursor is still the one it was asked with, or
      when it brings nothing to a screen that has reached the oldest row. */
  predicate FollowsOn(cursor: Option<nat>, before: nat, page: Page) {
    cursor == Some(before) || (cursor.None? && page.entries == [])
  }

  lemma StretchGrows(pages: seq<Posting>, cursor: Option<nat>, h: seq<Posting>, k: seq<Posting>, top: nat)
    requires h <= k && Stretch(pages, cursor, h, top)
    ensures Stretch(pages, cursor, k, top)
  {
    assert Newest(k, top - |pages|, |pages|) == Newest(h, top - |pages|, |pages|);
  }

  lemma FirstPageIsStretch(h: seq<Posting>, limit: nat)
    requires limit > 0
    ensures var page := PageOf(h, None, limit); Stretch(page.entries, page.next, h, |h|)
  {
  }

  /** The page below a row is the same however many newer rows the server had. */
  lemma OlderPageIsStable(h: seq<Posting>, k: seq<Posting>, j: nat, limit: nat)
    requires limit > 0 && Increasing(k) && h <= k && j < |h|
    ensures PageOf(h, Some(h[j].id), limit) == PageOf(k, Some(k[j].id), limit)
  {
    assert Increasing(h) by {
      forall a, b | 0 <= a < b < |h| ensures h[a].id < h[b].id {
        assert h[a] == k[a] && h[b] == k[b];
      }
    }
    BelowRow(h, j);
    BelowRow(k, j);
    var n := if limit < j then limit else j;
    assert h[j] == k[j];
    assert Newest(h, j - n, n) == Newest(k, j - n, n);
    if n == limit {
      assert h[j - n] == k[j - n];
    }
  }

  /** Appending the page below row `j` to a stretch gives a stretch from the same top
      if and only if it follows on. */
  lemma AppendExactly(pages: seq<Posting>, cursor: Option<nat>, h: seq<Posting>, top: nat, j: nat, limit: nat)
    requires limit > 0 && Increasing(h) && j < |h|
    requires Stretch(pages, cursor, h, top)
    ensures var page := PageOf(h, Some(h[j].id), limit);
            Stretch(pages + page.entries, page.next, h, top)
            <==> FollowsOn(cursor, h[j].id, page)
  {
    var page := PageOf(h, Some(h[j].id), limit);
    var lo := top - |pages|;
    BelowRow(h, j);
    if cursor == Some(h[j].id) {
      SameRow(h, lo, j);
      OlderPageExtends(pages, h, top, limit);
    } else if page.entries == [] {
      assert pages + page.entries == pages;
    } else if Stretch(pages + page.entries, page.next, h, top) {
      NextRowFollows(pages, page.entries, h, top, j);
    }
  }

  lemma SameRow(h: seq<Posting>, i: nat, j: nat)
    requires Increasing(h) && i < |h| && j < |h| && h[i].id == h[j].id
    ensures i == j
  {
  }

  lemma OlderPageExtends(pages: seq<Posting>, h: seq<Posting>, top: nat, limit: nat)
    requires limit > 0 && Increasing(h) && |pages| <= top <= |h| && pages != []
    requires Stretch(pages, Some(h[top - |pages|].id), h, top)
    ensures var page := PageOf(h, Some(h[top - |pages|].id), limit);
            Stretch(pages + page.entries, page.next, h, top)
  {
    var lo := top - |pages|;
    BelowRow(h, lo);
    var n := if limit < lo then limit else lo;
    NewestJoins(h, lo - n, n, |pages|);
    hide Newest;
  }

  lemma NewestJoins(h: seq<Posting>, lo: nat, n: nat, m: nat)
    requires lo + n + m <= |h|
    ensures Newest(h, lo + n, m) + Newest(h, lo, n) == Newest(h, lo, m + n)
  {
  }

  /** The first row appended stands right below the last one shown. */
  lemma NextRowFollows(pages: seq<Posting>, more: seq<Posting>, h: seq<Posting>, top: nat, j: nat)
    requires Increasing(h) && more != [] && 0 < j <= |h| && more[0] == h[j - 1]
    requires |pages + more| <= top <= |h| && pages + more == Newest(h, top - |pages + more|, |pages + more|)
    ensures j == top - |pages|
  {
    var i := |pages|;
    assert (pages + more)[i] == more[0];
    assert Newest(h, top - |pages + more|, |pages + more|)[i] == h[top - 1 - i];
    SameRow(h, j - 1, top - 1 - i);
  }

  // --------------------------------------------- when the screen shows a stretch

  /** What takes the stretch apart: an older page that does not follow on. */
  ghost predicate Follows(s: System, e: Event)
    requires s.limit > 0
  {
    e.MoreAnswer? && s.more.Some? && s.since <= e.seen <= |s.log|
    && Shown(s.screen) && s.more.value.asked == Current(s.screen)
    ==> FollowsOn(s.screen.cursor, s.more.value.before, OlderPageAt(s, s.more.value, e.seen))
  }

  /** When an older page arrives on a settled screen for its tab, the screen still shows
      its stretch if and only if the page follows on. */
  lemma OlderAnswerExactly(s: System, seen: nat)
    requires Inv(s) && ShowsStretch(s) && Shown(s.screen)
    requires s.more.Some? && s.since <= seen <= |s.log| && s.more.value.asked == Current(s.screen)
    ensures ShowsStretch(Next(s, MoreAnswer(seen))) <==> Follows(s, MoreAnswer(seen))
  {
    hide PageOf;
    hide Stretch;
    hide History;
    var j := OlderPageOf(s, seen);
    AppendExactly(s.screen.pages, s.screen.cursor, History(s.log, s.more.value.asked), TopOf(s), j, s.limit);
  }

  /** An older page, whenever it was served, is the page below a row of the history. */
  lemma OlderPageOf(s: System, seen: nat) returns (j: nat)
    requires Inv(s) && s.more.Some? && s.since <= seen <= |s.log|
    ensures var h := History(s.log, s.more.value.asked);
            && Increasing(h) && j < |h| && h[j].id == s.more.value.before
            && OlderPageAt(s, s.more.value, seen) == PageOf(h, Some(h[j].id), s.limit)
  {
    hide PageOf;
    hide History;
    var tab, before := s.more.value.asked, s.more.value.before;
    HistoryIncreasing(s.log, tab);
    var since := History(s.log[..s.since], tab);
    j :| j < |since| && since[j].id == before;
    assert s.log[..seen][..s.since] == s.log[..s.since];
    HistoryGrows(s.log[..seen], s.since, tab);
    HistoryGrows(s.log, seen, tab);
    var served := History(s.log[..seen], tab);
    assert served[j] == since[j];
    OlderPageIsStable(served, History(s.log, tab), j, s.limit);
  }

  lemma PostKeepsStretch(s: System, p: Posting)
    requires Inv(s) && ShowsStretch(s)
    ensures Inv(Next(s, Post(p))) && ShowsStretch(Next(s, Post(p)))
  {
    PostKeepsInv(s, p);
    var t := Next(s, Post(p));
    hide Inv;
    if t != s && Shown(s.screen) {
      var tab := Current(s.screen);
      assert t.log[..|s.log|] == s.log && t.log[..s.top] == s.log[..s.top];
      HistoryGrows(t.log, |s.log|, tab);
      StretchGrows(s.screen.pages, s.screen.cursor, History(s.log, tab), History(t.log, tab), TopOf(s));
    }
  }

  lemma FirstKeepsStretch(s: System, g: nat, seen: nat)
    requires Inv(s) && ShowsStretch(s)
    ensures Inv(Next(s, FirstAnswer(g, seen))) && ShowsStretch(Next(s, FirstAnswer(g, seen)))
  {
    FirstKeepsInv(s, g, seen);
    if seen <= |s.log| && IsAsking(s.screen.first, g) {
      FirstSets(s, g, seen);
      FirstPageShows(s, Current(s.screen), seen);
      hide Stretch;
      hide History;
      hide FirstPageAt;
      hide Next;
      hide Inv;
    }
  }

  /** A first page of the selected tab sets the rows and their top; another changes
      neither, nor makes the screen settle. */
  lemma FirstSets(s: System, g: nat, seen: nat)
    requires Inv(s) && seen <= |s.log| && IsAsking(s.screen.first, g)
    ensures var t, tab := Next(s, FirstAnswer(g, seen)), Current(s.screen);
            && t.log == s.log && Current(t.screen) == tab
            && if s.screen.first.attempts[g].asked == tab
               then t.top == seen && t.screen.pages == FirstPageAt(s, tab, seen).entries
                    && t.screen.cursor == FirstPageAt(s, tab, seen).next
               else t.top == s.top && t.screen.pages == s.screen.pages && t.screen.cursor == s.screen.cursor
                    && (Shown(t.screen) ==> Shown(s.screen))
  {
    hide FirstPageAt;
    hide History;
    hide Increasing;
    hide RowOf;
    hide AllOf;
  }

  lemma FirstPageShows(s: System, tab: Tab, seen: nat)
    requires s.limit > 0 && seen <= |s.log|
    ensures var page := FirstPageAt(s, tab, seen);
            Stretch(page.entries, page.next, History(s.log, tab), |History(s.log[..seen], tab)|)
  {
    var h := History(s.log[..seen], tab);
    FirstPageIsStretch(h, s.limit);
    var page := FirstPageAt(s, tab, seen);
    HistoryGrows(s.log, seen, tab);
    StretchGrows(page.entries, page.next, h, History(s.log, tab), |h|);
  }

  lemma NextKeepsStretch(s: System, e: Event)
    requires Inv(s) && ShowsStretch(s) && Follows(s, e)
    ensures Inv(Next(s, e)) && ShowsStretch(Next(s, e))
  {
    NextKeepsInv(s, e);
    hide Stretch;
    hide History;
    hide OlderPageAt;
    hide FirstPageAt;
    hide Increasing;
    hide AllOf;
    hide RowOf;
    match e
    case Post(p) => PostKeepsStretch(s, p);
    case FirstAnswer(g, seen) => FirstKeepsStretch(s, g, seen);
    case MoreAnswer(seen) =>
      if s.more.Some? && s.since <= seen <= |s.log| && Shown(s.screen) && s.more.value.asked == Current(s.screen) {
        OlderAnswerExactly(s, seen);
      }
    case _ =>
  }

  // ------------------------------------------------------------- over whole runs

  /** The screen shows its stretch now and after every event. */
  ghost predicate AlwaysShowsStretch(s: System, events: seq<Event>)
    requires Inv(s)
    decreases events
  {
    NextKept(s, events);
    ShowsStretch(s) && (events != [] ==> AlwaysShowsStretch(Next(s, events[0]), events[1..]))
  }

  lemma NextKept(s: System, events: seq<Event>)
    requires Inv(s)
    ensures events != [] ==> Inv(Next(s, events[0]))
  {
    if events != [] {
      NextKeepsInv(s, events[0]);
    }
  }

  ghost predicate AllFollow(s: System, events: seq<Event>)
    requires s.limit > 0
    decreases events
  {
    events != [] ==> Follows(s, events[0]) && AllFollow(Next(s, events[0]), events[1..])
  }

  lemma {:induction false} AlwaysExactly(s: System, events: seq<Event>)
    requires Inv(s) && ShowsStretch(s)
    ensures AlwaysShowsStretch(s, events) <==> AllFollow(s, events)
    decreases events
  {
    if events != [] {
      NextKeepsInv(s, events[0]);
      if Follows(s, events[0]) {
        NextKeepsStretch(s, events[0]);
        AlwaysExactly(Next(s, events[0]), events[1..]);
      } else {
        OlderAnswerExactly(s, events[0].seen);
      }
    }
  }

  lemma StartIsGood(log: seq<Posting>, tab: Tab, limit: nat)
    requires limit > 0 && Increasing(log)
    ensures Inv(Start(log, tab, limit)) && ShowsStretch(Start(log, tab, limit))
    ensures CursorKept(Start(log, tab, limit))
  {
    hide History;
  }

  /** Over every run, on a history of any length: a settled screen shows, at every
      moment, its tab's history from the first page's newest row down, without gap or
      repetition and with the cursor at the last row, if and only if every older page
      that lands on a settled screen of its tab follows on from the cursor there. */
  lemma StretchesExactly(log: seq<Posting>, tab: Tab, limit: nat, events: seq<Event>)
    requires limit > 0 && Increasing(log)
    ensures Inv(Start(log, tab, limit))
    ensures AlwaysShowsStretch(Start(log, tab, limit), events) <==> AllFollow(Start(log, tab, limit), events)
  {
    StartIsGood(log, tab, limit);
    AlwaysExactly(Start(log, tab, limit), events);
  }

  // ------------------------------------------------------ what becomes of a failure

  /** An older page that could not be loaded is reported on its own tab, and only there;
      either way the rows and the cursor stand and it can be asked for again. */
  lemma OlderFailureIsReported(s: System, failure: Failure)
    requires Inv(s) && s.more.Some?
    ensures var t := Next(s, MoreFailure(failure));
            && t.screen.pages == s.screen.pages && t.screen.cursor == s.screen.cursor
            && t.screen.first == s.screen.first && !t.screen.paging && t.more.None?
            && t.screen.moreError == (if s.more.value.asked == Current(s.screen) then Some(failure) else s.screen.moreError)
  {
    hide History;
    hide RowOf;
  }

  /** A first page that could not be loaded: a dropped connection is tried again, twice,
      for the tab selected by then; the last one, or a refusal, is shown instead of rows.
      Whatever a superseded load does leaves the screen as it is. */
  lemma FirstFailureIsShown(s: System, g: nat, failure: Failure)
    requires Inv(s) && IsAsking(s.screen.first, g)
    ensures var t, was := Next(s, FirstFailure(g, failure)), s.screen.first;
            && t.screen == s.screen.(first := t.screen.first) && t.screen.first.deps == was.deps
            && if failure == Network && was.attempts[g].retries < 2
               then && t.screen.first == was.(attempts := t.screen.first.attempts)
                    && Next(t, FirstRetry(g)).screen.first
                       == was.(attempts := was.attempts[g := Asking(was.deps, was.attempts[g].retries + 1)])
               else if g == was.gen
               then !t.screen.first.loading && t.screen.first.error == Some(failure) && !Shown(t.screen)
               else SameFields(was, t.screen.first)
  {
    hide History;
    hide RowOf;
    hide AllOf;
  }

  /** Asking for an older page takes the report away, and asks below the cursor of the
      moment for the tab of the moment; on a screen that is not settled, has no cursor
      or waits already, nothing is asked. */
  lemma AskingExactly(s: System)
    requires Inv(s)
    ensures var t := Next(s, TapMore);
            if !s.screen.first.loading && s.screen.first.error.None? && s.screen.cursor.Some? && s.more.None?
            then && t.more == Some(More(Current(s.screen), s.screen.cursor.value)) && t.since == |s.log|
                 && t.screen == s.screen.(paging := true, moreError := None)
            else t == s
  {
    hide History;
    hide RowOf;
  }

  /** A first page of the selected tab takes the report away with the old rows. */
  lemma FirstPageClearsReport(s: System, g: nat, seen: nat)
    requires Inv(s) && seen <= |s.log| && IsAsking(s.screen.first, g)
    requires s.screen.first.attempts[g].asked == Current(s.screen)
    ensures Next(s, FirstAnswer(g, seen)).screen.moreError == None
  {
    hide FirstPageAt;
  }

  // ----------------------------------------------- a condition on runs, not answers

  /** A first page lands on the selected tab while an older page of that tab is still
      in flight. */
  ghost predicate ReplacesUnderLoadMore(s: System, e: Event) {
    && e.FirstAnswer? && e.seen <= |s.log| && IsAsking(s.screen.first, e.gen)
    && s.screen.first.attempts[e.gen].asked == Current(s.screen)
    && s.more.Some? && s.more.value.asked == Current(s.screen)
  }

  ghost predicate Calm(s: System, events: seq<Event>)
    requires s.limit > 0
    decreases events
  {
    events != [] ==> !ReplacesUnderLoadMore(s, events[0]) && Calm(Next(s, events[0]), events[1..])
  }

  ghost predicate CursorKept(s: System) {
    s.more.Some? && Shown(s.screen) && s.more.value.asked == Current(s.screen)
    ==> s.screen.cursor == Some(s.more.value.before)
  }

  lemma NextKeepsCursor(s: System, e: Event)
    requires Inv(s) && CursorKept(s) && !ReplacesUnderLoadMore(s, e)
    ensures CursorKept(Next(s, e)) && Follows(s, e)
  {
    hide FirstPageAt;
    hide OlderPageAt;
    hide History;
    hide Increasing;
  }

  lemma {:induction false} CalmRunsFollow(s: System, events: seq<Event>)
    requires Inv(s) && CursorKept(s) && Calm(s, events)
    ensures AllFollow(s, events)
    decreases events
  {
    if events != [] {
      NextKeepsInv(s, events[0]);
      NextKeepsCursor(s, events[0]);
      CalmRunsFollow(Next(s, events[0]), events[1..]);
    }
  }

  /** In particular, in every run in which no first page replaces the rows under a
      pending older page of the same tab. */
  lemma CalmRunsShowStretches(log: seq<Posting>, tab: Tab, limit: nat, events: seq<Event>)
    requires limit > 0 && Increasing(log) && Calm(Start(log, tab, limit), events)
    ensures Inv(Start(log, tab, limit)) && AlwaysShowsStretch(Start(log, tab, limit), events)
  {
    StartIsGood(log, tab, limit);
    CalmRunsFollow(Start(log, tab, limit), events);
    StretchesExactly(log, tab, limit, events);
  }

  // ------------------------------------------------ the family of runs that fail

  /** A tab is opened, left and re-entered before its first page comes; the re-entered
      tab settles and an older page is asked for; a posting arrives, then the FIRST
      request's answer, then the older page. */
  function LateFirstPage(a: Tab, b: Tab, p: Posting, n: nat): seq<Event> {
    [Select(b), Select(a), FirstAnswer(2, n), TapMore, Post(p), FirstAnswer(0, n + 1), MoreAnswer(n + 1)]
  }

  /** A history with at least a page of the tab, and a posting that comes after it. */
  predicate FullPage(log: seq<Posting>, a: Tab, p: Posting, limit: nat) {
    && 0 < limit <= |History(log, a)|
    && Matches(a, p)
    && (forall i :: 0 <= i < |log| ==> log[i].id < p.id)
  }

  /** The row the older page is asked below: the last of the page first shown. */
  function LastShown(log: seq<Posting>, a: Tab, limit: nat): Posting
    requires 0 < limit <= |History(log, a)|
  {
    var h := History(log, a);
    h[|h| - limit]
  }

  /** Where the story stands when the tab is re-entered, all three first pages still
      unanswered, ... */
  function Reentered(log: seq<Posting>, a: Tab, b: Tab, limit: nat): System {
    Start(log, a, limit).(
      screen := Screen(Hook(a, 2, None, None, true, {0, 1},
                            map[0 := Asking(a, 0), 1 := Asking(b, 0), 2 := Asking(a, 0)]),
                       [], None, false, None))
  }

  /** ... then settled by the newest of them, ... */
  function Resettled(log: seq<Posting>, a: Tab, b: Tab, limit: nat): System
    requires limit > 0
  {
    var page := PageOf(History(log, a), None, limit);
    Start(log, a, limit).(
      screen := Screen(Hook(a, 2, Some(Answer(2, a, page)), None, false, {0, 1},
                            map[0 := Asking(a, 0), 1 := Asking(b, 0)]),
                       page.entries, page.next, false, None),
      top := |log|)
  }

  /** ... waiting for an older page when a posting has arrived, ... */
  function Waiting(log: seq<Posting>, a: Tab, b: Tab, p: Posting, limit: nat): System
    requires 0 < limit <= |History(log, a)|
  {
    var s := Resettled(log, a, b, limit);
    s.(log := log + [p], screen := s.screen.(paging := true),
       more := Some(More(a, LastShown(log, a, limit).id)), since := |log|)
  }

  /** ... and with the rows replaced while the older page is in flight. */
  function Replaced(log: seq<Posting>, a: Tab, b: Tab, p: Posting, limit: nat): System
    requires 0 < limit <= |History(log, a)|
  {
    var s := Waiting(log, a, b, p, limit);
    var page := PageOf(History(log + [p], a), None, limit);
    s.(screen := s.screen.(pages := page.entries, cursor := page.next,
                           first := s.screen.first.(attempts := map[1 := Asking(b, 0)])),
       top := |log| + 1)
  }

  lemma IsReentered(log: seq<Posting>, a: Tab, b: Tab, limit: nat)
    requires a != b && limit > 0
    ensures Next(Next(Start(log, a, limit), Select(b)), Select(a)) == Reentered(log, a, b, limit)
  {
    var s := Next(Next(Start(log, a, limit), Select(b)), Select(a));
    assert s.screen.first.attempts == Reentered(log, a, b, limit).screen.first.attempts;
    assert s.screen.first.cancelled == {0, 1};
  }

  lemma IsResettled(log: seq<Posting>, a: Tab, b: Tab, limit: nat)
    requires limit > 0
    ensures Next(Reentered(log, a, b, limit), FirstAnswer(2, |log|)) == Resettled(log, a, b, limit)
  {
    var s := Reentered(log, a, b, limit);
    assert s.log[..|log|] == log;
    assert FirstPageAt(s, a, |log|) == PageOf(History(log, a), None, limit);
    hide FirstPageAt;
    hide PageOf;
    assert s.screen.first.attempts - {2} == map[0 := Asking(a, 0), 1 := Asking(b, 0)];
  }

  lemma PageIsFull(log: seq<Posting>, a: Tab, limit: nat)
    requires 0 < limit <= |History(log, a)|
    ensures PageOf(History(log, a), None, limit).next == Some(LastShown(log, a, limit).id)
  {
  }

  lemma IsWaiting(log: seq<Posting>, a: Tab, b: Tab, p: Posting, limit: nat)
    requires FullPage(log, a, p, limit)
    ensures Next(Next(Resettled(log, a, b, limit), TapMore), Post(p)) == Waiting(log, a, b, p, limit)
  {
    PageIsFull(log, a, limit);
    hide PageOf;
    hide LastShown;
  }

  lemma IsReplaced(log: seq<Posting>, a: Tab, b: Tab, p: Posting, limit: nat)
    requires 0 < limit <= |History(log, a)|
    ensures Next(Waiting(log, a, b, p, limit), FirstAnswer(0, |log| + 1)) == Replaced(log, a, b, p, limit)
  {
    hide PageOf;
    hide LastShown;
    hide History;
    hide FirstArrived;
    hide Step;
    hide Matches;
    var s := Waiting(log, a, b, p, limit);
    var page, late := PageOf(History(log, a), None, limit), PageOf(History(log + [p], a), None, limit);
    assert FirstPageAt(s, a, |log| + 1) == late by {
      assert s.log[..|log| + 1] == log + [p];
    }
    hide FirstPageAt;
    LateStored(a, b, page, late);
    assert FirstArrived(s.screen, 0, late) == Replaced(log, a, b, p, limit).screen;
  }

  function Pending(a: Tab, b: Tab, page: Page): Screen {
    Screen(Hook(a, 2, Some(Answer(2, a, page)), None, false, {0, 1}, map[0 := Asking(a, 0), 1 := Asking(b, 0)]),
           page.entries, page.next, true, None)
  }

  /** A cancelled load's page takes the place of the rows on screen. */
  lemma LateStored(a: Tab, b: Tab, page: Page, late: Page)
    ensures FirstArrived(Pending(a, b, page), 0, late)
         == Pending(a, b, page).(
              pages := late.entries, cursor := late.next,
              first := Pending(a, b, page).first.(attempts := map[1 := Asking(b, 0)]))
  {
    assert map[0 := Attempt<Tab>.Asking(a, 0), 1 := Asking(b, 0)] - {0} == map[1 := Attempt<Tab>.Asking(b, 0)];
  }

  /** The posting that arrives moves every row of the first page down by one. */
  lemma OneRowDown(log: seq<Posting>, a: Tab, p: Posting, limit: nat)
    requires FullPage(log, a, p, limit) && Increasing(log)
    ensures History(log + [p], a) == History(log, a) + [p]
    ensures PageOf(History(log + [p], a), None, limit).next.Some?
    ensures PageOf(History(log + [p], a), None, limit).next.value > LastShown(log, a, limit).id
    ensures var rows := PageOf(History(log + [p], a), None, limit).entries;
            forall i :: 0 <= i < |rows| ==> rows[i].id > LastShown(log, a, limit).id
  {
    assert (log + [p])[..|log|] == log;
    var h := History(log, a);
    HistoryIncreasing(log, a);
    HistoryIsOfTab(log, a);
    assert Increasing(h + [p]);
    hide History;
    assert History(log + [p], a) == h + [p];
    assert (h + [p])[|h| - limit] == h[|h| - limit];
  }

  lemma OlderIsBelow(h: seq<Posting>, j: nat, limit: nat)
    requires limit > 0 && Increasing(h) && j < |h|
    ensures forall r :: r in PageOf(h, Some(h[j].id), limit).entries ==> r.id < h[j].id
    ensures PageOf(h, Some(h[j].id), limit).next.Some? ==> PageOf(h, Some(h[j].id), limit).next.value < h[j].id
  {
    BelowRow(h, j);
  }

  lemma HasMoved(log: seq<Posting>, a: Tab, b: Tab, p: Posting, limit: nat)
    requires 0 < limit <= |History(log, a)|
    requires History(log + [p], a) == History(log, a) + [p]
    requires var page := PageOf(History(log + [p], a), None, limit);
             && page.next.Some? && page.next.value > LastShown(log, a, limit).id
             && forall i :: 0 <= i < |page.entries| ==> page.entries[i].id > LastShown(log, a, limit).id
    ensures Moved(Replaced(log, a, b, p, limit), a, LastShown(log, a, limit))
  {
    hide *;
    var s := Replaced(log, a, b, p, limit);
    ReplacedIs(log, a, b, p, limit);
    FirstPageOfAll(s, a);
    LastStays(log, a, p, limit);
    MovedIs(s, a, LastShown(log, a, limit));
  }

  lemma MovedIs(s: System, a: Tab, lost: Posting)
    requires s.limit > 0 && Shown(s.screen) && Current(s.screen) == a && s.top == |s.log| && s.since <= |s.log|
    requires s.more == Some(More(a, lost.id)) && lost in History(s.log, a)
    requires var page := FirstPageAt(s, a, |s.log|);
             && s.screen.pages == page.entries && s.screen.cursor == page.next
             && page.next.Some? && page.next.value > lost.id
             && forall i :: 0 <= i < |page.entries| ==> page.entries[i].id > lost.id
    ensures Moved(s, a, lost)
  {
    hide FirstPageAt;
    hide History;
    hide Shown;
  }

  lemma FirstPageOfAll(s: System, a: Tab)
    requires s.limit > 0
    ensures FirstPageAt(s, a, |s.log|) == PageOf(History(s.log, a), None, s.limit)
  {
    assert s.log[..|s.log|] == s.log;
  }

  lemma ReplacedIs(log: seq<Posting>, a: Tab, b: Tab, p: Posting, limit: nat)
    requires 0 < limit <= |History(log, a)|
    ensures var s, page := Replaced(log, a, b, p, limit), PageOf(History(log + [p], a), None, limit);
            && s.log == log + [p] && s.limit == limit && s.top == |s.log| && s.since <= |s.log|
            && Shown(s.screen) && Current(s.screen) == a
            && s.screen.pages == page.entries && s.screen.cursor == page.next
            && s.more == Some(More(a, LastShown(log, a, limit).id))
  {
    hide PageOf;
    hide History;
    hide LastShown;
  }

  lemma LastStays(log: seq<Posting>, a: Tab, p: Posting, limit: nat)
    requires 0 < limit <= |History(log, a)| && History(log + [p], a) == History(log, a) + [p]
    ensures LastShown(log, a, limit) in History(log + [p], a)
  {
    hide History;
    RowIsKept(History(log, a), p, |History(log, a)| - limit);
  }

  lemma RowIsKept(h: seq<Posting>, p: Posting, k: nat)
    requires k < |h|
    ensures h[k] in h + [p]
  {
    assert (h + [p])[k] == h[k];
  }

  /** A settled screen whose first page no longer reaches the row an older page was
      asked below. */
  predicate Moved(s: System, a: Tab, lost: Posting) {
    && s.limit > 0 && Shown(s.screen) && Current(s.screen) == a && s.top == |s.log| && s.since <= |s.log|
    && s.more == Some(More(a, lost.id)) && lost in History(s.log, a)
    && var page := FirstPageAt(s, a, |s.log|);
    && s.screen.pages == page.entries && s.screen.cursor == page.next
    && page.next.Some? && page.next.value > lost.id
    && forall i :: 0 <= i < |page.entries| ==> page.entries[i].id > lost.id
  }

  lemma LandsBelow(s: System, a: Tab, lost: Posting)
    requires Inv(s) && Moved(s, a, lost)
    ensures var t := Next(s, MoreAnswer(|s.log|));
            Shown(t.screen) && Current(t.screen) == a && Inv(t) && !ShowsStretch(t) && Skips(t, lost)
  {
    hide FirstPageAt;
    NextKeepsInv(s, MoreAnswer(|s.log|));
    FirstPageShows(s, a, |s.log|);
    assert TopOf(s) == |History(s.log[..|s.log|], a)|;
    OlderLands(s, a, lost);
    OlderSkips(s, Next(s, MoreAnswer(|s.log|)), a, lost);
    assert ShowsStretch(s);
    hide *;
    OlderAnswerExactly(s, |s.log|);
  }

  /** What the older page does to the screen: it is added, though it does not follow. */
  lemma OlderLands(s: System, a: Tab, lost: Posting)
    requires Inv(s) && Shown(s.screen) && Current(s.screen) == a && s.since <= |s.log|
    requires s.more == Some(More(a, lost.id)) && s.screen.cursor.Some? && s.screen.cursor.value > lost.id
    ensures var t, page := Next(s, MoreAnswer(|s.log|)), OlderPageAt(s, s.more.value, |s.log|);
            && !Follows(s, MoreAnswer(|s.log|))
            && Shown(t.screen) && Current(t.screen) == a && t.log == s.log
            && t.screen.pages == s.screen.pages + page.entries && t.screen.cursor == page.next
  {
    hide OlderPageAt;
    hide Inv;
  }

  lemma OlderSkips(s: System, t: System, a: Tab, lost: Posting)
    requires Inv(s) && s.since <= |s.log| && s.more == Some(More(a, lost.id))
    requires lost in History(s.log, a)
    requires forall i :: 0 <= i < |s.screen.pages| ==> s.screen.pages[i].id > lost.id
    requires t.log == s.log && Current(t.screen) == a
    requires var page := OlderPageAt(s, s.more.value, |s.log|);
             t.screen.pages == s.screen.pages + page.entries && t.screen.cursor == page.next
    ensures Skips(t, lost)
  {
    var j := OlderPageOf(s, |s.log|);
    hide OlderPageAt;
    hide Inv;
    hide History;
    hide PageOf;
    OlderIsBelow(History(s.log, a), j, s.limit);
    hide Increasing;
  }

  /** A posting of the tab's history is not on screen, and no older page can bring it:
      the cursor, if there is one, is already past it. */
  predicate Skips(s: System, lost: Posting) {
    && lost in History(s.log, Current(s.screen))
    && (forall i :: 0 <= i < |s.screen.pages| ==> s.screen.pages[i].id != lost.id)
    && (s.screen.cursor.Some? ==> s.screen.cursor.value < lost.id)
  }

  lemma RunSix(s: System, e: seq<Event>)
    requires s.limit > 0 && |e| == 6
    ensures Run(s, e) == Next(Next(Next(Next(Next(Next(s, e[0]), e[1]), e[2]), e[3]), e[4]), e[5])
  {
    hide Run;
    hide Next;
    assert e[0..] == e;
    RunFrom(s, e, 0);
    var s1 := Next(s, e[0]);
    RunFrom(s1, e, 1);
    var s2 := Next(s1, e[1]);
    RunFrom(s2, e, 2);
    var s3 := Next(s2, e[2]);
    RunFrom(s3, e, 3);
    var s4 := Next(s3, e[3]);
    RunFrom(s4, e, 4);
    var s5 := Next(s4, e[4]);
    RunFrom(s5, e, 5);
    EndsAt(Next(s5, e[5]), e[6..]);
  }

  lemma {:induction false} RunSnoc(s: System, events: seq<Event>, last: Event)
    requires s.limit > 0
    ensures Run(s, events + [last]) == Next(Run(s, events), last)
    decreases events
  {
    hide Next;
    if events == [] {
      assert [last][1..] == [];
      assert [] + [last] == [last];
    } else {
      assert (events + [last])[1..] == events[1..] + [last];
      RunSnoc(Next(s, events[0]), events[1..], last);
    }
  }

  lemma RunFrom(s: System, events: seq<Event>, i: nat)
    requires s.limit > 0 && i < |events|
    ensures Run(s, events[i..]) == Run(Next(s, events[i]), events[i + 1..])
  {
    hide Next;
    assert events[i..][1..] == events[i + 1..];
  }

  lemma EndsAt(s: System, events: seq<Event>)
    requires s.limit > 0 && events == []
    ensures Run(s, events) == s
  {
  }

  /** For every page size, any two tabs and any history with at least a page of the
      first: a posting of it is gone from a settled screen for good, though the tab was
      never left while the older page was in flight. */
  lemma LateFirstPageSkips(log: seq<Posting>, a: Tab, b: Tab, p: Posting, limit: nat)
    requires a != b && Increasing(log) && FullPage(log, a, p, limit)
    ensures var s := Run(Start(log, a, limit), LateFirstPage(a, b, p, |log|));
            && Inv(s) && Shown(s.screen) && Current(s.screen) == a && !ShowsStretch(s)
            && Skips(s, LastShown(log, a, limit))
  {
    assert 0 < limit <= |History(log, a)|;
    hide *;
    UntilMoved(log, a, b, p, limit);
    LastOfSeven(log, a, b, p, limit);
    LandsBelow(Run(Start(log, a, limit), LateFirstPage(a, b, p, |log|)[..6]), a, LastShown(log, a, limit));
  }

  lemma LastOfSeven(log: seq<Posting>, a: Tab, b: Tab, p: Posting, limit: nat)
    requires limit > 0 && Increasing(log)
    ensures var e := LateFirstPage(a, b, p, |log|);
            && Inv(Run(Start(log, a, limit), e[..6]))
            && Run(Start(log, a, limit), e) == Next(Run(Start(log, a, limit), e[..6]), MoreAnswer(|log| + 1))
  {
    var e := LateFirstPage(a, b, p, |log|);
    assert e == e[..6] + [MoreAnswer(|log| + 1)];
    hide *;
    StartIsGood(log, a, limit);
    RunKeepsInv(Start(log, a, limit), e[..6]);
    RunSnoc(Start(log, a, limit), e[..6], MoreAnswer(|log| + 1));
  }

  lemma UntilMoved(log: seq<Posting>, a: Tab, b: Tab, p: Posting, limit: nat)
    requires a != b && Increasing(log) && FullPage(log, a, p, limit)
    ensures var s := Run(Start(log, a, limit), LateFirstPage(a, b, p, |log|)[..6]);
            Moved(s, a, LastShown(log, a, limit)) && |s.log| == |log| + 1
  {
    UntilReplaced(log, a, b, p, limit);
    OneRowDown(log, a, p, limit);
    HasMoved(log, a, b, p, limit);
    hide PageOf;
    hide History;
    hide Run;
    hide Moved;
    hide LastShown;
  }

  lemma UntilReplaced(log: seq<Posting>, a: Tab, b: Tab, p: Posting, limit: nat)
    requires a != b && FullPage(log, a, p, limit)
    ensures Run(Start(log, a, limit), LateFirstPage(a, b, p, |log|)[..6]) == Replaced(log, a, b, p, limit)
  {
    assert 0 < limit <= |History(log, a)|;
    var e := LateFirstPage(a, b, p, |log|)[..6];
    hide Run;
    hide Next;
    hide FullPage;
    hide History;
    hide PageOf;
    RunSix(Start(log, a, limit), e);
    IsReentered(log, a, b, limit);
    IsResettled(log, a, b, limit);
    IsWaiting(log, a, b, p, limit);
    IsReplaced(log, a, b, p, limit);
  }
}
