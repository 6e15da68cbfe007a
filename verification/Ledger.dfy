/** The server's side of a history: an append-only log, read one keyset page at a
    time (`packages/ledger/src/ledger-service.ts`, `apps/api/src/wallet/wallet.service.ts`). */
module Ledger {
  import opened Text

  datatype Posting = Posting(id: nat, currency: string, kind: string)

  /** A tab of the Activity screen: one currency, narrowed to some kinds when any are
      named. */
  datatype Tab = Tab(currency: string, kinds: seq<string>)

  datatype Page = Page(entries: seq<Posting>, next: Option<nat>)

  predicate Matches(tab: Tab, p: Posting) {
    p.currency == tab.currency && (tab.kinds == [] || p.kind in tab.kinds)
  }

  /** Posting ids grow as postings are appended. */
  ghost predicate Increasing(log: seq<Posting>) {
    forall i, j :: 0 <= i < j < |log| ==> log[i].id < log[j].id
  }

  /** What a tab shows of a log, oldest first. */
  function History(log: seq<Posting>, tab: Tab): seq<Posting> {
    if log == [] then []
    else
      var last := log[|log| - 1];
      History(log[..|log| - 1], tab) + if Matches(tab, last) then [last] else []
  }

  /** The `n` rows from index `lo`, newest first. */
  function Newest(h: seq<Posting>, lo: nat, n: nat): (rows: seq<Posting>)
    requires lo + n <= |h|
    ensures |rows| == n
    ensures forall i :: 0 <= i < n ==> rows[i] == h[lo + n - 1 - i]
  {
    seq(n, i requires 0 <= i < n => h[lo + n - 1 - i])
  }

  /** How many rows lie below a cursor. */
  function Below(h: seq<Posting>, before: Option<nat>): (k: nat)
    ensures k <= |h|
  {
    if h == [] || before.None? || h[|h| - 1].id < before.value then |h|
    else Below(h[..|h| - 1], before)
  }

  /** `WHERE p.id < before ORDER BY p.id DESC LIMIT limit`; the next cursor is the
      last row's id when the page is full. */
  function PageOf(h: seq<Posting>, before: Option<nat>, limit: nat): Page
    requires limit > 0
  {
    var k := Below(h, before);
    var n := if limit < k then limit else k;
    Page(Newest(h, k - n, n), if n == limit then Some(h[k - n].id) else None)
  }

  // ----------------------------------------------------------------- its laws

  /** A history holds postings of the log, and only those of its tab. */
  lemma {:induction false} HistoryIsOfTab(log: seq<Posting>, tab: Tab)
    ensures forall i :: 0 <= i < |History(log, tab)| ==>
              Matches(tab, History(log, tab)[i]) && History(log, tab)[i] in log
  {
    if log != [] {
      HistoryIsOfTab(log[..|log| - 1], tab);
    }
  }

  lemma {:induction false} HistoryIncreasing(log: seq<Posting>, tab: Tab)
    requires Increasing(log)
    ensures Increasing(History(log, tab))
  {
    if log != [] {
      var rest, last := log[..|log| - 1], log[|log| - 1];
      HistoryIncreasing(rest, tab);
      HistoryIsOfTab(rest, tab);
      forall i | 0 <= i < |History(rest, tab)| ensures History(rest, tab)[i].id < last.id {
        assert History(rest, tab)[i] in rest;
      }
    }
  }

  /** What a tab showed stays where it was: a longer log only adds newer rows. */
  lemma {:induction false} HistoryGrows(log: seq<Posting>, seen: nat, tab: Tab)
    requires seen <= |log|
    ensures History(log[..seen], tab) <= History(log, tab)
  {
    if seen == |log| {
      assert log[..seen] == log;
    } else {
      var rest := log[..|log| - 1];
      HistoryGrows(rest, seen, tab);
      assert rest[..seen] == log[..seen];
    }
  }

  /** Every posting of the log that is of the tab is in its history. */
  lemma {:induction false} HistoryHasAll(log: seq<Posting>, tab: Tab)
    ensures forall p :: p in log && p.currency == tab.currency && (tab.kinds == [] || p.kind in tab.kinds) ==>
              p in History(log, tab)
    ensures forall p :: p in History(log, tab) ==>
              p in log && p.currency == tab.currency && (tab.kinds == [] || p.kind in tab.kinds)
  {
    if log != [] {
      HistoryHasAll(log[..|log| - 1], tab);
      assert log == log[..|log| - 1] + [log[|log| - 1]];
    }
  }

  /** What is below a cursor: the rows whose ids are less, from the oldest up. */
  lemma {:induction false} BelowExactly(h: seq<Posting>, before: Option<nat>)
    requires Increasing(h)
    ensures var k := Below(h, before);
            && (before.None? ==> k == |h|)
            && (before.Some? ==> forall i :: 0 <= i < |h| ==> (i < k <==> h[i].id < before.value))
  {
    if h != [] && before.Some? && h[|h| - 1].id >= before.value {
      BelowExactly(h[..|h| - 1], before);
    }
  }

  /** A page is full or holds everything below its cursor, newest first, and names its
      last row as the next cursor exactly when it is full. */
  lemma PageExactly(h: seq<Posting>, before: Option<nat>, limit: nat)
    requires limit > 0 && Increasing(h)
    ensures var page, k := PageOf(h, before, limit), Below(h, before);
            && |page.entries| == (if limit < k then limit else k)
            && (forall i :: 0 <= i < |page.entries| ==> page.entries[i] == h[k - 1 - i])
            && (page.next.Some? <==> |page.entries| == limit)
            && (page.next.Some? ==> page.next.value == page.entries[limit - 1].id)
  {
  }

  /** The rows below a row are the rows before it. */
  lemma {:induction false} BelowRow(h: seq<Posting>, j: nat)
    requires Increasing(h) && j < |h|
    ensures Below(h, Some(h[j].id)) == j
  {
    if |h| > j + 1 {
      BelowRow(h[..|h| - 1], j);
    } else {
      assert h[|h| - 1] == h[j];
      if j > 0 {
        assert h[..|h| - 1][j - 1] == h[j - 1];
        assert h[j - 1].id < h[j].id;
      }
    }
  }
}
