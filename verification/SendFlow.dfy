/** The Send flow (`apps/mobile/app/transfer.tsx`): five steps with back edges, a
    saved or a new recipient, and one of three requests at the end.

    Saving a recipient is asked for on the details step and answered later; its
    handler finishes the step whatever the screen shows by then. The amount step's
    own currency is React state, set when that step is mounted. */
module SendFlow {
  import opened Text

  datatype Step = Who | Currency | Method | Details | Amount

  datatype Kind = Xetral | Bank | Momo

  /** What the server found behind a destination. */
  datatype Resolution = Resolution(
    kind: Kind, country: string, currency: string, rail: Option<string>, branch: Option<string>,
    destination: string, resolvedName: Option<string>)

  /** A row of the recipient book, or a draft read as one. */
  datatype Recipient = Recipient(
    id: string, kind: Kind, country: string, currency: string, rail: Option<string>, branch: Option<string>,
    destination: string, displayName: string)

  function ToRecipient(found: Resolution): Recipient {
    Recipient("", found.kind, found.country, found.currency, found.rail, found.branch, found.destination,
              if found.resolvedName.Some? then found.resolvedName.value else found.destination)
  }

  /** A saved row keeps what its resolution says about where the money goes. */
  predicate RowKeeps(row: Recipient, found: Resolution) {
    && row.kind == found.kind && row.country == found.country && row.currency == found.currency
    && row.rail == found.rail && row.branch == found.branch && row.destination == found.destination
  }

  /** A save in flight, with the currency its handler's closure captured. */
  datatype Save = Save(found: Resolution, receive: string)

  datatype Request =
    | Transfer(recipient: string, amount: string, currency: string)
    | Remit(from: string, to: string, amount: string, recipient: string)
    | Payout(country: string, bankCode: string, account: string, mobileMoney: bool,
             branch: Option<string>, amount: string, currency: string)

  /** A request that went out, and what the screen showed when it did: whom it pays,
      the amount typed, the currency it leaves and the one it lands in. */
  datatype Sent = Sent(to: Recipient, amount: string, leaves: string, lands: string, request: Request)

  /** `sendCurrency` is the amount step's state while it is mounted; `sent` is every
      request that went out, the last one last. */
  datatype Flow = Flow(
    arrivedWith: string,
    step: Step,
    chosen: Option<Recipient>,
    draft: Option<Resolution>,
    receive: string,
    way: Kind,
    home: string,
    sendCurrency: Option<string>,
    saves: map<nat, Save>,
    nextSave: nat,
    sent: seq<Sent>)

  function Opened(arrivedWith: string): Flow {
    Flow(arrivedWith, if arrivedWith == "" then Who else Details, None, None, "", Xetral, "NGN", None, map[], 0, [])
  }

  // ------------------------------------------------------------- what is rendered

  predicate HasRecipient(f: Flow) {
    f.chosen.Some? || f.draft.Some?
  }

  function To(f: Flow): Recipient
    requires HasRecipient(f)
  {
    if f.chosen.Some? then f.chosen.value else ToRecipient(f.draft.value)
  }

  function Receives(f: Flow): string {
    if f.receive == "" then f.home else f.receive
  }

  predicate AmountShown(f: Flow) {
    f.step == Amount && HasRecipient(f)
  }

  /** After a render the amount step keeps its state if it was there before, starts
      with a currency of its own if it was not, and has none when it is not shown. */
  function Rendered(f: Flow): Flow {
    if !AmountShown(f) then f.(sendCurrency := None)
    else if f.sendCurrency.Some? then f
    else f.(sendCurrency := Some(if To(f).kind == Xetral then f.home else Receives(f)))
  }

  // --------------------------------------------------------------- what goes out

  function Dispatch(f: Flow, amount: string): Request
    requires AmountShown(f) && f.sendCurrency.Some?
  {
    var to, send, lands := To(f), f.sendCurrency.value, Receives(f);
    if to.kind == Xetral && send == lands then Transfer(to.destination, amount, send)
    else if to.kind == Xetral then Remit(send, lands, amount, to.destination)
    else Payout(to.country, if to.rail.Some? then to.rail.value else "", to.destination, to.kind == Momo,
                to.branch, amount, send)
  }

  function SentFrom(f: Flow, amount: string): Sent
    requires AmountShown(f) && f.sendCurrency.Some?
  {
    Sent(To(f), amount, f.sendCurrency.value, Receives(f), Dispatch(f, amount))
  }

  // ----------------------------------------------------------------------- events

  datatype Event =
    | StartNew
    | Back
    | PickSaved(recipient: Recipient)
    | PickCurrency(currency: string)
    | PickMethod(way: Kind)
    | Continue(found: Resolution)
    | Saved(save: nat, row: Option<Recipient>)
    | HomeLoaded(home: string)
    | PickSendCurrency(currency: string)
    | PressSend(amount: string)
    | Done

  function BackFrom(f: Flow): Step {
    match f.step
    case Amount => Details
    case Details => if f.arrivedWith == "" then Method else Who
    case Method => Currency
    case Currency => Who
    case Who => Who
  }

  /** The details step is done: the draft, the saved row if there is one, and the
      currency -- the captured choice for a Xetral account, else the server's. */
  function Ready(f: Flow, save: Save, row: Option<Recipient>): Flow {
    f.(draft := Some(save.found), chosen := row,
       receive := if save.found.kind == Xetral then save.receive else save.found.currency,
       step := Amount)
  }

  function Next(f: Flow, e: Event): Flow {
    match e
    case StartNew =>
      if f.step != Who then f else Rendered(f.(chosen := None, draft := None, step := Currency))
    case Back =>
      Rendered(f.(step := BackFrom(f)))
    case PickSaved(r) =>
      if f.step != Who || r.currency == "" then f
      else Rendered(f.(chosen := Some(r), draft := None, receive := r.currency, step := Amount))
    case PickCurrency(c) =>
      if f.step != Currency || c == "" then f else Rendered(f.(receive := c, step := Method))
    case PickMethod(m) =>
      if f.step != Method then f else Rendered(f.(way := m, step := Details))
    case Continue(found) =>
      if f.step != Details || found.currency == "" then f
      else f.(saves := f.saves[f.nextSave := Save(found, f.receive)], nextSave := f.nextSave + 1)
    case Saved(id, row) =>
      if id !in f.saves || (row.Some? && !RowKeeps(row.value, f.saves[id].found)) then f
      else Rendered(Ready(f.(saves := f.saves - {id}), f.saves[id], row))
    case HomeLoaded(home) =>
      Rendered(f.(home := home))
    case PickSendCurrency(c) =>
      if AmountShown(f) && To(f).kind == Xetral then f.(sendCurrency := Some(c)) else f
    case PressSend(amount) =>
      if AmountShown(f) && f.sendCurrency.Some? then f.(sent := f.sent + [SentFrom(f, amount)]) else f
    case Done =>
      Rendered(f.(step := Who))
  }

  function Run(f: Flow, events: seq<Event>): Flow
    decreases events
  {
    if events == [] then f else Run(Next(f, events[0]), events[1..])
  }

  // ---------------------------------------------------------------- what is kept

  ghost predicate Inv(f: Flow) {
    && (f.step == Amount ==> HasRecipient(f))
    && (f.sendCurrency.Some? <==> AmountShown(f))
    && (AmountShown(f) && To(f).kind != Xetral ==> f.receive == To(f).currency && f.receive != "")
    && (forall id :: id in f.saves ==> f.saves[id].found.currency != "")
  }

  lemma NextKeepsInv(f: Flow, e: Event)
    requires Inv(f)
    ensures Inv(Next(f, e))
  {
  }

  lemma {:induction false} RunKeepsInv(f: Flow, events: seq<Event>)
    requires Inv(f)
    ensures Inv(Run(f, events))
    decreases events
  {
    if events != [] {
      NextKeepsInv(f, events[0]);
      RunKeepsInv(Next(f, events[0]), events[1..]);
    }
  }

  /** Every run: the amount step always has a recipient, a currency of its own to send,
      and what a bank account or a wallet receives is its own currency. */
  lemma AmountHasRecipient(arrivedWith: string, events: seq<Event>)
    ensures var f := Run(Opened(arrivedWith), events);
            f.step == Amount ==>
              && HasRecipient(f) && f.sendCurrency.Some?
              && (To(f).kind != Xetral ==> Receives(f) == To(f).currency)
  {
    RunKeepsInv(Opened(arrivedWith), events);
  }

  /** A payout names the currency its recipient holds. */
  ghost predicate OneCurrency(f: Flow) {
    AmountShown(f) && f.sendCurrency.Some? && To(f).kind != Xetral ==> f.sendCurrency.value == To(f).currency
  }

  /** What went out is the one request its recipient calls for, of the amount typed: a
      transfer within one currency or a remittance from the currency it leaves to the
      one it lands in for a Xetral account, to that account; a payout of the currency it
      leaves for anything else, to that account, country, rail and branch. */
  predicate NamesItsRecipient(s: Sent) {
    match s.request
    case Transfer(recipient, amount, currency) =>
      && s.to.kind == Xetral && recipient == s.to.destination && amount == s.amount
      && currency == s.leaves == s.lands
    case Remit(from, to, amount, recipient) =>
      && s.to.kind == Xetral && recipient == s.to.destination && amount == s.amount
      && from == s.leaves && to == s.lands && from != to
    case Payout(country, bankCode, account, mobileMoney, branch, amount, currency) =>
      && s.to.kind != Xetral && account == s.to.destination && country == s.to.country && branch == s.to.branch
      && bankCode == (match s.to.rail case None => "" case Some(rail) => rail)
      && (mobileMoney <==> s.to.kind == Momo)
      && amount == s.amount && currency == s.leaves
  }

  /** A payout went out in the currency its recipient holds. */
  predicate InItsCurrency(s: Sent) {
    s.request.Payout? ==> s.request.currency == s.to.currency
  }

  predicate AllNamed(sent: seq<Sent>) {
    forall i :: 0 <= i < |sent| ==> NamesItsRecipient(sent[i])
  }

  predicate AllInCurrency(sent: seq<Sent>) {
    forall i :: 0 <= i < |sent| ==> InItsCurrency(sent[i])
  }

  /** Every run: each request sent names the recipient on screen, and only that one. */
  lemma {:induction false} RequestsNameRecipients(f: Flow, events: seq<Event>)
    requires AllNamed(f.sent)
    ensures AllNamed(Run(f, events).sent)
    decreases events
  {
    if events != [] {
      assert AllNamed(Next(f, events[0]).sent);
      RequestsNameRecipients(Next(f, events[0]), events[1..]);
    }
  }

  /** Pressing Send on the amount step sends one request, for the recipient, the amount
      and the two currencies on screen; anywhere else it sends nothing. */
  lemma PressSendsOne(f: Flow, amount: string)
    requires Inv(f)
    ensures var t := Next(f, PressSend(amount));
            if f.step != Amount then t == f
            else
              && |t.sent| == |f.sent| + 1 && t.sent[..|f.sent|] == f.sent && t == f.(sent := t.sent)
              && var last := t.sent[|f.sent|];
              && NamesItsRecipient(last) && last.amount == amount && f.sendCurrency == Some(last.leaves)
              && last.lands == (if f.receive == "" then f.home else f.receive)
              && (f.chosen.Some? ==> last.to == f.chosen.value)
              && (f.chosen.None? ==> f.draft.Some? && IsDraft(last.to, f.draft.value))
  {
  }

  /** A draft read as a recipient: the same destination under every heading, named by
      what its rail says or else by itself. */
  predicate IsDraft(to: Recipient, draft: Resolution) {
    && RowKeeps(to, draft) && to.id == ""
    && (draft.resolvedName.Some? ==> to.displayName == draft.resolvedName.value)
    && (draft.resolvedName.None? ==> to.displayName == draft.destination)
  }

  lemma OnlyPressingSends(f: Flow, e: Event)
    requires !e.PressSend?
    ensures Next(f, e).sent == f.sent
  {
  }

  // --------------------------------------------- how the screen came to show it

  function At(arrivedWith: string, events: seq<Event>, i: nat): Flow
    requires i <= |events|
  {
    Run(Opened(arrivedWith), events[..i])
  }

  lemma {:induction false} RunSnoc(f: Flow, events: seq<Event>, last: Event)
    ensures Run(f, events + [last]) == Next(Run(f, events), last)
    decreases events
  {
    hide Next;
    if events == [] {
      assert [last][1..] == [] && [] + [last] == [last];
    } else {
      assert (events + [last])[1..] == events[1..] + [last];
      RunSnoc(Next(f, events[0]), events[1..], last);
    }
  }

  /** One event after another. */
  lemma AtNext(arrivedWith: string, events: seq<Event>, i: nat)
    requires i < |events|
    ensures At(arrivedWith, events, i + 1) == Next(At(arrivedWith, events, i), events[i])
    ensures Inv(At(arrivedWith, events, i)) && Inv(At(arrivedWith, events, i + 1))
  {
    assert events[..i + 1] == events[..i] + [events[i]];
    RunSnoc(Opened(arrivedWith), events[..i], events[i]);
    RunKeepsInv(Opened(arrivedWith), events[..i]);
    RunKeepsInv(Opened(arrivedWith), events[..i + 1]);
  }

  /** An event that says whom the amount step pays, and in which currency it lands: a
      saved recipient tapped on the list, or a save answered. */
  predicate Decides(f: Flow, e: Event) {
    || (e.PickSaved? && f.step == Who && e.recipient.currency != "")
    || (e.Saved? && e.save in f.saves && (e.row.Some? ==> RowKeeps(e.row.value, f.saves[e.save].found)))
  }

  predicate IsDecided(f: Flow, e: Event, t: Flow)
    requires Decides(f, e)
  {
    && t.step == Amount && HasRecipient(t)
    && if e.PickSaved? then To(t) == e.recipient && t.receive == e.recipient.currency
       else
         var found := f.saves[e.save].found;
         && (if e.row.Some? then To(t) == e.row.value else IsDraft(To(t), found))
         && t.receive == (if found.kind == Xetral then f.saves[e.save].receive else found.currency)
  }

  /** The `i`-th event decided what is on screen, and the amount step has stayed open
      since with nothing decided again. */
  ghost predicate DecidedAt(arrivedWith: string, events: seq<Event>, i: nat) {
    && i < |events|
    && var f := At(arrivedWith, events, i);
    && Decides(f, events[i]) && IsDecided(f, events[i], Run(Opened(arrivedWith), events))
    && forall k :: i < k < |events| ==>
         At(arrivedWith, events, k).step == Amount && !Decides(At(arrivedWith, events, k), events[k])
  }

  lemma StaysDecided(f: Flow, e: Event)
    requires Inv(f) && Next(f, e).step == Amount
    ensures Decides(f, e) ==> IsDecided(f, e, Next(f, e))
    ensures !Decides(f, e) ==>
              f.step == Amount && HasRecipient(f) && HasRecipient(Next(f, e))
              && To(Next(f, e)) == To(f) && Next(f, e).receive == f.receive
  {
  }

  lemma Prefixes(arrivedWith: string, events: seq<Event>)
    requires events != []
    ensures var before := events[..|events| - 1];
            forall i :: 0 <= i <= |before| ==> At(arrivedWith, before, i) == At(arrivedWith, events, i)
  {
    var before := events[..|events| - 1];
    forall i | 0 <= i <= |before| ensures At(arrivedWith, before, i) == At(arrivedWith, events, i) {
      assert before[..i] == events[..i];
    }
  }

  /** Every run: whom the amount step pays, and what lands, is what the last deciding
      event said. */
  lemma {:induction false} ShownIsDecided(arrivedWith: string, events: seq<Event>) returns (i: nat)
    requires Run(Opened(arrivedWith), events).step == Amount
    ensures DecidedAt(arrivedWith, events, i)
    decreases |events|
  {
    if events == [] {
      assert false;
    } else {
      var n := |events| - 1;
      AtNext(arrivedWith, events, n);
      AtTheEnd(arrivedWith, events);
      var f := At(arrivedWith, events, n);
      assert f == Run(Opened(arrivedWith), events[..n]);
      StaysDecided(f, events[n]);
      if Decides(f, events[n]) {
        i := n;
        hide Next;
        hide Run;
        hide Inv;
        hide Decides;
      } else {
        hide *;
        i := ShownIsDecided(arrivedWith, events[..n]);
        DecidedStill(arrivedWith, events, i);
      }
    }
  }

  lemma DecidedStill(arrivedWith: string, events: seq<Event>, i: nat)
    requires events != [] && DecidedAt(arrivedWith, events[..|events| - 1], i)
    requires var f, last := At(arrivedWith, events, |events| - 1), events[|events| - 1];
             && f == Run(Opened(arrivedWith), events[..|events| - 1])
             && f.step == Amount && !Decides(f, last) && HasRecipient(f)
             && var t := Run(Opened(arrivedWith), events);
             && t.step == Amount && HasRecipient(t) && To(t) == To(f) && t.receive == f.receive
    ensures DecidedAt(arrivedWith, events, i)
  {
    hide At;
    hide Run;
    hide Opened;
    hide Decides;
    hide IsDraft;
    Prefixes(arrivedWith, events);
    var before := events[..|events| - 1];
    forall k | i < k < |events|
      ensures At(arrivedWith, events, k).step == Amount && !Decides(At(arrivedWith, events, k), events[k])
    {
      if k < |before| {
        assert At(arrivedWith, before, k) == At(arrivedWith, events, k) && before[k] == events[k];
      }
    }
    assert At(arrivedWith, before, i) == At(arrivedWith, events, i);
  }

  /** The amount step opened with the `i`-th event and has stayed open. */
  ghost predicate OpenedAt(arrivedWith: string, events: seq<Event>, i: nat) {
    && i < |events|
    && At(arrivedWith, events, i).step != Amount
    && forall k :: i < k <= |events| ==> At(arrivedWith, events, k).step == Amount
  }

  /** The currency pill, which only a Xetral recipient has. */
  predicate Picks(f: Flow, e: Event) {
    e.PickSendCurrency? && f.step == Amount && HasRecipient(f) && To(f).kind == Xetral
  }

  ghost predicate PickedAt(arrivedWith: string, events: seq<Event>, i: nat, k: nat) {
    && i < k < |events| && Picks(At(arrivedWith, events, k), events[k])
    && forall j :: k < j < |events| ==> !Picks(At(arrivedWith, events, j), events[j])
  }

  ghost predicate NonePicked(arrivedWith: string, events: seq<Event>, i: nat) {
    forall j :: i < j < |events| ==> !Picks(At(arrivedWith, events, j), events[j])
  }

  /** The currency an amount step opens with: the customer's own for a Xetral recipient,
      else what the recipient receives. */
  predicate OpensWith(f: Flow, currency: string) {
    && f.step == Amount && HasRecipient(f)
    && currency == if To(f).kind == Xetral || f.receive == "" then f.home else f.receive
  }

  lemma SendCurrencyStep(f: Flow, e: Event)
    requires Inv(f) && Next(f, e).step == Amount
    ensures var t := Next(f, e);
            && t.sendCurrency.Some?
            && (f.step != Amount ==> OpensWith(t, t.sendCurrency.value) && !Picks(f, e))
            && (f.step == Amount && Picks(f, e) ==> t.sendCurrency == Some(e.currency))
            && (f.step == Amount && !Picks(f, e) ==> t.sendCurrency == f.sendCurrency)
  {
  }

  /** The amount step opened with the `i`-th event, and sends the currency last picked
      since, by the `k`-th, or the one it opened with when none was. */
  ghost predicate SendsBy(arrivedWith: string, events: seq<Event>, i: nat, k: nat) {
    && OpenedAt(arrivedWith, events, i)
    && var now := Run(Opened(arrivedWith), events).sendCurrency;
    && now.Some?
    && (|| (PickedAt(arrivedWith, events, i, k) && now.value == events[k].currency)
        || (NonePicked(arrivedWith, events, i) && OpensWith(At(arrivedWith, events, i + 1), now.value)))
  }

  lemma OpenedStill(arrivedWith: string, events: seq<Event>, i: nat)
    requires events != [] && OpenedAt(arrivedWith, events[..|events| - 1], i)
    requires Run(Opened(arrivedWith), events).step == Amount
    ensures OpenedAt(arrivedWith, events, i)
  {
    hide At;
    hide Run;
    hide Opened;
    AtTheEnd(arrivedWith, events);
    Prefixes(arrivedWith, events);
    var before := events[..|events| - 1];
    forall k | i < k <= |events| ensures At(arrivedWith, events, k).step == Amount {
      if k < |events| {
        assert At(arrivedWith, before, k).step == Amount;
      }
    }
    assert At(arrivedWith, before, i) == At(arrivedWith, events, i);
  }

  lemma AtTheEnd(arrivedWith: string, events: seq<Event>)
    ensures At(arrivedWith, events, |events|) == Run(Opened(arrivedWith), events)
  {
    assert events[..|events|] == events;
  }

  lemma PickedStill(arrivedWith: string, events: seq<Event>, i: nat, k: nat)
    requires events != [] && i < |events| - 1
    requires !Picks(At(arrivedWith, events, |events| - 1), events[|events| - 1])
    ensures PickedAt(arrivedWith, events[..|events| - 1], i, k) ==> PickedAt(arrivedWith, events, i, k)
    ensures NonePicked(arrivedWith, events[..|events| - 1], i) ==> NonePicked(arrivedWith, events, i)
  {
    Prefixes(arrivedWith, events);
    hide At;
    hide Picks;
  }

  /** Every run: what the amount step sends is the currency last picked there, or the
      one it opened with when none was. */
  lemma {:induction false} SendsWhatWasPicked(arrivedWith: string, events: seq<Event>) returns (i: nat, k: nat)
    requires Run(Opened(arrivedWith), events).step == Amount
    ensures SendsBy(arrivedWith, events, i, k)
    decreases |events|
  {
    i, k := 0, 0;
    assert events[..|events|] == events;
    if events == [] {
      assert false;
    } else {
      var n := |events| - 1;
      AtNext(arrivedWith, events, n);
      var f := At(arrivedWith, events, n);
      Prefixes(arrivedWith, events);
      SendCurrencyStep(f, events[n]);
      AtTheEnd(arrivedWith, events);
      assert f == Run(Opened(arrivedWith), events[..n]);
      if f.step != Amount {
        i := n;
        hide Next;
        hide Run;
        hide OpensWith;
      } else {
        i, k := SendsWhatWasPicked(arrivedWith, events[..n]);
        hide Next;
        hide Run;
        hide OpensWith;
        hide Inv;
        hide Opened;
        OpenedStill(arrivedWith, events, i);
        if Picks(f, events[n]) {
          k := n;
        } else {
          PickedStill(arrivedWith, events, i, k);
        }
        hide OpenedAt;
        hide At;
        hide Picks;
      }
    }
  }

  /** A save in flight is one that was asked for on the details step, with what was
      found there and the currency chosen by then. */
  lemma {:induction false} SavesWereAsked(arrivedWith: string, events: seq<Event>, id: nat) returns (i: nat)
    requires id in Run(Opened(arrivedWith), events).saves
    ensures var save := Run(Opened(arrivedWith), events).saves[id];
            && i < |events| && events[i] == Continue(save.found)
            && At(arrivedWith, events, i).step == Details && At(arrivedWith, events, i).receive == save.receive
    decreases |events|
  {
    assert events[..|events|] == events;
    if events == [] {
      assert false;
    } else {
      var n := |events| - 1;
      AtNext(arrivedWith, events, n);
      Prefixes(arrivedWith, events);
      var f := At(arrivedWith, events, n);
      SavesStep(f, events[n], id);
      hide Next;
      hide Run;
      if id in f.saves && Next(f, events[n]).saves[id] == f.saves[id] {
        i := SavesWereAsked(arrivedWith, events[..n], id);
      } else {
        i := n;
      }
    }
  }

  lemma SavesStep(f: Flow, e: Event, id: nat)
    requires id in Next(f, e).saves
    ensures var save := Next(f, e).saves[id];
            || (id in f.saves && f.saves[id] == save)
            || (e == Continue(save.found) && f.step == Details && f.receive == save.receive)
  {
  }

  /** The currency that lands is chosen on its own step, before the details: what was
      picked there stands until something else is picked or decided. */
  lemma ReceiveStep(f: Flow, e: Event)
    ensures if Decides(f, e) then true
            else if e.PickCurrency? && f.step == Currency && e.currency != ""
            then Next(f, e).receive == e.currency && Next(f, e).step == Method
            else Next(f, e).receive == f.receive
  {
  }

  /** The customer's own currency is the one last heard of, and the naira before that. */
  function HomeAfter(events: seq<Event>): string {
    if events == [] then "NGN"
    else if events[|events| - 1].HomeLoaded? then events[|events| - 1].home
    else HomeAfter(events[..|events| - 1])
  }

  lemma {:induction false} HomeIsLastHeard(arrivedWith: string, events: seq<Event>)
    ensures Run(Opened(arrivedWith), events).home == HomeAfter(events)
    decreases |events|
  {
    if events != [] {
      var n := |events| - 1;
      HomeIsLastHeard(arrivedWith, events[..n]);
      AtNext(arrivedWith, events, n);
      AtTheEnd(arrivedWith, events);
      HomeStep(At(arrivedWith, events, n), events[n]);
      hide Next;
      hide Run;
    }
  }

  lemma HomeStep(f: Flow, e: Event)
    ensures Next(f, e).home == if e.HomeLoaded? then e.home else f.home
  {
  }

  /** A flow starts on the list, or on the details when it was opened by a link, with
      nobody chosen; a payment that went through leads back to the list; and a save is
      answered once. */
  lemma WhereItStarts(arrivedWith: string, f: Flow, e: Event)
    ensures Opened(arrivedWith).step == (if arrivedWith == "" then Who else Details)
    ensures Opened(arrivedWith).chosen.None? && Opened(arrivedWith).draft.None?
    ensures Next(f, Done).step == Who && Next(f, Done).sendCurrency.None?
    ensures e.Saved? && Decides(f, e) ==> Next(f, e).saves == f.saves - {e.save}
  {
  }

  /** Forward one step and back again is where one was. */
  lemma BackUndoesForward(f: Flow, e: Event)
    requires e.StartNew? || e.PickCurrency? || e.PickMethod? || e.Saved?
    requires Next(f, e).step != f.step && f.arrivedWith == ""
    ensures f.step == Details || !e.Saved? ==> Next(Next(f, e), Back).step == f.step
    ensures e.StartNew? ==> f.step == Who && Next(f, e).chosen.None? && Next(f, e).draft.None?
  {
  }

  /** A flow opened by a link goes back from the details to the list. */
  lemma BackLeadsOut(f: Flow)
    ensures f.step == Details && f.arrivedWith != "" ==> Next(f, Back).step == Who
    ensures f.step == Amount ==> Next(f, Back).step == Details
    ensures Next(Next(Next(Next(f, Back), Back), Back), Back).step == Who
  {
  }

  // ------------------------------------------------- exactly when it carries one

  /** A save answered while the amount step is already shown. */
  predicate LandsOnAmount(f: Flow, e: Event) {
    && e.Saved? && AmountShown(f)
    && e.save in f.saves && (e.row.Some? ==> RowKeeps(e.row.value, f.saves[e.save].found))
  }

  /** Any other event keeps payouts to one currency; ... */
  lemma OtherEventsKeepOneCurrency(f: Flow, e: Event)
    requires Inv(f) && OneCurrency(f) && !LandsOnAmount(f, e)
    ensures OneCurrency(Next(f, e))
  {
  }

  /** ... a save that lands on the amount step keeps them so exactly when it brings a
      Xetral account, or the currency the step already sends. */
  lemma LateSaveExactly(f: Flow, e: Event)
    requires Inv(f) && LandsOnAmount(f, e)
    ensures OneCurrency(Next(f, e))
        <==> f.saves[e.save].found.kind == Xetral || f.saves[e.save].found.currency == f.sendCurrency.value
  {
  }

  /** What brings a new recipient onto an open amount step fits it. */
  ghost predicate Fits(f: Flow, e: Event) {
    LandsOnAmount(f, e) && f.sendCurrency.Some? ==>
      f.saves[e.save].found.kind == Xetral || f.saves[e.save].found.currency == f.sendCurrency.value
  }

  ghost predicate AllFit(f: Flow, events: seq<Event>)
    decreases events
  {
    events != [] ==> Fits(f, events[0]) && AllFit(Next(f, events[0]), events[1..])
  }

  /** Whatever is on screen, now and after every event, pressing Send would not send a
      payout in another currency than its recipient's. */
  ghost predicate AlwaysOneCurrency(f: Flow, events: seq<Event>)
    decreases events
  {
    OneCurrency(f) && (events != [] ==> AlwaysOneCurrency(Next(f, events[0]), events[1..]))
  }

  /** Pressing Send sends a payout in its recipient's currency if and only if the amount
      step holds that currency. */
  lemma PressingExactly(f: Flow, amount: string)
    requires Inv(f) && AllInCurrency(f.sent)
    ensures AllInCurrency(Next(f, PressSend(amount)).sent) <==> OneCurrency(f)
  {
    if AmountShown(f) {
      var t := Next(f, PressSend(amount));
      assert t.sent[|f.sent|] == SentFrom(f, amount);
      assert forall i :: 0 <= i < |f.sent| ==> t.sent[i] == f.sent[i];
    }
  }

  /** Every run -- forward, back, saved recipient, new recipient or arrival by link:
      whenever Send is pressed a payout would carry exactly one currency, if and only if
      every save answered on an open amount step fits it. */
  lemma {:induction false} OneCurrencyExactly(f: Flow, events: seq<Event>)
    requires Inv(f) && OneCurrency(f)
    ensures AlwaysOneCurrency(f, events) <==> AllFit(f, events)
    decreases events
  {
    if events != [] {
      var e := events[0];
      NextKeepsInv(f, e);
      if LandsOnAmount(f, e) {
        LateSaveExactly(f, e);
      } else {
        OtherEventsKeepOneCurrency(f, e);
      }
      if Fits(f, e) {
        OneCurrencyExactly(Next(f, e), events[1..]);
      }
    }
  }

  lemma {:induction false} FittingRunsSendOneCurrency(f: Flow, events: seq<Event>)
    requires Inv(f) && OneCurrency(f) && AllInCurrency(f.sent) && AllFit(f, events)
    ensures AllInCurrency(Run(f, events).sent)
    decreases events
  {
    if events != [] {
      var e := events[0];
      NextKeepsInv(f, e);
      if LandsOnAmount(f, e) {
        LateSaveExactly(f, e);
      } else {
        OtherEventsKeepOneCurrency(f, e);
      }
      if e.PressSend? {
        PressingExactly(f, e.amount);
      }
      assert AllInCurrency(Next(f, e).sent);
      FittingRunsSendOneCurrency(Next(f, e), events[1..]);
    }
  }

  /** So in every such run from the start, each payout that went out named its
      recipient's account and that recipient's own currency. */
  lemma PayoutsHaveOneCurrency(arrivedWith: string, events: seq<Event>)
    requires AllFit(Opened(arrivedWith), events)
    ensures AllNamed(Run(Opened(arrivedWith), events).sent)
    ensures AllInCurrency(Run(Opened(arrivedWith), events).sent)
  {
    OpenedIsGood(arrivedWith);
    RequestsNameRecipients(Opened(arrivedWith), events);
    FittingRunsSendOneCurrency(Opened(arrivedWith), events);
  }

  lemma OpenedIsGood(arrivedWith: string)
    ensures Inv(Opened(arrivedWith)) && OneCurrency(Opened(arrivedWith))
  {
  }

  // -------------------------------------------------- the family of runs that fail

  /** A new recipient is being saved; the customer goes back to the list and picks
      somebody else; then the save is answered, and Send is pressed. */
  function LateSave(found: Resolution, other: Recipient, currency: string, amount: string): seq<Event> {
    [StartNew, PickCurrency(currency), PickMethod(found.kind), Continue(found), Back, Back, Back,
     PickSaved(other), Saved(0, None), PressSend(amount)]
  }

  lemma RunTwo(f: Flow, events: seq<Event>)
    requires |events| >= 2
    ensures Run(f, events) == Run(Next(Next(f, events[0]), events[1]), events[2..])
  {
    hide Next;
    assert events[1..][1..] == events[2..];
  }

  function SavingDetails(found: Resolution, currency: string): Flow {
    Flow("", Details, None, None, currency, found.kind, "NGN", None, map[0 := Save(found, currency)], 1, [])
  }

  lemma UntilSaving(found: Resolution, other: Recipient, currency: string, amount: string)
    requires currency != "" && found.currency != ""
    ensures Run(Opened(""), LateSave(found, other, currency, amount))
         == Run(SavingDetails(found, currency), [Back, Back, Back, PickSaved(other), Saved(0, None), PressSend(amount)])
  {
    var e := LateSave(found, other, currency, amount);
    RunTwo(Opened(""), e);
    var f2 := Next(Next(Opened(""), e[0]), e[1]);
    RunTwo(f2, e[2..]);
    hide Run;
    assert e[2..][2..] == [Back, Back, Back, PickSaved(other), Saved(0, None), PressSend(amount)];
    assert Next(Next(f2, e[2]), e[3]) == SavingDetails(found, currency);
  }

  /** For any recipient being saved and any other already saved, in different
      currencies and neither a Xetral account: the payout that goes out is to the first
      and names the second's currency. */
  lemma LateSaveSendsWrongCurrency(found: Resolution, other: Recipient, currency: string, amount: string)
    requires currency != "" && found.currency != "" && other.currency != ""
    requires found.kind != Xetral && other.kind != Xetral && found.currency != other.currency
    ensures var sent := Run(Opened(""), LateSave(found, other, currency, amount)).sent;
            && |sent| == 1 && sent[0].to == ToRecipient(found) && !InItsCurrency(sent[0])
            && sent[0].request.Payout? && sent[0].request.account == found.destination
            && sent[0].request.currency == other.currency
  {
    UntilSaving(found, other, currency, amount);
    var f0 := SavingDetails(found, currency);
    var e := [Back, Back, Back, PickSaved(other), Saved(0, None), PressSend(amount)];
    RunTwo(f0, e);
    var f2 := Next(Next(f0, e[0]), e[1]);
    assert f2.step == Currency && f2.saves == f0.saves && f2.sent == [];
    RunTwo(f2, e[2..]);
    var f4 := Next(Next(f2, e[2]), e[3]);
    FourthIs(f2, other);
    assert e[2..][2..] == [Saved(0, None), PressSend(amount)];
    RunTwo(f4, [Saved(0, None), PressSend(amount)]);
    SixthIs(f4, found, currency, amount);
    hide Next;
    assert [Saved(0, None), PressSend(amount)][2..] == [];
  }

  lemma FourthIs(f: Flow, other: Recipient)
    requires f.step == Currency && f.sent == [] && other.currency != ""
    ensures var g := Next(Next(f, Back), PickSaved(other));
            && g.step == Amount && g.chosen == Some(other) && g.saves == f.saves && g.sent == []
            && (other.kind != Xetral ==> g.sendCurrency == Some(other.currency))
  {
  }

  lemma SixthIs(f: Flow, found: Resolution, currency: string, amount: string)
    requires AmountShown(f) && f.sendCurrency.Some? && f.sent == []
    requires 0 in f.saves && f.saves[0] == Save(found, currency)
    requires found.kind != Xetral && found.currency != ""
    ensures Next(Next(f, Saved(0, None)), PressSend(amount)).sent
         == [Sent(ToRecipient(found), amount, f.sendCurrency.value, found.currency,
                  PayoutTo(found, amount, f.sendCurrency.value))]
  {
  }

  function PayoutTo(found: Resolution, amount: string, currency: string): Request {
    Payout(found.country, if found.rail.Some? then found.rail.value else "", found.destination,
           found.kind == Momo, found.branch, amount, currency)
  }

  // ------------------------------------------------------------- the component

  class SendScreen {
    const arrivedWith: string
    var step: Step
    var chosen: Option<Recipient>
    var draft: Option<Resolution>
    var receive: string
    var way: Kind
    var home: string
    var sendCurrency: Option<string>
    var saves: map<nat, Save>
    var nextSave: nat
    var sent: seq<Sent>

    function View(): Flow
      reads this
    {
      Flow(arrivedWith, step, chosen, draft, receive, way, home, sendCurrency, saves, nextSave, sent)
    }

    constructor (arrivedWith: string)
      ensures View() == Opened(arrivedWith)
    {
      this.arrivedWith := arrivedWith;
      step := if arrivedWith == "" then Who else Details;
      chosen, draft, receive, way, home := None, None, "", Xetral, "NGN";
      sendCurrency, saves, nextSave, sent := None, map[], 0, [];
    }

    method Render()
      modifies this`sendCurrency
      ensures View() == Rendered(old(View()))
    {
      if step != Amount || (chosen.None? && draft.None?) {
        sendCurrency := None;
      } else if sendCurrency.None? {
        var to := To(View());
        sendCurrency := Some(if to.kind == Xetral then home else if receive == "" then home else receive);
      }
    }

    method New()
      modifies this
      ensures View() == Next(old(View()), StartNew)
    {
      if step == Who {
        chosen, draft, step := None, None, Currency;
        Render();
      }
    }

    method GoBack()
      modifies this
      ensures View() == Next(old(View()), Back)
    {
      if step == Amount {
        step := Details;
      } else if step == Details {
        step := if arrivedWith == "" then Method else Who;
      } else if step == Method {
        step := Currency;
      } else if step == Currency {
        step := Who;
      }
      Render();
    }

    method Pick(recipient: Recipient)
      requires recipient.currency != ""
      modifies this
      ensures View() == Next(old(View()), PickSaved(recipient))
    {
      if step == Who {
        chosen, draft, receive, step := Some(recipient), None, recipient.currency, Amount;
        Render();
      }
    }

    method PickReceiveCurrency(currency: string)
      requires currency != ""
      modifies this
      ensures View() == Next(old(View()), PickCurrency(currency))
    {
      if step == Currency {
        receive, step := currency, Method;
        Render();
      }
    }

    method PickWay(picked: Kind)
      modifies this
      ensures View() == Next(old(View()), PickMethod(picked))
    {
      if step == Method {
        way, step := picked, Details;
        Render();
      }
    }

    method HearHome(currency: string)
      modifies this
      ensures View() == Next(old(View()), HomeLoaded(currency))
    {
      home := currency;
      Render();
    }

    method PickSending(currency: string)
      modifies this`sendCurrency
      ensures View() == Next(old(View()), PickSendCurrency(currency))
    {
      if step == Amount && (chosen.Some? || draft.Some?) {
        var to := To(View());
        if to.kind == Xetral {
          sendCurrency := Some(currency);
        }
      }
    }

    method Submit(found: Resolution)
      requires found.currency != ""
      modifies this
      ensures View() == Next(old(View()), Continue(found))
    {
      if step == Details {
        saves := saves[nextSave := Save(found, receive)];
        nextSave := nextSave + 1;
      }
    }

    method OnReady(save: nat, row: Option<Recipient>)
      requires save in saves && (row.Some? ==> RowKeeps(row.value, saves[save].found))
      modifies this
      ensures View() == Next(old(View()), Saved(save, row))
    {
      var s := saves[save];
      saves := saves - {save};
      draft := Some(s.found);
      chosen := row;
      receive := if s.found.kind == Xetral then s.receive else s.found.currency;
      step := Amount;
      Render();
    }

    /** The button at the end: three paths, and the customer chose none of them. */
    method Send(amount: string)
      modifies this`sent
      ensures View() == Next(old(View()), PressSend(amount))
    {
      if step != Amount || sendCurrency.None? || (chosen.None? && draft.None?) {
        return;
      }
      var to, sending := To(View()), sendCurrency.value;
      var landsIn := if receive == "" then home else receive;
      var request;
      if to.kind == Xetral && sending == landsIn {
        request := Transfer(to.destination, amount, sending);
      } else if to.kind == Xetral {
        request := Remit(sending, landsIn, amount, to.destination);
      } else {
        request := Payout(to.country, if to.rail.Some? then to.rail.value else "", to.destination,
                          to.kind == Momo, to.branch, amount, sending);
      }
      sent := sent + [Sent(to, amount, sending, landsIn, request)];
    }

    method OnSent()
      modifies this
      ensures View() == Next(old(View()), Done)
    {
      step := Who;
      Render();
    }
  }
}
