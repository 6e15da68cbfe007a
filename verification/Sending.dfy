/** Sending on a patchy connection (`useIdempotencyKey` and `useSubmit` in
    `apps/mobile/src/hooks.ts`, used by `apps/mobile/app/transfer.tsx`).

    A key belongs to the attempt, is kept across retries, and is replaced only when an
    answer comes back. One form sends to three endpoints, and each keeps keys of its
    own: a used key is replayed there, a transfer only if it is the same transfer. The
    network may lose, delay or repeat any request and lose or delay any answer; the box
    may be edited between retries; the form may be left and mounted again. */
module Sending {
  import opened Text
  import SendFlow

  datatype Endpoint = Transfers | Remittances | Payouts

  /** What is sent: to whom, from which currency, landing in which, and how many minor
      units of the first. */
  datatype Payment = Payment(kind: SendFlow.Kind, recipient: string, from: string, to: string, amount: nat)

  function EndpointOf(p: Payment): Endpoint {
    if p.kind != SendFlow.Xetral then Payouts else if p.from == p.to then Transfers else Remittances
  }

  /** What the Send flow's amount step holds. */
  function Held(f: SendFlow.Flow, amount: nat): Payment
    requires SendFlow.AmountShown(f) && f.sendCurrency.Some?
  {
    var to := SendFlow.To(f);
    Payment(to.kind, to.destination, f.sendCurrency.value, SendFlow.Receives(f), amount)
  }

  /** The endpoint is the one the flow dispatches to. */
  lemma EndpointIsDispatched(f: SendFlow.Flow, text: string, amount: nat)
    requires SendFlow.AmountShown(f) && f.sendCurrency.Some?
    ensures match SendFlow.Dispatch(f, text)
            case Transfer(_, _, _) => EndpointOf(Held(f, amount)) == Transfers
            case Remit(_, _, _, _) => EndpointOf(Held(f, amount)) == Remittances
            case Payout(_, _, _, _, _, _, _) => EndpointOf(Held(f, amount)) == Payouts
  {
  }

  // -------------------------------------------------------------------- the form

  /** One mounted form: its key, whether a submission runs, what is in the box. */
  datatype Form = Form(key: nat, busy: bool, box: Payment)

  const BLANK := Payment(SendFlow.Xetral, "", "", "", 0)

  function Mounted(key: nat): Form {
    Form(key, false, BLANK)
  }

  class SendForm {
    var key: nat
    var busy: bool
    var box: Payment

    function View(): Form
      reads this
    {
      Form(key, busy, box)
    }

    constructor (key: nat)
      ensures View() == Mounted(key)
    {
      this.key, busy, box := key, false, BLANK;
    }

    method Type(p: Payment)
      modifies this
      ensures View() == Typed(old(View()), p)
    {
      box := p;
    }

    /** What goes out, under which key; nothing while a submission runs. */
    method Tap() returns (sent: Option<(nat, Payment)>)
      modifies this
      ensures sent == if old(busy) then None else Some((old(key), old(box)))
      ensures View() == if old(busy) then old(View()) else Submitting(old(View()))
    {
      if busy {
        return None;
      }
      busy := true;
      sent := Some((key, box));
    }

    method Confirm(newKey: nat)
      modifies this
      ensures View() == Confirmed(old(View()), newKey)
    {
      key := newKey;
      box := BLANK;
      busy := false;
    }

    method Refuse()
      modifies this
      ensures View() == Failed(old(View()))
    {
      busy := false;
    }
  }

  function Typed(f: Form, p: Payment): Form {
    f.(box := p)
  }

  function Submitting(f: Form): Form {
    f.(busy := true)
  }

  /** `next()`: a new key, an empty box. */
  function Confirmed(f: Form, key: nat): Form {
    Form(key, false, BLANK)
  }

  /** A failed submission keeps its key. */
  function Failed(f: Form): Form {
    f.(busy := false)
  }

  // ------------------------------------------------------------------ the system

  datatype Attempt = Attempt(mount: nat, key: nat, payment: Payment)

  /** Where a key is looked up. */
  datatype Slot = Slot(endpoint: Endpoint, key: nat)

  function SlotOf(a: Attempt): Slot {
    Slot(EndpointOf(a.payment), a.key)
  }

  /** The dialog: the amount the server answered, with the currency and the recipient
      of the tap it answers. */
  datatype Confirmation = Confirmation(slot: Slot, attempt: nat, amount: nat, currency: string, recipient: string)

  /** `keys[m]` is the key form `m` holds, or held when it was left; `attempts` are
      all the taps ever sent; `awaited` those whose submission still waits;
      `answered` the amount the server replied to each. */
  datatype System = System(
    form: Form,
    keys: seq<nat>,
    nextKey: nat,
    attempts: seq<Attempt>,
    awaited: set<nat>,
    posted: map<Slot, Payment>,
    answered: map<nat, nat>,
    confirmed: seq<Confirmation>)

  /** Whether a used key may answer this payment: only a transfer is compared with what
      the key has posted. */
  predicate Replays(held: Payment, p: Payment) {
    EndpointOf(p) == Transfers ==> held.recipient == p.recipient && held.from == p.from && held.amount == p.amount
  }

  datatype Event =
    | Type(p: Payment)
    | Tap
    | Arrive(attempt: nat)
    | Deliver(attempt: nat)
    | Fail(attempt: nat)
    | Remount

  function Start(): System {
    System(Mounted(0), [0], 1, [], {}, map[], map[], [])
  }

  /** The form on screen is the last one mounted. */
  function Current(s: System): nat
    requires s.keys != []
  {
    |s.keys| - 1
  }

  function Told(a: Attempt, i: nat, amount: nat): Confirmation {
    Confirmation(SlotOf(a), i, amount, a.payment.from, a.payment.recipient)
  }

  function Next(s: System, e: Event): (r: System)
    requires s.keys != []
    ensures r.keys != []
  {
    match e
    case Type(p) =>
      s.(form := Typed(s.form, p))
    case Tap =>
      if s.form.busy then s
      else s.(form := Submitting(s.form),
              attempts := s.attempts + [Attempt(Current(s), s.form.key, s.form.box)],
              awaited := s.awaited + {|s.attempts|})
    case Arrive(i) =>
      // Any request ever sent, any number of times: posts once for its key there, then
      // replays, or refuses a transfer that is another one.
      if i >= |s.attempts| then s
      else
        var a := s.attempts[i];
        var slot := SlotOf(a);
        if slot !in s.posted
        then s.(posted := s.posted[slot := a.payment], answered := s.answered[i := a.payment.amount])
        else if Replays(s.posted[slot], a.payment) then s.(answered := s.answered[i := s.posted[slot].amount])
        else s
    case Deliver(i) =>
      if i !in s.awaited || i !in s.answered || i >= |s.attempts| then s
      else
        var a := s.attempts[i];
        var t := s.(awaited := s.awaited - {i}, confirmed := s.confirmed + [Told(a, i, s.answered[i])]);
        if a.mount != Current(s) then t
        else t.(form := Confirmed(s.form, s.nextKey), keys := s.keys[Current(s) := s.nextKey], nextKey := s.nextKey + 1)
    case Fail(i) =>
      // A lost request, a lost answer, a timeout or a refusal: all look alike.
      if i !in s.awaited || i >= |s.attempts| then s
      else
        var t := s.(awaited := s.awaited - {i});
        if s.attempts[i].mount != Current(s) then t else t.(form := Failed(s.form))
    case Remount =>
      s.(form := Mounted(s.nextKey), keys := s.keys + [s.nextKey], nextKey := s.nextKey + 1)
  }

  function Run(events: seq<Event>): (r: System)
    ensures r.keys != []
  {
    if events == [] then Start()
    else Next(Run(events[..|events| - 1]), events[|events| - 1])
  }

  // ------------------------------------------------------------------ what is kept

  function KeysOf(confirmed: seq<Confirmation>): set<nat> {
    if confirmed == [] then {}
    else KeysOf(confirmed[..|confirmed| - 1]) + {confirmed[|confirmed| - 1].slot.key}
  }

  lemma KeysOfSnoc(confirmed: seq<Confirmation>, c: Confirmation)
    ensures KeysOf(confirmed + [c]) == KeysOf(confirmed) + {c.slot.key}
  {
    assert (confirmed + [c])[..|confirmed|] == confirmed;
  }

  ghost predicate KeysOk(s: System) {
    && s.keys != [] && s.keys[|s.keys| - 1] == s.form.key
    && (forall m :: 0 <= m < |s.keys| ==> s.keys[m] < s.nextKey)
    && (forall m, n :: 0 <= m < n < |s.keys| ==> s.keys[m] != s.keys[n])
    && (forall k :: k in KeysOf(s.confirmed) ==> k < s.nextKey)
    && s.form.key !in KeysOf(s.confirmed)
  }

  /** A tap's key is its form's, unless it has been confirmed since. */
  ghost predicate AttemptsOk(s: System) {
    forall i :: 0 <= i < |s.attempts| ==>
      && s.attempts[i].mount < |s.keys|
      && s.attempts[i].key < s.nextKey
      && (s.attempts[i].key == s.keys[s.attempts[i].mount] || s.attempts[i].key in KeysOf(s.confirmed))
  }

  /** A waiting submission holds its form's key, not yet confirmed. */
  ghost predicate AwaitedOk(s: System) {
    forall i :: i in s.awaited ==>
      && i < |s.attempts|
      && s.attempts[i].mount < |s.keys|
      && s.attempts[i].key == s.keys[s.attempts[i].mount]
      && s.attempts[i].key !in KeysOf(s.confirmed)
  }

  predicate SameForm(s: System, i: nat, j: nat) {
    i < |s.attempts| && j < |s.attempts| && s.attempts[i].mount == s.attempts[j].mount
  }

  /** At most one submission waits for each form, and none when it is not busy. */
  ghost predicate OneAwaited(s: System) {
    && (forall i, j :: i in s.awaited && j in s.awaited && SameForm(s, i, j) ==> i == j)
    && (forall i :: i in s.awaited && i < |s.attempts| && !s.form.busy ==> s.attempts[i].mount != |s.keys| - 1)
  }

  /** What an attempt may be answered: the amount its slot has posted. */
  predicate Answers(s: System, i: nat, amount: nat) {
    && i < |s.attempts| && SlotOf(s.attempts[i]) in s.posted
    && amount == s.posted[SlotOf(s.attempts[i])].amount
    && Replays(s.posted[SlotOf(s.attempts[i])], s.attempts[i].payment)
  }

  /** Every answer is the amount of a posting; every confirmation was an answer. */
  ghost predicate MoneyOk(s: System) {
    && (forall i :: i in s.answered ==> Answers(s, i, s.answered[i]))
    && (forall c :: 0 <= c < |s.confirmed| ==>
          && Answers(s, s.confirmed[c].attempt, s.confirmed[c].amount)
          && s.confirmed[c] == Told(s.attempts[s.confirmed[c].attempt], s.confirmed[c].attempt, s.confirmed[c].amount))
  }

  ghost predicate DistinctKeys(confirmed: seq<Confirmation>) {
    forall c, d :: 0 <= c < d < |confirmed| ==> confirmed[c].slot.key != confirmed[d].slot.key
  }

  predicate TappedBy(a: Attempt, slot: Slot, p: Payment) {
    SlotOf(a) == slot && a.payment == p
  }

  /** What was posted under a key is what some tap under that key held. */
  ghost predicate PostedOk(s: System) {
    forall k :: k in s.posted ==> exists i :: 0 <= i < |s.attempts| && TappedBy(s.attempts[i], k, s.posted[k])
  }

  ghost predicate Inv(s: System) {
    && KeysOk(s) && AttemptsOk(s) && AwaitedOk(s) && OneAwaited(s)
    && MoneyOk(s) && DistinctKeys(s.confirmed) && PostedOk(s)
  }

  lemma KeysKept(s: System, e: Event)
    requires KeysOk(s) && AttemptsOk(s) && AwaitedOk(s)
    ensures KeysOk(Next(s, e))
  {
    match e
    case Deliver(i) =>
      if i in s.awaited && i in s.answered && i < |s.attempts| {
        DeliverKeepsKeys(s, i);
      }
    case Arrive(i) =>
      ArriveOnlyPosts(s, i);
      hide Next;
      hide KeysOf;
    case Remount =>
      hide KeysOf;
      hide AttemptsOk;
      hide AwaitedOk;
    case _ =>
      SameKeys(s, e);
      hide Next;
      hide KeysOf;
      hide AttemptsOk;
      hide AwaitedOk;
  }

  lemma SameKeys(s: System, e: Event)
    requires s.keys != [] && (e.Type? || e.Tap? || e.Fail?)
    ensures var t := Next(s, e);
            t.keys == s.keys && t.form.key == s.form.key && t.nextKey == s.nextKey && t.confirmed == s.confirmed
  {
  }

  lemma DeliverKeepsKeys(s: System, i: nat)
    requires KeysOk(s) && AwaitedOk(s) && i in s.awaited && i in s.answered && i < |s.attempts|
    ensures KeysOk(Next(s, Deliver(i)))
  {
    DeliverSets(s, i);
    hide Next;
    hide KeysOf;
  }

  lemma AttemptsKept(s: System, e: Event)
    requires s.keys != [] && KeysOk(s) && AttemptsOk(s) && AwaitedOk(s)
    ensures AttemptsOk(Next(s, e))
  {
    if e.Deliver? && e.attempt in s.awaited && e.attempt in s.answered && e.attempt < |s.attempts| {
      DeliverSets(s, e.attempt);
      hide Next;
    } else if e.Arrive? {
      ArriveOnlyPosts(s, e.attempt);
      hide Next;
    }
    hide KeysOf;
  }

  lemma AwaitedKept(s: System, e: Event)
    requires s.keys != [] && KeysOk(s) && AttemptsOk(s) && AwaitedOk(s) && OneAwaited(s)
    ensures AwaitedOk(Next(s, e)) && OneAwaited(Next(s, e))
  {
    hide KeysOf;
    hide Replays;
    hide SlotOf;
    hide Told;
    match e
    case Arrive(i) =>
      ArriveOnlyPosts(s, i);
      hide Next;
    case Tap =>
      if !s.form.busy {
        TapKeepsAwaited(s);
      }
    case Deliver(i) =>
      if i in s.awaited && i in s.answered && i < |s.attempts| {
        DeliverKeepsAwaited(s, i);
      }
    case Remount => RemountKeepsAwaited(s);
    case _ =>
  }

  lemma RemountKeepsAwaited(s: System)
    requires KeysOk(s) && AwaitedOk(s) && OneAwaited(s)
    ensures AwaitedOk(Next(s, Remount)) && OneAwaited(Next(s, Remount))
  {
    hide KeysOf;
    var t := Next(s, Remount);
    assert forall m :: 0 <= m < |s.keys| ==> t.keys[m] == s.keys[m];
  }

  /** An arrival touches what is posted and answered, and nothing else. */
  lemma ArriveOnlyPosts(s: System, i: nat)
    requires s.keys != []
    ensures var t := Next(s, Arrive(i));
            && t == s.(posted := t.posted, answered := t.answered)
            && (forall k :: k in s.posted ==> k in t.posted && t.posted[k] == s.posted[k])
            && (i < |s.attempts| ==> SlotOf(s.attempts[i]) in t.posted)
  {
    hide Replays;
    hide SlotOf;
  }

  lemma TapKeepsAwaited(s: System)
    requires KeysOk(s) && AwaitedOk(s) && OneAwaited(s) && !s.form.busy
    ensures AwaitedOk(Next(s, Tap)) && OneAwaited(Next(s, Tap))
  {
    hide KeysOf;
    var t := Next(s, Tap);
    forall j | j in s.awaited
      ensures j < |s.attempts| && t.attempts[j] == s.attempts[j] && t.attempts[j].mount != Current(s)
    {
    }
  }

  /** What a delivered answer changes. */
  lemma DeliverSets(s: System, i: nat)
    requires s.keys != [] && i in s.awaited && i in s.answered && i < |s.attempts|
    ensures var t, mount := Next(s, Deliver(i)), s.attempts[i].mount;
            && t.attempts == s.attempts && t.awaited == s.awaited - {i} && |t.keys| == |s.keys|
            && (forall k :: k in KeysOf(t.confirmed) <==> k in KeysOf(s.confirmed) || k == s.attempts[i].key)
            && (mount == Current(s) ==>
                  t.keys == s.keys[mount := s.nextKey] && t.form == Mounted(s.nextKey) && t.nextKey == s.nextKey + 1)
            && (mount != Current(s) ==> t.keys == s.keys && t.form == s.form && t.nextKey == s.nextKey)
  {
    KeysOfSnoc(s.confirmed, Told(s.attempts[i], i, s.answered[i]));
    hide KeysOf;
    hide SlotOf;
  }

  lemma DeliverKeepsAwaited(s: System, i: nat)
    requires s.keys != [] && KeysOk(s) && AwaitedOk(s) && OneAwaited(s)
    requires i in s.awaited && i in s.answered && i < |s.attempts|
    ensures AwaitedOk(Next(s, Deliver(i))) && OneAwaited(Next(s, Deliver(i)))
  {
    DeliverSets(s, i);
    hide KeysOf;
    hide Next;
    OthersWaitElsewhere(s, i);
    var t := Next(s, Deliver(i));
    assert AwaitedOk(t) by {
      hide OneAwaited;
    }
    hide AwaitedOk;
    assert forall j :: j in t.awaited ==> j in s.awaited && j != i;
    assert forall j, k :: SameForm(t, j, k) <==> SameForm(s, j, k);
    hide SameForm;
  }

  /** Whatever else waits belongs to another form, under another key. */
  lemma OthersWaitElsewhere(s: System, i: nat)
    requires KeysOk(s) && AwaitedOk(s) && OneAwaited(s) && i in s.awaited
    ensures forall j :: j in s.awaited && j != i ==>
              s.attempts[j].mount != s.attempts[i].mount && s.attempts[j].key != s.attempts[i].key
  {
    hide KeysOf;
    forall j | j in s.awaited && j != i
      ensures s.attempts[j].mount != s.attempts[i].mount && s.attempts[j].key != s.attempts[i].key
    {
      assert !SameForm(s, i, j);
    }
  }

  lemma MoneyKept(s: System, e: Event)
    requires s.keys != [] && MoneyOk(s) && AwaitedOk(s)
    ensures MoneyOk(Next(s, e))
  {
    hide KeysOf;
    if e.Arrive? {
      ArriveKeepsMoney(s, e.attempt);
    } else {
      hide Replays;
      hide SlotOf;
    }
  }

  lemma ArriveKeepsMoney(s: System, i: nat)
    requires s.keys != [] && MoneyOk(s)
    ensures MoneyOk(Next(s, Arrive(i)))
  {
    ArriveOnlyPosts(s, i);
    var t := Next(s, Arrive(i));
    if i < |s.attempts| {
      assert i in t.answered && i !in s.answered ==> Answers(t, i, t.answered[i]);
    }
    assert forall j :: j in s.answered ==> Answers(s, j, s.answered[j]) && Answers(t, j, s.answered[j]);
    assert forall c :: 0 <= c < |s.confirmed| ==> Answers(t, s.confirmed[c].attempt, s.confirmed[c].amount);
  }

  lemma DistinctKept(s: System, e: Event)
    requires s.keys != [] && AwaitedOk(s) && DistinctKeys(s.confirmed)
    ensures DistinctKeys(Next(s, e).confirmed)
  {
    if e.Deliver? && e.attempt in s.awaited && e.attempt in s.answered && e.attempt < |s.attempts| {
      KeysOfAll(s.confirmed);
    }
  }

  lemma {:induction false} KeysOfAll(confirmed: seq<Confirmation>)
    ensures forall c :: 0 <= c < |confirmed| ==> confirmed[c].slot.key in KeysOf(confirmed)
  {
    if confirmed != [] {
      KeysOfAll(confirmed[..|confirmed| - 1]);
    }
  }

  lemma PostedKept(s: System, e: Event)
    requires s.keys != [] && PostedOk(s)
    ensures PostedOk(Next(s, e))
  {
    var t := Next(s, e);
    assert s.attempts <= t.attempts;
    forall k | k in t.posted
      ensures exists i :: 0 <= i < |t.attempts| && TappedBy(t.attempts[i], k, t.posted[k])
    {
      if k in s.posted {
        var i :| 0 <= i < |s.attempts| && TappedBy(s.attempts[i], k, s.posted[k]);
        assert TappedBy(t.attempts[i], k, t.posted[k]);
      } else {
        assert TappedBy(t.attempts[e.attempt], k, t.posted[k]);
      }
    }
  }

  lemma {:induction false} RunKeepsInv(events: seq<Event>)
    ensures Inv(Run(events))
  {
    if events != [] {
      var most, last := events[..|events| - 1], events[|events| - 1];
      var s := Run(most);
      RunKeepsInv(most);
      hide KeysOk;
      hide AttemptsOk;
      hide AwaitedOk;
      hide OneAwaited;
      hide MoneyOk;
      hide DistinctKeys;
      hide PostedOk;
      hide Next;
      KeysKept(s, last);
      AttemptsKept(s, last);
      AwaitedKept(s, last);
      MoneyKept(s, last);
      DistinctKept(s, last);
      PostedKept(s, last);
    }
  }

  // --------------------------------------------------------------- exactly once

  ghost function HeldKeys(s: System): set<nat> {
    set m | 0 <= m < |s.keys| :: s.keys[m]
  }

  lemma {:induction false} SetOfSeqSize(xs: seq<nat>)
    ensures |set i | 0 <= i < |xs| :: xs[i]| <= |xs|
  {
    var all := set i | 0 <= i < |xs| :: xs[i];
    if xs != [] {
      var rest := xs[..|xs| - 1];
      var most := set i | 0 <= i < |rest| :: rest[i];
      SetOfSeqSize(rest);
      assert all == most + {xs[|xs| - 1]} by {
        forall x | x in all ensures x in most + {xs[|xs| - 1]} {
          var i :| 0 <= i < |xs| && xs[i] == x;
          assert i < |rest| ==> rest[i] == x;
        }
        forall x | x in most ensures x in all {
          var i :| 0 <= i < |rest| && rest[i] == x;
          assert xs[i] == x;
        }
      }
    }
  }

  lemma {:induction false} DistinctKeysCount(confirmed: seq<Confirmation>)
    requires DistinctKeys(confirmed)
    ensures |KeysOf(confirmed)| == |confirmed|
  {
    if confirmed != [] {
      var most, last := confirmed[..|confirmed| - 1], confirmed[|confirmed| - 1];
      DistinctKeysCount(most);
      if last.slot.key in KeysOf(most) {
        var c := KeyAt(most, last.slot.key);
        assert false;
      }
    }
  }

  lemma {:induction false} KeyAt(confirmed: seq<Confirmation>, key: nat) returns (c: nat)
    requires key in KeysOf(confirmed)
    ensures c < |confirmed| && confirmed[c].slot.key == key
  {
    if confirmed[|confirmed| - 1].slot.key == key {
      c := |confirmed| - 1;
    } else {
      c := KeyAt(confirmed[..|confirmed| - 1], key);
    }
  }

  lemma SubsetSize(a: set<nat>, b: set<nat>)
    requires a <= b
    ensures |a| <= |b|
  {
    assert b == a + (b - a);
    assert |b| == |a| + |b - a|;
  }

  /** The keys under which something was posted. */
  function UsedKeys(s: System): set<nat> {
    set k | k in s.posted :: k.key
  }

  /** A posting that was never confirmed is under the key some form still holds. */
  lemma UnconfirmedIsHeld(s: System)
    requires Inv(s)
    ensures UsedKeys(s) <= KeysOf(s.confirmed) + HeldKeys(s)
  {
    forall k | k in s.posted ensures k.key in KeysOf(s.confirmed) + HeldKeys(s) {
      var i :| 0 <= i < |s.attempts| && TappedBy(s.attempts[i], k, s.posted[k]);
      if k.key !in KeysOf(s.confirmed) {
        assert k.key == s.keys[s.attempts[i].mount];
      }
    }
  }

  lemma ConfirmedArePosted(s: System)
    requires Inv(s)
    ensures KeysOf(s.confirmed) <= UsedKeys(s)
  {
    forall k | k in KeysOf(s.confirmed) ensures k in UsedKeys(s) {
      var c := KeyAt(s.confirmed, k);
      assert s.confirmed[c].slot in s.posted;
    }
  }

  lemma SizesAdd(a: set<nat>, b: set<nat>, c: set<nat>)
    requires a <= c <= a + b
    ensures |a| <= |c| <= |a| + |b|
  {
    SubsetSize(a, c);
    SubsetSize(c, a + b);
    assert |a + b| <= |a| + |b|;
  }

  /** Every run, whatever the network does and however the box is edited: the keys that
      posted are at least the confirmations shown and at most one more for each form
      mounted; no key is confirmed twice. */
  lemma KeysPerConfirmation(events: seq<Event>)
    ensures var s := Run(events);
            && |s.confirmed| <= |UsedKeys(s)| <= |s.confirmed| + |s.keys|
            && DistinctKeys(s.confirmed)
  {
    var s := Run(events);
    RunKeepsInv(events);
    UnconfirmedIsHeld(s);
    ConfirmedArePosted(s);
    DistinctKeysCount(s.confirmed);
    SetOfSeqSize(s.keys);
    SizesAdd(KeysOf(s.confirmed), HeldKeys(s), UsedKeys(s));
  }

  // ---------------------------------------------------- one posting for each key

  predicate OnePostingPerKey(s: System) {
    forall j, k :: j in s.posted && k in s.posted && j.key == k.key ==> j == k
  }

  /** Taps under one key all go to one endpoint. */
  predicate OneEndpoint(s: System) {
    forall i, j :: 0 <= i < |s.attempts| && 0 <= j < |s.attempts| && s.attempts[i].key == s.attempts[j].key ==>
                     EndpointOf(s.attempts[i].payment) == EndpointOf(s.attempts[j].payment)
  }

  /** Requests already sent reach the server, in any order and any number of times. */
  function ArriveAll(s: System, arrivals: seq<nat>): (r: System)
    requires s.keys != []
    ensures r.keys == s.keys && r.attempts == s.attempts
  {
    if arrivals == [] then s
    else Next(ArriveAll(s, arrivals[..|arrivals| - 1]), Arrive(arrivals[|arrivals| - 1]))
  }

  lemma {:induction false} ArriveAllKeeps(s: System, arrivals: seq<nat>)
    requires s.keys != [] && PostedOk(s)
    ensures PostedOk(ArriveAll(s, arrivals))
    ensures forall k :: k in s.posted ==>
              k in ArriveAll(s, arrivals).posted && ArriveAll(s, arrivals).posted[k] == s.posted[k]
  {
    if arrivals != [] {
      var t, i := ArriveAll(s, arrivals[..|arrivals| - 1]), arrivals[|arrivals| - 1];
      ArriveAllKeeps(s, arrivals[..|arrivals| - 1]);
      PostedKept(t, Arrive(i));
      ArriveOnlyPosts(t, i);
      hide Next;
      hide PostedOk;
    }
  }

  lemma ArriveTwo(s: System, i: nat, j: nat)
    requires s.keys != []
    ensures ArriveAll(s, [i]) == Next(s, Arrive(i))
    ensures ArriveAll(s, [i, j]) == Next(Next(s, Arrive(i)), Arrive(j))
  {
    hide Next;
    assert [i][..0] == [] && [i, j][..1] == [i];
    assert ArriveAll(s, []) == s;
  }

  lemma InvHasForm(s: System)
    requires Inv(s)
    ensures s.keys != []
  {
  }

  /** Whatever reaches the server, in whatever order, each key posts once if and only if
      its taps all went to one endpoint. */
  lemma PostsOnceExactly(s: System)
    requires Inv(s)
    ensures (forall arrivals: seq<nat> :: OnePostingPerKey(ArriveAll(s, arrivals))) <==> OneEndpoint(s)
  {
    hide KeysOk;
    hide AttemptsOk;
    hide AwaitedOk;
    hide OneAwaited;
    hide MoneyOk;
    hide DistinctKeys;
    hide Next;
    hide OnePostingPerKey;
    assert s.keys != [] by { InvHasForm(s); }
    if OneEndpoint(s) {
      hide PostedOk;
      forall arrivals: seq<nat> ensures OnePostingPerKey(ArriveAll(s, arrivals)) {
        ArriveAllKeeps(s, arrivals);
        OneEndpointPostsOnce(ArriveAll(s, arrivals));
      }
    } else {
      var i, j :| && 0 <= i < |s.attempts| && 0 <= j < |s.attempts| && s.attempts[i].key == s.attempts[j].key
                  && EndpointOf(s.attempts[i].payment) != EndpointOf(s.attempts[j].payment);
      BothPost(s, i, j);
    }
  }

  lemma BothPost(s: System, i: nat, j: nat)
    requires s.keys != [] && i < |s.attempts| && j < |s.attempts| && s.attempts[i].key == s.attempts[j].key
    requires EndpointOf(s.attempts[i].payment) != EndpointOf(s.attempts[j].payment)
    ensures !OnePostingPerKey(ArriveAll(s, [i, j]))
  {
    ArriveTwo(s, i, j);
    var t := Next(s, Arrive(i));
    ArriveOnlyPosts(s, i);
    ArriveOnlyPosts(t, j);
    hide Next;
    assert SlotOf(s.attempts[i]) in ArriveAll(s, [i, j]).posted && SlotOf(s.attempts[j]) in ArriveAll(s, [i, j]).posted;
  }

  lemma OneEndpointPostsOnce(s: System)
    requires PostedOk(s) && OneEndpoint(s)
    ensures OnePostingPerKey(s)
  {
    forall j, k | j in s.posted && k in s.posted && j.key == k.key ensures j == k {
      var a :| 0 <= a < |s.attempts| && TappedBy(s.attempts[a], j, s.posted[j]);
      var b :| 0 <= b < |s.attempts| && TappedBy(s.attempts[b], k, s.posted[k]);
    }
  }

  /** A tap does not take a key that was sent before to another endpoint. */
  predicate SameEndpoint(s: System, e: Event) {
    e.Tap? && !s.form.busy ==>
      forall i :: 0 <= i < |s.attempts| && s.attempts[i].key == s.form.key ==>
                    EndpointOf(s.attempts[i].payment) == EndpointOf(s.form.box)
  }

  predicate Steadfast(events: seq<Event>) {
    events != [] ==>
      Steadfast(events[..|events| - 1]) && SameEndpoint(Run(events[..|events| - 1]), events[|events| - 1])
  }

  lemma StepIsSteadfast(s: System, e: Event)
    requires s.keys != []
    ensures OneEndpoint(Next(s, e)) <==> OneEndpoint(s) && SameEndpoint(s, e)
  {
    var t := Next(s, e);
    assert s.attempts <= t.attempts;
    assert OneEndpoint(t) ==> OneEndpoint(s) by {
      assert forall i :: 0 <= i < |s.attempts| ==> t.attempts[i] == s.attempts[i];
    }
    if e.Tap? && !s.form.busy {
      var n := |s.attempts|;
      assert t.attempts[n] == Attempt(Current(s), s.form.key, s.form.box);
      assert forall i :: 0 <= i < n ==> t.attempts[i] == s.attempts[i];
    } else {
      assert t.attempts == s.attempts;
    }
  }

  lemma {:induction false} SteadfastIsOneEndpoint(events: seq<Event>)
    ensures OneEndpoint(Run(events)) <==> Steadfast(events)
  {
    if events != [] {
      SteadfastIsOneEndpoint(events[..|events| - 1]);
      StepIsSteadfast(Run(events[..|events| - 1]), events[|events| - 1]);
    }
  }

  /** After any run, however late its requests still arrive, each key posts once if and
      only if no tap took a key to another endpoint. */
  lemma RunPostsOnceExactly(events: seq<Event>)
    ensures (forall arrivals: seq<nat> :: OnePostingPerKey(ArriveAll(Run(events), arrivals))) <==> Steadfast(events)
  {
    RunKeepsInv(events);
    SteadfastIsOneEndpoint(events);
    PostsOnceExactly(Run(events));
  }

  lemma {:induction false} OneSlotEach(slots: set<Slot>)
    requires forall j, k :: j in slots && k in slots && j.key == k.key ==> j == k
    ensures |set k | k in slots :: k.key| == |slots|
    decreases |slots|
  {
    var keys := set k | k in slots :: k.key;
    if slots != {} {
      var k :| k in slots;
      OneSlotEach(slots - {k});
      assert keys == (set j | j in slots - {k} :: j.key) + {k.key};
    } else {
      assert keys == {};
    }
  }

  /** Every such run: entries posted are at least the confirmations shown and at most
      one more for each form mounted. */
  lemma PostedOncePerConfirmation(events: seq<Event>)
    requires Steadfast(events)
    ensures |Run(events).confirmed| <= |Run(events).posted| <= |Run(events).confirmed| + |Run(events).keys|
  {
    var s := Run(events);
    RunKeepsInv(events);
    SteadfastIsOneEndpoint(events);
    OneEndpointPostsOnce(s);
    OneSlotEach(s.posted.Keys);
    assert UsedKeys(s) == set k | k in s.posted.Keys :: k.key;
    KeysPerConfirmation(events);
  }

  predicate OneForm(events: seq<Event>) {
    forall i :: 0 <= i < |events| ==> !events[i].Remount?
  }

  lemma {:induction false} OneFormOneKey(events: seq<Event>)
    requires OneForm(events)
    ensures |Run(events).keys| == 1
  {
    if events != [] {
      OneFormOneKey(events[..|events| - 1]);
    }
  }

  /** Within one mounted form: at most one entry more than was confirmed. */
  lemma OneFormPostsOnceMore(events: seq<Event>)
    requires OneForm(events) && Steadfast(events)
    ensures |Run(events).posted| <= |Run(events).confirmed| + 1
  {
    OneFormOneKey(events);
    PostedOncePerConfirmation(events);
  }

  // --------------------------------------------------- the runs that break the bound

  lemma RunSnoc(events: seq<Event>, e: Event)
    ensures Run(events + [e]) == Next(Run(events), e)
    ensures Run([]) == Start()
  {
    hide Next;
    assert (events + [e])[..|events|] == events;
  }

  /** A payment is tapped; it reaches the server; its answer is lost. */
  function Lost(p: Payment, i: nat): seq<Event> {
    [Type(p), Tap, Arrive(i), Fail(i)]
  }

  lemma RunFour(events: seq<Event>, a: Event, b: Event, c: Event, d: Event)
    ensures Run(events + [a, b, c, d]) == Next(Next(Next(Next(Run(events), a), b), c), d)
  {
    hide *;
    RunSnoc(events, a);
    RunSnoc(events + [a], b);
    RunSnoc(events + [a, b], c);
    RunSnoc(events + [a, b, c], d);
    assert events + [a] + [b] == events + [a, b];
    assert events + [a, b] + [c] == events + [a, b, c];
    assert events + [a, b, c] + [d] == events + [a, b, c, d];
  }

  function AfterLost(p: Payment): System {
    System(Form(0, false, p), [0], 1, [Attempt(0, 0, p)], {}, map[Slot(EndpointOf(p), 0) := p], map[0 := p.amount], [])
  }

  /** Where one lost answer leaves the form: one entry nobody was told of, under the key
      the next tap will use. So the bound is met. */
  lemma LostAnswerMeetsBound(p: Payment)
    ensures Run(Lost(p, 0)) == AfterLost(p)
    ensures |AfterLost(p).posted| == |AfterLost(p).confirmed| + 1 && AfterLost(p).form.key == 0
  {
    RunFour([], Type(p), Tap, Arrive(0), Fail(0));
    assert [] + Lost(p, 0) == Lost(p, 0);
    RunSnoc([], Fail(0));
    hide Run;
    var s := Next(Next(Start(), Type(p)), Tap);
    assert s.attempts == [Attempt(0, 0, p)];
    assert Next(Next(s, Arrive(0)), Fail(0)).awaited == {};
  }

  /** For any two payments to different endpoints, as when the currency sent is changed
      from the one received to another: one form, one key, two entries and nobody told. */
  lemma TwoEndpointsPostTwice(p: Payment, q: Payment)
    requires EndpointOf(p) != EndpointOf(q)
    ensures var events := Lost(p, 0) + Lost(q, 1);
            && OneForm(events) && !Steadfast(events)
            && Run(events).posted == map[Slot(EndpointOf(p), 0) := p, Slot(EndpointOf(q), 0) := q]
            && Run(events).confirmed == [] && Run(events).keys == [0]
            && |Run(events).posted| == |Run(events).confirmed| + 2
  {
    var events := Lost(p, 0) + Lost(q, 1);
    assert OneForm(events);
    hide *;
    TwoLost(p, q);
    TwoTapped(p, q);
    SteadfastIsOneEndpoint(events);
  }

  function AfterBothLost(p: Payment, q: Payment): System {
    System(Form(0, false, q), [0], 1, [Attempt(0, 0, p), Attempt(0, 0, q)], {},
           map[Slot(EndpointOf(p), 0) := p, Slot(EndpointOf(q), 0) := q],
           map[0 := p.amount, 1 := q.amount], [])
  }

  lemma TwoLost(p: Payment, q: Payment)
    requires EndpointOf(p) != EndpointOf(q)
    ensures Run(Lost(p, 0) + Lost(q, 1)) == AfterBothLost(p, q)
  {
    LostAnswerMeetsBound(p);
    LostOnceMore(p, q);
    hide Run;
    hide Next;
    hide AfterLost;
    RunFour(Lost(p, 0), Type(q), Tap, Arrive(1), Fail(1));
  }

  lemma TwoTapped(p: Payment, q: Payment)
    requires EndpointOf(p) != EndpointOf(q)
    ensures !OneEndpoint(AfterBothLost(p, q))
    ensures AfterBothLost(p, q).posted == map[Slot(EndpointOf(p), 0) := p, Slot(EndpointOf(q), 0) := q]
    ensures AfterBothLost(p, q).confirmed == [] && AfterBothLost(p, q).keys == [0]
    ensures |AfterBothLost(p, q).posted| == 2
  {
    hide EndpointOf;
    var t := AfterBothLost(p, q);
    assert t.attempts[0].key == t.attempts[1].key;
    assert Slot(EndpointOf(p), 0) != Slot(EndpointOf(q), 0);
    assert t.posted == map[Slot(EndpointOf(p), 0) := p][Slot(EndpointOf(q), 0) := q];
  }

  lemma LostOnceMore(p: Payment, q: Payment)
    requires EndpointOf(p) != EndpointOf(q)
    ensures Next(Next(Next(Next(AfterLost(p), Type(q)), Tap), Arrive(1)), Fail(1))
         == AfterBothLost(p, q)
  {
    hide EndpointOf;
    var s := Next(Next(AfterLost(p), Type(q)), Tap);
    assert s.attempts == [Attempt(0, 0, p), Attempt(0, 0, q)];
    assert Next(Next(s, Arrive(1)), Fail(1)).awaited == {};
  }

  // ------------------------------------------------------- what a confirmation says

  /** A posting stands: nothing later changes it. */
  lemma PostingsStand(s: System, e: Event, slot: Slot)
    requires s.keys != [] && slot in s.posted
    ensures slot in Next(s, e).posted && Next(s, e).posted[slot] == s.posted[slot]
  {
  }

  predicate SamePayee(p: Payment, q: Payment) {
    p.from == q.from && p.recipient == q.recipient
  }

  /** The dialog names the sum that moved and who got it. */
  predicate SaysWhatMoved(s: System, c: Confirmation) {
    && c.slot in s.posted
    && c.amount == s.posted[c.slot].amount
    && c.currency == s.posted[c.slot].from && c.recipient == s.posted[c.slot].recipient
  }

  /** Every confirmation, in every run: its amount is its posting's, and the posting is
      what some tap under its key held, the first to arrive. A confirmed transfer is the
      very payment tapped. A remittance or a payout may have been edited between
      retries, and then the dialog says what moved if and only if the currency and the
      recipient are still the ones posted. */
  lemma ConfirmationIsATap(events: seq<Event>, c: nat)
    requires c < |Run(events).confirmed|
    ensures var s := Run(events);
            var told := s.confirmed[c];
            && told.attempt < |s.attempts| && told.slot == SlotOf(s.attempts[told.attempt])
            && told.slot in s.posted && told.amount == s.posted[told.slot].amount
            && (exists i :: 0 <= i < |s.attempts| && TappedBy(s.attempts[i], told.slot, s.posted[told.slot]))
            && (told.slot.endpoint == Transfers ==>
                  s.posted[told.slot] == s.attempts[told.attempt].payment && SaysWhatMoved(s, told))
            && (SaysWhatMoved(s, told) <==> SamePayee(s.attempts[told.attempt].payment, s.posted[told.slot]))
  {
    RunKeepsInv(events);
    var s := Run(events);
    var told := s.confirmed[c];
    assert told == Told(s.attempts[told.attempt], told.attempt, told.amount);
    assert Answers(s, told.attempt, told.amount);
    var i :| 0 <= i < |s.attempts| && TappedBy(s.attempts[i], told.slot, s.posted[told.slot]);
  }

  /** An edited transfer is refused under a used key: it changes nothing and is never
      answered, however often it arrives. */
  lemma EditedTransferIsRefused(s: System, i: nat)
    requires Inv(s) && i < |s.attempts|
    requires EndpointOf(s.attempts[i].payment) == Transfers && SlotOf(s.attempts[i]) in s.posted
    requires s.posted[SlotOf(s.attempts[i])] != s.attempts[i].payment
    ensures Next(s, Arrive(i)) == s && i !in s.answered
  {
    var slot := SlotOf(s.attempts[i]);
    var k :| 0 <= k < |s.attempts| && TappedBy(s.attempts[k], slot, s.posted[slot]);
    assert !Replays(s.posted[slot], s.attempts[i].payment);
    if i in s.answered {
      AnsweredReplays(s, i);
      assert false;
    }
  }

  lemma AnsweredReplays(s: System, i: nat)
    requires MoneyOk(s) && i in s.answered
    ensures i < |s.attempts| && SlotOf(s.attempts[i]) in s.posted
    ensures Replays(s.posted[SlotOf(s.attempts[i])], s.attempts[i].payment)
  {
    assert Answers(s, i, s.answered[i]);
  }

  /** Whatever answers this tap, in whatever order requests arrive, the dialog says what
      moved. */
  ghost predicate AlwaysSaysWhatMoved(s: System, i: nat)
    requires s.keys != [] && i < |s.attempts|
  {
    forall arrivals: seq<nat> ::
      var t := ArriveAll(s, arrivals);
      i in t.answered ==> SaysWhatMoved(t, Told(t.attempts[i], i, t.answered[i]))
  }

  /** For a remittance or a payout: if and only if its key has posted this currency and
      this recipient there, or has posted nothing there and no tap under it named
      others. */
  lemma RetrySaysWhatMovedExactly(s: System, i: nat)
    requires Inv(s) && i < |s.attempts| && EndpointOf(s.attempts[i].payment) != Transfers
    ensures var slot, p := SlotOf(s.attempts[i]), s.attempts[i].payment;
            AlwaysSaysWhatMoved(s, i)
            <==> if slot in s.posted then SamePayee(p, s.posted[slot])
                 else forall j :: 0 <= j < |s.attempts| && SlotOf(s.attempts[j]) == slot ==>
                                    SamePayee(p, s.attempts[j].payment)
  {
    var slot, p := SlotOf(s.attempts[i]), s.attempts[i].payment;
    if slot in s.posted {
      if SamePayee(p, s.posted[slot]) {
        SaysOfPosted(s, i);
      } else {
        ArriveTwo(s, i, i);
        var t := ArriveAll(s, [i]);
        assert i in t.answered && !SaysWhatMoved(t, Told(t.attempts[i], i, t.answered[i]));
      }
    } else if j :| 0 <= j < |s.attempts| && SlotOf(s.attempts[j]) == slot && !SamePayee(p, s.attempts[j].payment) {
      ArriveTwo(s, j, i);
      var t := ArriveAll(s, [j, i]);
      assert i in t.answered && !SaysWhatMoved(t, Told(t.attempts[i], i, t.answered[i]));
    } else {
      SaysOfTapped(s, i);
    }
  }

  lemma {:induction false} ArriveAllKeepsMoney(s: System, arrivals: seq<nat>)
    requires s.keys != [] && MoneyOk(s) && AwaitedOk(s)
    ensures MoneyOk(ArriveAll(s, arrivals)) && AwaitedOk(ArriveAll(s, arrivals))
  {
    if arrivals != [] {
      ArriveAllKeepsMoney(s, arrivals[..|arrivals| - 1]);
      MoneyKept(ArriveAll(s, arrivals[..|arrivals| - 1]), Arrive(arrivals[|arrivals| - 1]));
    }
  }

  lemma SaysOfPosted(s: System, i: nat)
    requires Inv(s) && i < |s.attempts| && SlotOf(s.attempts[i]) in s.posted
    requires SamePayee(s.attempts[i].payment, s.posted[SlotOf(s.attempts[i])])
    ensures AlwaysSaysWhatMoved(s, i)
  {
    forall arrivals: seq<nat>
      ensures var t := ArriveAll(s, arrivals);
              i in t.answered ==> SaysWhatMoved(t, Told(t.attempts[i], i, t.answered[i]))
    {
      ArriveAllKeeps(s, arrivals);
      ArriveAllKeepsMoney(s, arrivals);
      hide ArriveAll;
      assert i in ArriveAll(s, arrivals).answered ==> Answers(ArriveAll(s, arrivals), i, ArriveAll(s, arrivals).answered[i]);
    }
  }

  lemma SaysOfTapped(s: System, i: nat)
    requires Inv(s) && i < |s.attempts|
    requires forall j :: 0 <= j < |s.attempts| && SlotOf(s.attempts[j]) == SlotOf(s.attempts[i]) ==>
                           SamePayee(s.attempts[i].payment, s.attempts[j].payment)
    ensures AlwaysSaysWhatMoved(s, i)
  {
    forall arrivals: seq<nat>
      ensures var t := ArriveAll(s, arrivals);
              i in t.answered ==> SaysWhatMoved(t, Told(t.attempts[i], i, t.answered[i]))
    {
      ArriveAllKeeps(s, arrivals);
      ArriveAllKeepsMoney(s, arrivals);
      var t := ArriveAll(s, arrivals);
      var slot := SlotOf(s.attempts[i]);
      hide ArriveAll;
      if i in t.answered {
        assert Answers(t, i, t.answered[i]);
        var k :| 0 <= k < |t.attempts| && TappedBy(t.attempts[k], slot, t.posted[slot]);
      }
    }
  }

  // ------------------------------------------------------------ one tap, from its start

  function Tried(s: System, p: Payment): System
    requires s.keys != []
  {
    Next(Next(s, Type(p)), Tap)
  }

  /** A tap sends what the box holds, under the form's key, once: while it waits, another
      tap does nothing. */
  lemma TapSendsTheBox(s: System, p: Payment)
    requires Inv(s) && !s.form.busy
    ensures var t, n := Tried(s, p), |s.attempts|;
            && t == s.(form := Form(s.form.key, true, p), awaited := s.awaited + {n},
                       attempts := s.attempts + [Attempt(|s.keys| - 1, s.form.key, p)])
            && n !in s.awaited && Next(t, Tap) == t
  {
    hide KeysOf;
  }

  /** It was answered: under an unused key the payment is posted, as it was tapped, and
      confirmed; the form is empty, idle and holds a key never used before. */
  lemma TapPostsAndConfirms(s: System, p: Payment)
    requires Inv(s) && !s.form.busy && Slot(EndpointOf(p), s.form.key) !in s.posted
    ensures var n, slot := |s.attempts|, Slot(EndpointOf(p), s.form.key);
            var t := Next(Next(Tried(s, p), Arrive(n)), Deliver(n));
            && t.posted == s.posted[slot := p]
            && t.confirmed == s.confirmed + [Confirmation(slot, n, p.amount, p.from, p.recipient)]
            && t.form == Form(s.nextKey, false, BLANK) && t.form.key != s.form.key
            && forall i :: 0 <= i < |t.attempts| ==> t.attempts[i].key != t.form.key
  {
    TapSendsTheBox(s, p);
    NewKeyIsFresh(s);
    hide Inv;
    hide EndpointOf;
    hide Tried;
    var t := Tried(s, p);
    var a := Next(t, Arrive(|s.attempts|));
    assert a.answered[|s.attempts|] == p.amount && a.posted == s.posted[Slot(EndpointOf(p), s.form.key) := p];
  }

  lemma NewKeyIsFresh(s: System)
    requires Inv(s)
    ensures s.form.key < s.nextKey && forall i :: 0 <= i < |s.attempts| ==> s.attempts[i].key < s.nextKey
  {
    hide KeysOf;
  }

  /** It was answered under a used key: nothing is posted again, and what was posted is
      confirmed. */
  lemma TapReplaysAndConfirms(s: System, p: Payment)
    requires Inv(s) && !s.form.busy && Slot(EndpointOf(p), s.form.key) in s.posted
    requires EndpointOf(p) == Transfers ==> s.posted[Slot(Transfers, s.form.key)] == p
    ensures var n, slot := |s.attempts|, Slot(EndpointOf(p), s.form.key);
            var t := Next(Next(Tried(s, p), Arrive(n)), Deliver(n));
            && t.posted == s.posted
            && t.confirmed == s.confirmed + [Confirmation(slot, n, s.posted[slot].amount, p.from, p.recipient)]
            && t.form == Form(s.nextKey, false, BLANK)
  {
    TapSendsTheBox(s, p);
    hide Inv;
    hide EndpointOf;
    hide Tried;
    var t := Tried(s, p);
    var a := Next(t, Arrive(|s.attempts|));
    assert a.answered[|s.attempts|] == s.posted[Slot(EndpointOf(p), s.form.key)].amount && a.posted == s.posted;
  }

  /** It failed, for whatever reason and whatever reached the server: the form is idle
      again and holds the same key and the same box, and nothing was confirmed. */
  lemma FailedTapCanBeRetried(s: System, p: Payment, arrivals: seq<nat>)
    requires Inv(s) && !s.form.busy
    ensures var t := Next(ArriveAll(Tried(s, p), arrivals), Fail(|s.attempts|));
            && t.form == Form(s.form.key, false, p)
            && t.confirmed == s.confirmed && t.keys == s.keys && t.awaited == s.awaited
  {
    TapSendsTheBox(s, p);
    hide Inv;
    hide Tried;
    ArrivalsOnlyPost(Tried(s, p), arrivals);
    hide ArriveAll;
    var t := ArriveAll(Tried(s, p), arrivals);
    assert t.awaited - {|s.attempts|} == s.awaited;
  }

  lemma {:induction false} ArrivalsOnlyPost(s: System, arrivals: seq<nat>)
    requires s.keys != []
    ensures var t := ArriveAll(s, arrivals); t == s.(posted := t.posted, answered := t.answered)
  {
    if arrivals != [] {
      var before := arrivals[..|arrivals| - 1];
      ArrivalsOnlyPost(s, before);
      ArriveOnlyPosts(ArriveAll(s, before), arrivals[|arrivals| - 1]);
      hide Next;
    }
  }

  /** A form mounted again is idle and empty, under a key never used before; the one
      left behind keeps waiting for its answer. */
  lemma RemountIsFresh(s: System)
    requires Inv(s)
    ensures var t := Next(s, Remount);
            && t.form == Form(s.nextKey, false, BLANK) && t.keys == s.keys + [s.nextKey]
            && t.awaited == s.awaited && t.posted == s.posted && t.confirmed == s.confirmed
            && forall i :: 0 <= i < |t.attempts| ==> t.attempts[i].key != t.form.key
  {
    NewKeyIsFresh(s);
    hide Inv;
  }
}
