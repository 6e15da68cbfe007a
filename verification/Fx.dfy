/** The Convert screen (`apps/mobile/app/fx.tsx`): quotes fetched while the pair and
    the amount keep changing, drawn and agreed to only for what they were asked about. */
module Fx {
  import opened Text

  datatype Triple = Triple(from: string, to: string, amount: string)

  /** A server's answer: what it was asked, and the figure it quoted. */
  datatype Quote = Quote(asked: Triple, receives: string)

  /** `${from}>${to}:${amount}` */
  function Key(t: Triple): string {
    t.from + ">" + t.to + ":" + t.amount
  }

  /** No currency code holds a separator. */
  predicate CodesOk(t: Triple) {
    '>' !in t.from && ':' !in t.to
  }

  lemma KeyParts(t: Triple)
    requires CodesOk(t)
    ensures Before(Key(t), '>') == t.from
    ensures Before(After(Key(t), '>'), ':') == t.to
    ensures After(After(Key(t), '>'), ':') == t.amount
  {
    var rest := t.to + ":" + t.amount;
    assert Key(t) == t.from + ">" + rest;
    CutAt(t.from, '>', rest);
    CutAt(t.to, ':', t.amount);
  }

  /** The key names the triple, whatever the amount holds. */
  lemma KeyInjective(t: Triple, u: Triple)
    requires CodesOk(t) && CodesOk(u) && Key(t) == Key(u)
    ensures t == u
  {
    KeyParts(t);
    KeyParts(u);
  }

  // ------------------------------------------------------------------ the screen

  /** A quote in flight: the key and triple it was asked with. One asked by the effect
      is dropped when its effect is no longer live; one asked by the button is not. */
  datatype Asking = Asking(key: string, triple: Triple, byEffect: bool, live: bool)

  datatype Fetched = Fetched(key: string, quote: Quote)

  /** What the convert request carries. */
  datatype Convert = Convert(triple: Triple, minReceived: string)

  datatype Screen = Screen(
    now: Triple,
    fetched: Option<Fetched>,
    quoteError: bool,
    timer: Option<Triple>,
    inFlight: map<nat, Asking>,
    nextId: nat,
    busy: bool)

  /** The quote on screen: only while the pair and the amount are the ones it was
      asked about. */
  function Drawn(s: Screen): Option<Quote> {
    if s.fetched.Some? && s.fetched.value.key == Key(s.now) then Some(s.fetched.value.quote) else None
  }

  /** Nothing is asked for one currency twice or an amount that does not parse. */
  predicate Quotable(t: Triple, valid: Triple -> bool) {
    t.from != t.to && t.amount != "" && valid(t)
  }

  function Retired(inFlight: map<nat, Asking>): map<nat, Asking> {
    map id | id in inFlight :: if inFlight[id].byEffect then inFlight[id].(live := false) else inFlight[id]
  }

  /** The effect of a changed triple: retire what it asked before, restart the timer. */
  function Changed(s: Screen, t: Triple, valid: Triple -> bool): Screen {
    if t == s.now then s
    else s.(now := t, quoteError := false, inFlight := Retired(s.inFlight),
            timer := if Quotable(t, valid) then Some(t) else None)
  }

  /** An edit of the pair or the amount by hand also drops the quote; the correction
      of a hidden currency does not. */
  function Edited(s: Screen, t: Triple, byHand: bool, valid: Triple -> bool): Screen {
    Changed(if byHand then s.(fetched := None) else s, t, valid)
  }

  function TimerFired(s: Screen): Screen {
    if s.timer.None? then s
    else s.(timer := None, nextId := s.nextId + 1,
            inFlight := s.inFlight[s.nextId := Asking(Key(s.timer.value), s.timer.value, true, true)])
  }

  function Quoted(s: Screen, id: nat, receives: string): Screen {
    if id !in s.inFlight then s
    else
      var a := s.inFlight[id];
      var rest := s.(inFlight := s.inFlight - {id}, busy := s.busy && a.byEffect);
      if a.byEffect && !a.live then rest
      else rest.(fetched := Some(Fetched(a.key, Quote(a.triple, receives))))
  }

  function QuoteFailed(s: Screen, id: nat): Screen {
    if id !in s.inFlight then s
    else
      var a := s.inFlight[id];
      var rest := s.(inFlight := s.inFlight - {id}, busy := s.busy && a.byEffect);
      if a.byEffect && a.live then rest.(quoteError := true) else rest
  }

  predicate CanTap(s: Screen) {
    !s.busy && s.now.amount != "" && s.now.from != s.now.to
  }

  /** One button: without a quote it asks for one, with one it converts. */
  function Tapped(s: Screen): (Screen, Option<Convert>) {
    if !CanTap(s) then (s, None)
    else
      match Drawn(s)
      case None =>
        (s.(busy := true, nextId := s.nextId + 1,
            inFlight := s.inFlight[s.nextId := Asking(Key(s.now), s.now, false, true)]), None)
      case Some(q) =>
        (s.(busy := true), Some(Convert(s.now, q.receives)))
  }

  function Converted(s: Screen, valid: Triple -> bool): Screen {
    Edited(s.(busy := false), s.now.(amount := ""), true, valid)
  }

  function ConvertFailed(s: Screen): Screen {
    s.(busy := false)
  }

  // ----------------------------------------------------------- every interleaving

  datatype Event =
    | Edit(t: Triple, byHand: bool)
    | Timer
    | QuoteAnswer(id: nat, receives: string)
    | QuoteFailure(id: nat)
    | Tap
    | ConvertAnswer
    | ConvertFailure

  /** The screen, every quote the server gave, and every conversion sent. */
  datatype System = System(screen: Screen, answers: seq<Quote>, sent: seq<Convert>)

  function Start(t: Triple): System {
    System(Screen(t, None, false, None, map[], 0, false), [], [])
  }

  function Next(s: System, e: Event, valid: Triple -> bool): System {
    match e
    case Edit(t, byHand) => s.(screen := Edited(s.screen, t, byHand, valid))
    case Timer => s.(screen := TimerFired(s.screen))
    case QuoteAnswer(id, receives) =>
      if id !in s.screen.inFlight then s
      else s.(screen := Quoted(s.screen, id, receives),
              answers := s.answers + [Quote(s.screen.inFlight[id].triple, receives)])
    case QuoteFailure(id) => s.(screen := QuoteFailed(s.screen, id))
    case Tap =>
      var (screen, request) := Tapped(s.screen);
      System(screen, s.answers, if request.Some? then s.sent + [request.value] else s.sent)
    case ConvertAnswer => s.(screen := Converted(s.screen, valid))
    case ConvertFailure => s.(screen := ConvertFailed(s.screen))
  }

  /** Edits only ever choose codes from the pickers' list. */
  predicate CodesFromList(events: seq<Event>) {
    forall i :: 0 <= i < |events| && events[i].Edit? ==> CodesOk(events[i].t)
  }

  function Run(s: System, events: seq<Event>, valid: Triple -> bool): System {
    if events == [] then s
    else Next(Run(s, events[..|events| - 1], valid), events[|events| - 1], valid)
  }

  // ------------------------------------------------------------------ what is kept

  ghost predicate Agreed(c: Convert, answers: seq<Quote>) {
    Quote(c.triple, c.minReceived) in answers
  }

  ghost predicate Inv(s: System) {
    && CodesOk(s.screen.now)
    && (s.screen.timer.Some? ==> CodesOk(s.screen.timer.value))
    && (forall id :: id in s.screen.inFlight ==>
          && CodesOk(s.screen.inFlight[id].triple)
          && s.screen.inFlight[id].key == Key(s.screen.inFlight[id].triple))
    && (s.screen.fetched.Some? ==>
          && CodesOk(s.screen.fetched.value.quote.asked)
          && s.screen.fetched.value.key == Key(s.screen.fetched.value.quote.asked)
          && s.screen.fetched.value.quote in s.answers)
    && (forall i :: 0 <= i < |s.sent| ==> Agreed(s.sent[i], s.answers))
  }

  /** Whatever arrived late or out of order, a quote on screen is the server's answer
      to exactly the pair and the amount on screen. */
  lemma DrawnIsForNow(s: System)
    requires Inv(s) && Drawn(s.screen).Some?
    ensures Drawn(s.screen).value.asked == s.screen.now
    ensures Drawn(s.screen).value in s.answers
  {
    KeyInjective(s.screen.fetched.value.quote.asked, s.screen.now);
  }

  lemma EditKeepsInv(s: System, t: Triple, byHand: bool, valid: Triple -> bool)
    requires Inv(s) && CodesOk(t)
    ensures Inv(s.(screen := Edited(s.screen, t, byHand, valid)))
  {
    hide Key;
  }

  lemma AnswerKeepsInv(s: System, id: nat, receives: string, valid: Triple -> bool)
    requires Inv(s)
    ensures Inv(Next(s, QuoteAnswer(id, receives), valid))
  {
    hide Key;
    hide CodesOk;
  }

  lemma TapKeepsInv(s: System, valid: Triple -> bool)
    requires Inv(s)
    ensures Inv(Next(s, Tap, valid))
  {
    hide Key;
    hide CodesOk;
    if Drawn(s.screen).Some? {
      DrawnIsForNow(s);
    }
  }

  lemma NextKeepsInv(s: System, e: Event, valid: Triple -> bool)
    requires Inv(s) && (e.Edit? ==> CodesOk(e.t))
    ensures Inv(Next(s, e, valid))
  {
    hide Key;
    hide Changed;
    match e
    case Edit(t, byHand) => EditKeepsInv(s, t, byHand, valid);
    case QuoteAnswer(id, receives) => AnswerKeepsInv(s, id, receives, valid);
    case Tap => TapKeepsInv(s, valid);
    case ConvertAnswer =>
      EditKeepsInv(s.(screen := s.screen.(busy := false)), s.screen.now.(amount := ""), true, valid);
    case _ =>
  }

  /** Every run: each conversion sent carries, as the least it may receive, a figure
      the server quoted for the very pair and amount it sends. */
  lemma {:induction false} ConvertsAsQuoted(t: Triple, events: seq<Event>, valid: Triple -> bool)
    requires CodesOk(t) && CodesFromList(events)
    ensures var s := Run(Start(t), events, valid);
            && Inv(s)
            && (forall i :: 0 <= i < |s.sent| ==> Quote(s.sent[i].triple, s.sent[i].minReceived) in s.answers)
            && (Drawn(s.screen).Some? ==> Drawn(s.screen).value.asked == s.screen.now)
  {
    if events != [] {
      ConvertsAsQuoted(t, events[..|events| - 1], valid);
      NextKeepsInv(Run(Start(t), events[..|events| - 1], valid), events[|events| - 1], valid);
    }
    var s := Run(Start(t), events, valid);
    assert forall i :: 0 <= i < |s.sent| ==> Agreed(s.sent[i], s.answers);
    if Drawn(s.screen).Some? {
      DrawnIsForNow(s);
    }
  }

  // ------------------------------------------------------- what the button is for

  /** What the events alone say is on screen: the last edit, its amount emptied by each
      conversion that came back since. */
  function NowAt(t: Triple, events: seq<Event>): Triple {
    if events == [] then t
    else
      match events[|events| - 1]
      case Edit(u, _) => u
      case ConvertAnswer => NowAt(t, events[..|events| - 1]).(amount := "")
      case _ => NowAt(t, events[..|events| - 1])
  }

  lemma {:induction false} ShowsWhatWasTyped(t: Triple, events: seq<Event>, valid: Triple -> bool)
    ensures Run(Start(t), events, valid).screen.now == NowAt(t, events)
  {
    if events != [] {
      ShowsWhatWasTyped(t, events[..|events| - 1], valid);
    }
  }

  /** A request whose answer will be heard: the button's, or one the effect asked for
      the pair and the amount that are still on screen. */
  predicate Heeded(s: Screen, id: nat, t: Triple) {
    id in s.inFlight && s.inFlight[id].triple == t && (s.inFlight[id].byEffect ==> s.inFlight[id].live)
  }

  /** An answer about what is on screen is drawn, as it was given. */
  lemma AnswerIsDrawn(s: System, id: nat, receives: string, valid: Triple -> bool)
    requires Inv(s) && Heeded(s.screen, id, s.screen.now)
    ensures var t := Next(s, QuoteAnswer(id, receives), valid);
            && t.screen.now == s.screen.now && Drawn(t.screen) == Some(Quote(s.screen.now, receives))
            && t.answers == s.answers + [Quote(s.screen.now, receives)]
            && (t.screen.busy <==> s.screen.busy && s.screen.inFlight[id].byEffect)
            && t.screen.inFlight == s.screen.inFlight - {id} && t.sent == s.sent
  {
    hide Key;
  }

  /** An answer the effect no longer waits for changes nothing that is drawn. */
  lemma StaleAnswerIsDropped(s: System, id: nat, receives: string, valid: Triple -> bool)
    requires id in s.screen.inFlight && s.screen.inFlight[id].byEffect && !s.screen.inFlight[id].live
    ensures Next(s, QuoteAnswer(id, receives), valid).screen == s.screen.(inFlight := s.screen.inFlight - {id})
  {
  }

  /** What the effect asks for is always what is on screen, and it asks once the typing
      stops: the timer stands for the pair and the amount on screen or not at all. */
  ghost predicate Current(s: System, valid: Triple -> bool) {
    && (s.screen.timer.Some? ==>
          && s.screen.timer.value == s.screen.now
          && s.screen.now.from != s.screen.now.to && s.screen.now.amount != "" && valid(s.screen.now))
    && (forall id :: id in s.screen.inFlight && s.screen.inFlight[id].byEffect && s.screen.inFlight[id].live ==>
          s.screen.inFlight[id].triple == s.screen.now)
    && (forall id :: id in s.screen.inFlight ==> id < s.screen.nextId)
  }

  lemma {:induction false} AsksAboutNow(t: Triple, events: seq<Event>, valid: Triple -> bool)
    ensures Current(Run(Start(t), events, valid), valid)
  {
    if events != [] {
      AsksAboutNow(t, events[..|events| - 1], valid);
      NextKeepsCurrent(Run(Start(t), events[..|events| - 1], valid), events[|events| - 1], valid);
    }
  }

  lemma NextKeepsCurrent(s: System, e: Event, valid: Triple -> bool)
    requires Current(s, valid)
    ensures Current(Next(s, e, valid), valid)
  {
    hide Key;
    hide Drawn;
    match e
    case Edit(t, byHand) =>
      ChangeKeepsCurrent(if byHand then s.(screen := s.screen.(fetched := None)) else s, t, valid);
      hide Changed;
      hide Current;
    case ConvertAnswer =>
      var t := s.screen.now.(amount := "");
      ChangeKeepsCurrent(s.(screen := s.screen.(busy := false, fetched := None)), t, valid);
      hide Changed;
      hide Current;
    case _ => hide Changed;
  }

  lemma ChangeKeepsCurrent(s: System, t: Triple, valid: Triple -> bool)
    requires Current(s, valid)
    ensures Current(s.(screen := Changed(s.screen, t, valid)), valid)
  {
    hide Key;
  }

  /** A request that will be heard stays so until it is answered or fails, or until the
      pair or the amount changes. */
  lemma HeededUntilChanged(s: System, e: Event, id: nat, valid: Triple -> bool)
    requires Current(s, valid) && Heeded(s.screen, id, s.screen.now)
    requires e != QuoteFailure(id) && !(e.QuoteAnswer? && e.id == id)
    ensures var t := Next(s, e, valid);
            t.screen.now == s.screen.now ==> Heeded(t.screen, id, s.screen.now)
  {
    hide Key;
  }

  /** Typing something that can be quoted starts the timer, and the timer asks about it
      once; typing anything else asks about nothing. */
  lemma TypingAsks(s: System, t: Triple, byHand: bool, valid: Triple -> bool)
    requires Current(s, valid) && t != s.screen.now
    ensures var u := Next(s, Edit(t, byHand), valid);
            var asked := Next(u, Timer, valid);
            && u.screen.now == t && asked.screen.now == t && !u.screen.quoteError
            && (!byHand ==> u.screen.fetched == s.screen.fetched)
            && (byHand ==> Drawn(u.screen).None? && Drawn(asked.screen).None?)
            && (forall id :: id in u.screen.inFlight && u.screen.inFlight[id].byEffect ==> !u.screen.inFlight[id].live)
            && if t.from != t.to && t.amount != "" && valid(t)
               then Heeded(asked.screen, s.screen.nextId, t)
                    && asked.screen.inFlight.Keys == s.screen.inFlight.Keys + {s.screen.nextId}
               else asked == u && u.screen.inFlight.Keys == s.screen.inFlight.Keys
  {
    hide Key;
  }

  /** What the button does, whatever has happened: with a quote drawn it sends exactly
      one conversion, of what is on screen and for what was quoted; without one it asks
      for exactly one quote of what is on screen, which will be heard; while it is busy,
      with no amount or with one currency twice, nothing. */
  lemma TapExactly(s: System, valid: Triple -> bool)
    requires Inv(s) && Current(s, valid)
    ensures var t, now := Next(s, Tap, valid), s.screen.now;
            if s.screen.busy || now.amount == "" || now.from == now.to then t == s
            else
              && t.screen.busy && t.screen.now == now && t.answers == s.answers
              && match Drawn(s.screen)
                 case Some(q) =>
                   q.asked == now && t.sent == s.sent + [Convert(now, q.receives)]
                   && t.screen.inFlight == s.screen.inFlight
                 case None =>
                   t.sent == s.sent
                   && t.screen.inFlight.Keys == s.screen.inFlight.Keys + {s.screen.nextId}
                   && s.screen.nextId !in s.screen.inFlight && Heeded(t.screen, s.screen.nextId, now)
  {
    if Drawn(s.screen).Some? {
      DrawnIsForNow(s);
    }
    hide Key;
    hide Drawn;
  }

  /** From typing to conversion: what is typed is asked about, its answer is drawn, and
      one tap converts it for exactly that answer. */
  lemma TypedQuotedConverted(s: System, t: Triple, byHand: bool, receives: string, valid: Triple -> bool)
    requires Inv(s) && Current(s, valid) && CodesOk(t) && t != s.screen.now && !s.screen.busy
    requires t.from != t.to && t.amount != "" && valid(t)
    ensures var quoted := Next(Next(Next(s, Edit(t, byHand), valid), Timer, valid),
                               QuoteAnswer(s.screen.nextId, receives), valid);
            && Drawn(quoted.screen) == Some(Quote(t, receives))
            && Next(quoted, Tap, valid).sent == s.sent + [Convert(t, receives)]
  {
    var u := Next(s, Edit(t, byHand), valid);
    var asked := Next(u, Timer, valid);
    var quoted := Next(asked, QuoteAnswer(s.screen.nextId, receives), valid);
    NextKeepsInv(s, Edit(t, byHand), valid);
    NextKeepsInv(u, Timer, valid);
    NextKeepsInv(asked, QuoteAnswer(s.screen.nextId, receives), valid);
    NextKeepsCurrent(s, Edit(t, byHand), valid);
    NextKeepsCurrent(u, Timer, valid);
    NextKeepsCurrent(asked, QuoteAnswer(s.screen.nextId, receives), valid);
    TypingAsks(s, t, byHand, valid);
    AnswerIsDrawn(asked, s.screen.nextId, receives, valid);
    StaysIdle(s, t, byHand, receives, valid);
    hide Next;
    hide Inv;
    hide Current;
    TapExactly(quoted, valid);
  }

  lemma StaysIdle(s: System, t: Triple, byHand: bool, receives: string, valid: Triple -> bool)
    requires !s.screen.busy
    ensures var quoted := Next(Next(Next(s, Edit(t, byHand), valid), Timer, valid),
                               QuoteAnswer(s.screen.nextId, receives), valid);
            !quoted.screen.busy && quoted.sent == s.sent
  {
    hide Key;
  }

  /** A failure is reported when the effect still waits for that quote; one of the
      button's frees it. Neither touches what is drawn. */
  lemma FailureIsReported(s: System, id: nat, valid: Triple -> bool)
    requires id in s.screen.inFlight
    ensures var t, a := Next(s, QuoteFailure(id), valid), s.screen.inFlight[id];
            && (t.screen.quoteError <==> s.screen.quoteError || (a.byEffect && a.live))
            && (t.screen.busy <==> s.screen.busy && a.byEffect)
            && t.screen.now == s.screen.now && Drawn(t.screen) == Drawn(s.screen)
            && t.screen.inFlight == s.screen.inFlight - {id} && t.sent == s.sent && t.answers == s.answers
  {
    hide Key;
  }

  /** A conversion that came back leaves nothing to convert again: no amount, no quote,
      and a tap that does nothing; one that failed leaves the quote drawn to retry. */
  lemma ConvertedOnce(s: System, valid: Triple -> bool)
    ensures var t := Next(s, ConvertAnswer, valid);
            && Drawn(t.screen).None? && t.screen.now == s.screen.now.(amount := "")
            && !t.screen.busy && Next(t, Tap, valid) == t
    ensures var t := Next(s, ConvertFailure, valid);
            t.screen == s.screen.(busy := false) && Drawn(t.screen) == Drawn(s.screen)
  {
    hide Key;
  }

  // ----------------------------------------------------------- the component's state

  class FxScreen {
    var now: Triple
    var fetched: Option<Fetched>
    var quoteError: bool
    var timer: Option<Triple>
    var inFlight: map<nat, Asking>
    var nextId: nat
    var busy: bool
    const valid: Triple -> bool

    function View(): Screen
      reads this
    {
      Screen(now, fetched, quoteError, timer, inFlight, nextId, busy)
    }

    constructor (t: Triple, valid: Triple -> bool)
      ensures View() == Start(t).screen && this.valid == valid
    {
      now, fetched, quoteError, timer, inFlight, nextId, busy := t, None, false, None, map[], 0, false;
      this.valid := valid;
    }

    method Edit(t: Triple, byHand: bool)
      modifies this
      ensures View() == Edited(old(View()), t, byHand, valid)
    {
      if byHand {
        fetched := None;
      }
      if t != now {
        now := t;
        quoteError := false;
        inFlight := Retired(inFlight);
        timer := None;
        if Quotable(t, valid) {
          timer := Some(t);
        }
      }
    }

    method Timer()
      modifies this
      ensures View() == TimerFired(old(View()))
    {
      if timer.Some? {
        inFlight := inFlight[nextId := Asking(Key(timer.value), timer.value, true, true)];
        nextId := nextId + 1;
        timer := None;
      }
    }

    method Answer(id: nat, receives: string)
      modifies this
      ensures View() == Quoted(old(View()), id, receives)
    {
      if id in inFlight {
        var a := inFlight[id];
        if !a.byEffect || a.live {
          fetched := Some(Fetched(a.key, Quote(a.triple, receives)));
        }
        if !a.byEffect {
          busy := false;
        }
        inFlight := inFlight - {id};
      }
    }

    method Fail(id: nat)
      modifies this
      ensures View() == QuoteFailed(old(View()), id)
    {
      if id in inFlight {
        var a := inFlight[id];
        if a.byEffect && a.live {
          quoteError := true;
        }
        if !a.byEffect {
          busy := false;
        }
        inFlight := inFlight - {id};
      }
    }

    method Press() returns (request: Option<Convert>)
      modifies this
      ensures (View(), request) == Tapped(old(View()))
    {
      request := None;
      if !busy && now.amount != "" && now.from != now.to {
        busy := true;
        if fetched.Some? && fetched.value.key == Key(now) {
          request := Some(Convert(now, fetched.value.quote.receives));
        } else {
          inFlight := inFlight[nextId := Asking(Key(now), now, false, true)];
          nextId := nextId + 1;
        }
      }
    }

    method Finish(ok: bool)
      modifies this
      ensures View() == if ok then Converted(old(View()), valid) else ConvertFailed(old(View()))
    {
      busy := false;
      if ok {
        Edit(now.(amount := ""), true);
      }
    }
  }
}
