/** `useLoad` (`apps/mobile/src/hooks.ts`): one loop of attempts per generation, a
    `cancelled` flag per generation, and the fields a screen reads.

    Changing the inputs or asking for a reload starts a generation and cancels the
    one before. A cancelled loop keeps running -- its retries even ask with the
    NEWEST inputs, because they read `latest.current` -- so every interleaving of
    old and new answers is possible. */
module Loads {
  import opened Text

  datatype Failure = Network | Refused(code: string)

  /** Where one generation's loop stands. */
  datatype Attempt<D> = Asking(asked: D, retries: nat) | Sleeping(retries: nat)

  /** A stored answer: the generation that stored it, the inputs it was asked with. */
  datatype Answer<D, T> = Answer(gen: nat, asked: D, value: T)

  datatype Hook<D, T> = Hook(
    deps: D,
    gen: nat,
    data: Option<Answer<D, T>>,
    error: Option<Failure>,
    loading: bool,
    cancelled: set<nat>,
    attempts: map<nat, Attempt<D>>)

  datatype Event<D, T> =
    | Rerender(deps: D)
    | Reload
    | Resolve(gen: nat, value: T)
    | Reject(gen: nat, failure: Failure)
    | Wake(gen: nat)

  /** `retryOnNetwork` has two delays. */
  const DELAYS := 2

  function Mount<D, T>(deps: D): Hook<D, T> {
    Hook(deps, 0, None, None, true, {}, map[0 := Asking(deps, 0)])
  }

  /** The effect: cancel the generation before, clear the fields, ask. */
  function StartGeneration<D, T>(h: Hook<D, T>, deps: D): Hook<D, T> {
    Hook(deps, h.gen + 1, h.data, None, true, h.cancelled + {h.gen},
         h.attempts[h.gen + 1 := Asking(deps, 0)])
  }

  function Step<D(==), T>(h: Hook<D, T>, e: Event<D, T>): Hook<D, T> {
    match e
    case Rerender(deps) =>
      if deps == h.deps then h else StartGeneration(h, deps)
    case Reload =>
      StartGeneration(h, h.deps)
    case Resolve(g, v) =>
      if !IsAsking(h, g) then h
      else
        var done := h.(attempts := h.attempts - {g});
        if g in h.cancelled then done
        else done.(data := Some(Answer(g, h.attempts[g].asked, v)), loading := false)
    case Reject(g, failure) =>
      if !IsAsking(h, g) then h
      else if failure == Network && h.attempts[g].retries < DELAYS then
        h.(attempts := h.attempts[g := Sleeping(h.attempts[g].retries + 1)])
      else
        var done := h.(attempts := h.attempts - {g});
        if g in h.cancelled then done
        else done.(error := Some(failure), loading := false)
    case Wake(g) =>
      if g in h.attempts && h.attempts[g].Sleeping? then
        h.(attempts := h.attempts[g := Asking(h.deps, h.attempts[g].retries)])
      else h
  }

  predicate IsAsking<D, T>(h: Hook<D, T>, g: nat) {
    g in h.attempts && h.attempts[g].Asking?
  }

  function Run<D(==), T>(h: Hook<D, T>, events: seq<Event<D, T>>): Hook<D, T> {
    if events == [] then h
    else Step(Run(h, events[..|events| - 1]), events[|events| - 1])
  }

  // --------------------------------------------------------------- what is kept

  predicate Settled<D, T>(h: Hook<D, T>) {
    !h.loading && h.error.None?
  }

  ghost predicate Inv<D, T>(h: Hook<D, T>) {
    && (forall g :: g in h.attempts ==> g <= h.gen)
    && (forall g: nat :: g in h.cancelled <==> g < h.gen)
    && (h.loading <==> h.gen in h.attempts)
    && (h.error.Some? ==> !h.loading)
    && (IsAsking(h, h.gen) ==> h.attempts[h.gen].asked == h.deps)
    && (h.data.Some? ==> h.data.value.gen <= h.gen)
    && (Settled(h) ==> h.data.Some? && h.data.value.gen == h.gen && h.data.value.asked == h.deps)
  }

  lemma StepKeepsInv<D, T>(h: Hook<D, T>, e: Event<D, T>)
    requires Inv(h)
    ensures Inv(Step(h, e))
  {
  }

  /** Over every interleaving: a screen that is not loading and shows no error shows
      the current generation's own answer, asked with the current inputs. */
  lemma {:induction false} LoadsSettleOnCurrent<D, T>(deps: D, events: seq<Event<D, T>>)
    ensures Inv(Run(Mount<D, T>(deps), events))
  {
    if events != [] {
      LoadsSettleOnCurrent<D, T>(deps, events[..|events| - 1]);
      StepKeepsInv(Run(Mount<D, T>(deps), events[..|events| - 1]), events[|events| - 1]);
    }
  }

  /** An answer stands until a newer generation's answer replaces it. */
  predicate NotOlder<D, T>(was: Option<Answer<D, T>>, now: Option<Answer<D, T>>) {
    was.Some? ==> now.Some? && was.value.gen <= now.value.gen
  }

  lemma {:induction false} DataNeverGoesBack<D, T>(h: Hook<D, T>, events: seq<Event<D, T>>)
    requires Inv(h)
    ensures Inv(Run(h, events)) && NotOlder(h.data, Run(h, events).data)
  {
    if events != [] {
      var before := Run(h, events[..|events| - 1]);
      DataNeverGoesBack(h, events[..|events| - 1]);
      StepKeepsInv(before, events[|events| - 1]);
    }
  }

  predicate SameFields<D(==), T(==)>(h: Hook<D, T>, k: Hook<D, T>) {
    h.data == k.data && h.error == k.error && h.loading == k.loading && h.deps == k.deps && h.gen == k.gen
  }

  /** Whatever a superseded generation does -- answer, fail, wake and ask again with
      newer inputs -- no field a screen reads moves. */
  lemma CancelledChangesNothing<D, T>(h: Hook<D, T>, e: Event<D, T>)
    requires Inv(h)
    requires e.Resolve? || e.Reject? || e.Wake?
    requires e.gen != h.gen
    ensures SameFields(h, Step(h, e))
  {
  }

  /** The loop of one generation ends: it asks again at most twice. */
  ghost predicate Bounded<D, T>(h: Hook<D, T>) {
    forall g :: g in h.attempts ==> h.attempts[g].retries <= 2
  }

  lemma {:induction false} RetriesAreBounded<D, T>(deps: D, events: seq<Event<D, T>>)
    ensures Bounded(Run(Mount<D, T>(deps), events))
  {
    if events != [] {
      RetriesAreBounded<D, T>(deps, events[..|events| - 1]);
    }
  }

  // --------------------------------------------------- what the events alone say

  /** The inputs of the last render. */
  function DepsAt<D, T>(deps: D, events: seq<Event<D, T>>): D {
    if events == [] then deps
    else
      var last := events[|events| - 1];
      if last.Rerender? then last.deps else DepsAt(deps, events[..|events| - 1])
  }

  /** Whether the last event starts a generation: a reload, or a render with other
      inputs. */
  predicate Starts<D(==), T>(deps: D, events: seq<Event<D, T>>)
    requires events != []
  {
    var last := events[|events| - 1];
    last.Reload? || (last.Rerender? && last.deps != DepsAt(deps, events[..|events| - 1]))
  }

  /** The generation there is after these events. */
  function GenAt<D(==), T>(deps: D, events: seq<Event<D, T>>): nat {
    if events == [] then 0
    else GenAt(deps, events[..|events| - 1]) + if Starts(deps, events) then 1 else 0
  }

  /** One generation's loop: it waits for an answer to the inputs it asked with, sleeps
      after a dropped connection and asks again, twice at most and then with the inputs
      of that moment, and is over once it was answered or refused. */
  datatype Life<D> = Unborn | Waiting(asked: D, retries: nat) | Asleep(retries: nat) | Over(last: Option<Failure>)

  function LifeAt<D(==), T>(deps: D, events: seq<Event<D, T>>, g: nat): Life<D> {
    if events == [] then if g == 0 then Waiting(deps, 0) else Unborn
    else
      var before, last := LifeAt(deps, events[..|events| - 1], g), events[|events| - 1];
      if Starts(deps, events) && GenAt(deps, events) == g then Waiting(DepsAt(deps, events), 0)
      else if last.Resolve? && last.gen == g && before.Waiting? then Over(None)
      else if last.Reject? && last.gen == g && before.Waiting? then
        (if last.failure == Network && before.retries < 2 then Asleep(before.retries + 1) else Over(Some(last.failure)))
      else if last.Wake? && last.gen == g && before.Asleep? then Waiting(DepsAt(deps, events), before.retries)
      else before
  }

  /** The `i`-th event answers the generation of its moment, which waits for it. */
  ghost predicate Answers<D, T>(deps: D, events: seq<Event<D, T>>, i: nat) {
    && i < |events| && events[i].Resolve?
    && events[i].gen == GenAt(deps, events[..i])
    && LifeAt(deps, events[..i], events[i].gen).Waiting?
  }

  ghost predicate LastAnswers<D, T>(deps: D, events: seq<Event<D, T>>, i: nat) {
    Answers(deps, events, i) && forall k: nat :: i < k ==> !Answers(deps, events, k)
  }

  /** The data is what the last answer brought, with the inputs of its moment. */
  ghost predicate StoredBy<D, T>(deps: D, events: seq<Event<D, T>>, i: nat, data: Answer<D, T>) {
    && LastAnswers(deps, events, i)
    && data == Answer(events[i].gen, DepsAt(deps, events[..i]), events[i].value)
  }

  /** The loop a generation is in, as the hook keeps it. */
  ghost predicate InStep<D, T>(h: Hook<D, T>, g: nat, life: Life<D>) {
    match life
    case Waiting(d, n) => g in h.attempts && h.attempts[g] == Asking(d, n)
    case Asleep(n) => g in h.attempts && h.attempts[g] == Sleeping(n)
    case _ => g !in h.attempts
  }

  ghost predicate Follows<D, T>(h: Hook<D, T>, deps: D, events: seq<Event<D, T>>) {
    && h.deps == DepsAt(deps, events) && h.gen == GenAt(deps, events)
    && (forall g: nat :: InStep(h, g, LifeAt(deps, events, g)))
    && (forall g: nat :: h.gen < g ==> LifeAt(deps, events, g) == Unborn)
    && LifeAt(deps, events, h.gen) != Unborn
    && h.error == (match LifeAt(deps, events, h.gen) case Over(last) => last case _ => None)
  }

  lemma {:induction false} HookFollows<D, T>(deps: D, events: seq<Event<D, T>>)
    ensures Inv(Run(Mount<D, T>(deps), events)) && Follows(Run(Mount<D, T>(deps), events), deps, events)
  {
    LoadsSettleOnCurrent<D, T>(deps, events);
    if events != [] {
      var before := events[..|events| - 1];
      HookFollows<D, T>(deps, before);
      LoadsSettleOnCurrent<D, T>(deps, before);
      StepFollows(Run(Mount<D, T>(deps), before), deps, events);
    }
  }

  lemma StepFollows<D, T>(h: Hook<D, T>, deps: D, events: seq<Event<D, T>>)
    requires events != [] && Inv(h) && Follows(h, deps, events[..|events| - 1])
    ensures Follows(Step(h, events[|events| - 1]), deps, events)
  {
    var e := events[|events| - 1];
    if Starts(deps, events) {
      GenerationFollows(h, deps, events);
    } else if e.Rerender? {
      assert Step(h, e) == h;
    } else {
      LoopFollows(h, deps, events);
    }
  }

  lemma GenerationFollows<D, T>(h: Hook<D, T>, deps: D, events: seq<Event<D, T>>)
    requires events != [] && Inv(h) && Follows(h, deps, events[..|events| - 1]) && Starts(deps, events)
    ensures Follows(Step(h, events[|events| - 1]), deps, events)
  {
  }

  lemma LoopFollows<D, T>(h: Hook<D, T>, deps: D, events: seq<Event<D, T>>)
    requires events != [] && Inv(h) && Follows(h, deps, events[..|events| - 1])
    requires !events[|events| - 1].Reload? && !events[|events| - 1].Rerender?
    ensures Follows(Step(h, events[|events| - 1]), deps, events)
  {
  }

  lemma {:induction false} AnswersBefore<D, T>(deps: D, events: seq<Event<D, T>>, i: nat)
    requires events != [] && i < |events| - 1
    ensures Answers(deps, events[..|events| - 1], i) <==> Answers(deps, events, i)
  {
    assert events[..|events| - 1][..i] == events[..i];
  }

  /** An answer of the current generation is stored, and nothing else touches the data. */
  lemma StepStores<D, T>(h: Hook<D, T>, deps: D, events: seq<Event<D, T>>)
    requires events != [] && Inv(h) && Follows(h, deps, events[..|events| - 1])
    ensures var n := |events| - 1;
            Step(h, events[n]).data
            == if Answers(deps, events, n)
               then Some(Answer(events[n].gen, DepsAt(deps, events[..n]), events[n].value))
               else h.data
  {
  }

  /** Every run: the data is the value of the last answer that reached the generation
      of its moment while that was waiting, with the inputs of that moment; there is
      none before the first. */
  lemma {:induction false} DataIsTheLastAnswer<D, T>(deps: D, events: seq<Event<D, T>>)
    ensures var data := Run(Mount<D, T>(deps), events).data;
            && (data.None? <==> forall i: nat :: !Answers(deps, events, i))
            && (data.Some? ==> exists i: nat :: StoredBy(deps, events, i, data.value))
  {
    if events != [] {
      var n := |events| - 1;
      var before := events[..n];
      DataIsTheLastAnswer<D, T>(deps, before);
      HookFollows<D, T>(deps, before);
      var h := Run(Mount<D, T>(deps), before);
      StepStores(h, deps, events);
      hide *;
      assert Run(Mount<D, T>(deps), events) == Step(h, events[n]) by { RunUnfolds(Mount<D, T>(deps), events); }
      OneMoreAnswer(deps, events, h.data, Step(h, events[n]).data);
    }
  }

  lemma RunUnfolds<D, T>(h: Hook<D, T>, events: seq<Event<D, T>>)
    requires events != []
    ensures Run(h, events) == Step(Run(h, events[..|events| - 1]), events[|events| - 1])
  {
    hide Step;
  }

  lemma OneMoreAnswer<D, T>(deps: D, events: seq<Event<D, T>>, was: Option<Answer<D, T>>, now: Option<Answer<D, T>>)
    requires events != []
    requires var before := events[..|events| - 1];
             && (was.None? <==> forall i: nat :: !Answers(deps, before, i))
             && (was.Some? ==> exists i: nat :: StoredBy(deps, before, i, was.value))
    requires var n := |events| - 1;
             now == if Answers(deps, events, n)
                    then Some(Answer(events[n].gen, DepsAt(deps, events[..n]), events[n].value))
                    else was
    ensures now.None? <==> forall i: nat :: !Answers(deps, events, i)
    ensures now.Some? ==> exists i: nat :: StoredBy(deps, events, i, now.value)
  {
    var n := |events| - 1;
    var before := events[..n];
    forall i: nat | i < n ensures Answers(deps, before, i) <==> Answers(deps, events, i) {
      AnswersBefore(deps, events, i);
    }
    assert forall i: nat :: i >= n ==> !Answers(deps, before, i);
    assert forall i: nat :: i > n ==> !Answers(deps, events, i);
    hide LifeAt;
    hide GenAt;
    hide DepsAt;
    if Answers(deps, events, n) {
      hide Answers;
      assert StoredBy(deps, events, n, now.value);
    } else if was.Some? {
      var i: nat :| StoredBy(deps, before, i, was.value);
      assert i < n && before[..i] == events[..i];
      hide Answers;
      assert StoredBy(deps, events, i, was.value);
    }
  }

  /** So a screen that is neither loading nor in error shows the value its own
      generation was answered: nothing was reloaded and no input changed since. */
  lemma SettledShowsItsAnswer<D, T>(deps: D, events: seq<Event<D, T>>)
    requires Settled(Run(Mount<D, T>(deps), events))
    ensures var h := Run(Mount<D, T>(deps), events);
            exists i: nat :: LastAnswers(deps, events, i)
              && events[i].gen == GenAt(deps, events) && DepsAt(deps, events[..i]) == DepsAt(deps, events)
              && h.data == Some(Answer(events[i].gen, DepsAt(deps, events), events[i].value))
  {
    DataIsTheLastAnswer<D, T>(deps, events);
    HookFollows<D, T>(deps, events);
    LoadsSettleOnCurrent<D, T>(deps, events);
    hide LifeAt;
    hide GenAt;
    hide DepsAt;
    hide Run;
    hide LastAnswers;
  }

  /** A hook is loading exactly while the current generation waits or sleeps. */
  lemma LoadingExactly<D, T>(deps: D, events: seq<Event<D, T>>)
    ensures var h, life := Run(Mount<D, T>(deps), events), LifeAt(deps, events, GenAt(deps, events));
            && (h.loading <==> life.Waiting? || life.Asleep?)
            && (life.Over? ==> h.error == life.last)
  {
    HookFollows<D, T>(deps, events);
    hide LifeAt;
    hide GenAt;
    hide Run;
  }

  // -------------------------------------------------------------- the hook itself

  class UseLoad<D(==), T> {
    var deps: D
    var gen: nat
    var data: Option<Answer<D, T>>
    var error: Option<Failure>
    var loading: bool
    var cancelled: set<nat>
    var attempts: map<nat, Attempt<D>>

    function View(): Hook<D, T>
      reads this
    {
      Hook(deps, gen, data, error, loading, cancelled, attempts)
    }

    constructor (deps: D)
      ensures View() == Mount<D, T>(deps) && Inv(View())
    {
      this.deps, gen, data, error, loading, cancelled := deps, 0, None, None, true, {};
      attempts := map[0 := Asking(deps, 0)];
    }

    method Begin(next: D)
      modifies this
      ensures View() == StartGeneration(old(View()), next)
    {
      cancelled := cancelled + {gen};
      gen := gen + 1;
      deps := next;
      loading := true;
      error := None;
      attempts := attempts[gen := Asking(deps, 0)];
    }

    method Render(next: D)
      requires Inv(View())
      modifies this
      ensures View() == Step(old(View()), Rerender(next)) && Inv(View())
    {
      StepKeepsInv(View(), Rerender(next));
      if next != deps {
        Begin(next);
      }
    }

    method AskAgain()
      requires Inv(View())
      modifies this
      ensures View() == Step(old(View()), Reload) && Inv(View())
    {
      StepKeepsInv(View(), Event<D, T>.Reload);
      Begin(deps);
    }

    method Succeed(g: nat, value: T)
      requires Inv(View())
      modifies this
      ensures View() == Step(old(View()), Resolve(g, value)) && Inv(View())
    {
      StepKeepsInv(View(), Resolve(g, value));
      if g in attempts && attempts[g].Asking? {
        if g !in cancelled {
          data := Some(Answer(g, attempts[g].asked, value));
          loading := false;
        }
        attempts := attempts - {g};
      }
    }

    method Fail(g: nat, failure: Failure)
      requires Inv(View())
      modifies this
      ensures View() == Step(old(View()), Reject(g, failure)) && Inv(View())
    {
      StepKeepsInv(View(), Event<D, T>.Reject(g, failure));
      if g in attempts && attempts[g].Asking? {
        if failure == Network && attempts[g].retries < DELAYS {
          attempts := attempts[g := Sleeping(attempts[g].retries + 1)];
        } else {
          if g !in cancelled {
            error := Some(failure);
            loading := false;
          }
          attempts := attempts - {g};
        }
      }
    }

    method AwakeFrom(g: nat)
      requires Inv(View())
      modifies this
      ensures View() == Step(old(View()), Wake(g)) && Inv(View())
    {
      StepKeepsInv(View(), Event<D, T>.Wake(g));
      if g in attempts && attempts[g].Sleeping? {
        attempts := attempts[g := Asking(deps, attempts[g].retries)];
      }
    }
  }
}
