/** The operations client's plumbing (`packages/client/src/admin.ts`): a write never
    goes out on a line nobody has heard from, and is repeated only after a 401. */
module Admin {
  import opened Text

  /** What can be put on the wire: the health probe, the request itself, the session's
      refresh, or the read of a stored token. */
  datatype Sent = Probe | Request | Refresh | Token

  /** What came of it: dropped, or an HTTP status. */
  datatype Outcome = Dropped | Status(code: nat)

  datatype Entry = Entry(what: Sent, outcome: Outcome)

  /** What the world does next: an outcome, and the milliseconds it took. */
  datatype Beat = Beat(outcome: Outcome, took: nat)

  /** The clock, when the server last answered, what was sent so far and the outcomes
      still to come; a world that has run out drops everything. */
  datatype Line = Line(now: nat, lastAnswerAt: nat, log: seq<Entry>, script: seq<Beat>)

  datatype Reply = Answered(code: nat) | NetworkError | SessionLost

  const IDLE_BEFORE_WARMING_MS := 20000
  const DELAYS_MS: seq<nat> := [700, 2000]

  function Exchange(l: Line, what: Sent): (Line, Outcome) {
    var beat := if l.script == [] then Beat(Dropped, 0) else l.script[0];
    (Line(l.now + beat.took, l.lastAnswerAt, l.log + [Entry(what, beat.outcome)],
          if l.script == [] then [] else l.script[1..]),
     beat.outcome)
  }

  function Heard(l: Line): Line {
    l.(lastAnswerAt := l.now)
  }

  /** `#warm`: the probe, asked again after each delay while it cannot connect. */
  function Warm(l: Line, attempt: nat): (Line, bool)
    requires attempt <= |DELAYS_MS|
    decreases |DELAYS_MS| - attempt
  {
    var (after, outcome) := Exchange(l, Probe);
    if outcome.Status? then (Heard(after), true)
    else if attempt < |DELAYS_MS| then Warm(after.(now := after.now + DELAYS_MS[attempt]), attempt + 1)
    else (after, false)
  }

  predicate Quiet(l: Line) {
    l.now - l.lastAnswerAt > IDLE_BEFORE_WARMING_MS
  }

  predicate Works(outcome: Outcome) {
    outcome.Status? && 200 <= outcome.code < 300
  }

  /** `#request`, from its check of the line; `isGet` for a read. */
  function Ask(l: Line, isGet: bool, retried: bool): (Line, Reply)
    decreases !retried, 1
  {
    if !isGet && Quiet(l) then
      var (ready, warmed) := Warm(l, 0);
      if warmed then Tell(ready, isGet, retried) else (ready, NetworkError)
    else
      Tell(l, isGet, retried)
  }

  /** ... and from there on: a token, the request, and once more after a 401. */
  function Tell(l: Line, isGet: bool, retried: bool): (Line, Reply)
    decreases !retried, 0
  {
    var (holding, token) := Exchange(l, Token);
    if !Works(token) then (holding, SessionLost)
    else
      var (told, outcome) := Exchange(holding, Request);
      if outcome.Dropped? then (told, NetworkError)
      else if outcome.code == 401 && !retried then
        var (again, refreshed) := Exchange(told, Refresh);
        if !Works(refreshed) then (again, SessionLost) else Ask(again, isGet, true)
      else (Heard(told), Answered(outcome.code))
  }

  // ---------------------------------------------------------------- what was sent

  function Count(log: seq<Entry>, of: Entry -> bool): nat {
    if log == [] then 0 else Count(log[..|log| - 1], of) + if of(log[|log| - 1]) then 1 else 0
  }

  predicate IsWrite(e: Entry) {
    e.what == Request
  }

  /** A request the server may have acted on: answered with anything but a 401, which
      refuses before acting, or lost on the way there or back. */
  predicate MayHaveActed(e: Entry) {
    e.what == Request && e.outcome != Status(401)
  }

  lemma {:induction false} CountConcat(a: seq<Entry>, b: seq<Entry>, of: Entry -> bool)
    ensures Count(a + b, of) == Count(a, of) + Count(b, of)
  {
    if b == [] {
      assert a + b == a;
    } else {
      assert (a + b)[..|a + b| - 1] == a + b[..|b| - 1];
      CountConcat(a, b[..|b| - 1], of);
    }
  }

  /** The log only grows. */
  function Since(l: Line, m: Line): seq<Entry>
    requires |l.log| <= |m.log|
  {
    m.log[|l.log|..]
  }

  /** Probes, all dropped but the last, which connected or was the last allowed. */
  predicate ProbesWithin(s: seq<Entry>, allowed: nat, connected: bool) {
    && 0 < |s| <= allowed
    && (forall i :: 0 <= i < |s| ==> s[i].what == Probe)
    && (forall i :: 0 <= i < |s| - 1 ==> s[i].outcome == Dropped)
    && (s[|s| - 1].outcome.Status? <==> connected)
    && (!connected ==> |s| == allowed)
  }

  predicate Probes(s: seq<Entry>, connected: bool) {
    ProbesWithin(s, 1 + |DELAYS_MS|, connected)
  }

  lemma OneMoreProbe(s: seq<Entry>, allowed: nat, connected: bool)
    requires ProbesWithin(s, allowed, connected)
    ensures ProbesWithin([Entry(Probe, Dropped)] + s, allowed + 1, connected)
  {
  }

  lemma {:induction false} WarmProbes(l: Line, attempt: nat) returns (probes: seq<Entry>)
    requires attempt <= |DELAYS_MS|
    ensures Warm(l, attempt).0.log == l.log + probes
    ensures ProbesWithin(probes, 1 + |DELAYS_MS| - attempt, Warm(l, attempt).1)
    decreases |DELAYS_MS| - attempt
  {
    var (after, outcome) := Exchange(l, Probe);
    if outcome.Dropped? && attempt < |DELAYS_MS| {
      var slept := after.(now := after.now + DELAYS_MS[attempt]);
      var more := WarmProbes(slept, attempt + 1);
      probes := [Entry(Probe, Dropped)] + more;
      assert Warm(l, attempt) == Warm(slept, attempt + 1);
      hide Warm;
      OneMoreProbe(more, |DELAYS_MS| - attempt, Warm(l, attempt).1);
      hide ProbesWithin;
      assert l.log + probes == slept.log + more;
    } else {
      probes := [Entry(Probe, outcome)];
    }
  }

  /** What one pass of a request puts in the log. */
  datatype Pass = Pass(probes: seq<Entry>, rest: seq<Entry>)

  predicate PassOk(p: Pass, quietWrite: bool) {
    if quietWrite then Probes(p.probes, p.rest != []) else p.probes == [] && p.rest != []
  }

  predicate Only(s: seq<Entry>, what: Sent) {
    |s| == 1 && s[0].what == what
  }

  /** A success, in HTTP's numbers. */
  predicate Is2xx(outcome: Outcome) {
    match outcome
    case Dropped => false
    case Status(code) => 200 <= code <= 299
  }

  /** What follows the probes: a token, then the request, then -- only after a 401 --
      a refresh, once; each if and only if the one before worked. */
  predicate RestOk(rest: seq<Entry>, retried: bool) {
    && |rest| <= 3
    && (|rest| > 0 ==> rest[0].what == Token && (Is2xx(rest[0].outcome) <==> |rest| > 1))
    && (|rest| > 1 ==> rest[1].what == Request && (rest[1].outcome == Status(401) && !retried <==> |rest| > 2))
    && (|rest| > 2 ==> rest[2].what == Refresh)
  }

  predicate SecondPass(rest: seq<Entry>) {
    |rest| == 3 && Is2xx(rest[2].outcome)
  }

  /** The whole exchange: one pass, and a second only after a 401 and a refresh that
      worked. */
  datatype Exchanged = Once(first: Pass) | Twice(first: Pass, second: Pass)

  function Flat(x: Exchanged): seq<Entry> {
    match x
    case Once(p) => p.probes + p.rest
    case Twice(p, q) => (p.probes + p.rest) + (q.probes + q.rest)
  }

  /** The part of a pass after its probes, and the line it leaves. */
  lemma AfterProbes(l: Line, isGet: bool, retried: bool) returns (rest: seq<Entry>, m: Line)
    ensures m.log == l.log + rest
    ensures rest != [] && RestOk(rest, retried)
    ensures SecondPass(rest) ==> !retried && Tell(l, isGet, retried) == Ask(m, isGet, true)
    ensures !SecondPass(rest) ==>
              Tell(l, isGet, retried).0.log == m.log && Ended(rest, Tell(l, isGet, retried).1)
  {
    var (holding, token) := Exchange(l, Token);
    rest, m := [Entry(Token, token)], holding;
    if Works(token) {
      var (told, outcome) := Exchange(holding, Request);
      rest, m := [Entry(Token, token), Entry(Request, outcome)], told;
      if outcome == Status(401) && !retried {
        var (again, refreshed) := Exchange(told, Refresh);
        rest, m := [Entry(Token, token), Entry(Request, outcome), Entry(Refresh, refreshed)], again;
      }
    }
  }

  /** One pass, and the line it leaves. */
  lemma OnePass(l: Line, isGet: bool, retried: bool) returns (p: Pass, m: Line)
    ensures l.log + (p.probes + p.rest) == m.log
    ensures PassOk(p, !isGet && Quiet(l)) && RestOk(p.rest, retried)
    ensures SecondPass(p.rest) ==> !retried && Ask(l, isGet, retried) == Ask(m, isGet, true)
    ensures !SecondPass(p.rest) ==>
              Ask(l, isGet, retried).0.log == m.log && ReplyOf(p, Ask(l, isGet, retried).1)
  {
    hide Tell;
    hide Warm;
    hide Probes;
    if isGet || !Quiet(l) {
      var rest, n := AfterProbes(l, isGet, retried);
      p, m := Pass([], rest), n;
      assert [] + rest == rest;
    } else {
      var probes := WarmProbes(l, 0);
      assert Probes(probes, Warm(l, 0).1) by { ProbesAreWithin(probes, Warm(l, 0).1); }
      var ready := Warm(l, 0).0;
      if Warm(l, 0).1 {
        var rest, n := AfterProbes(ready, isGet, retried);
        p, m := Pass(probes, rest), n;
        assert l.log + (probes + rest) == (l.log + probes) + rest;
      } else {
        p, m := Pass(probes, []), ready;
        assert probes + [] == probes;
      }
    }
  }

  lemma ProbesAreWithin(s: seq<Entry>, connected: bool)
    requires ProbesWithin(s, 1 + |DELAYS_MS|, connected)
    ensures Probes(s, connected)
  {
  }

  /** How a pass that was the last one ended. */
  predicate Ended(rest: seq<Entry>, reply: Reply) {
    match reply
    case Answered(code) => |rest| == 2 && rest[1].outcome == Status(code)
    case NetworkError => |rest| == 2 && rest[1].outcome == Dropped
    case SessionLost => |rest| == 1 || |rest| == 3
  }

  predicate ReplyOf(p: Pass, reply: Reply) {
    if p.rest == [] then reply == NetworkError else Ended(p.rest, reply)
  }

  function Last(x: Exchanged): Pass {
    match x
    case Once(p) => p
    case Twice(_, q) => q
  }

  /** Every request, whatever the world does: the log grows by one or two passes of
      this shape, and the reply is how the last one ended. `m` is the line after the
      first: a write probes again if that line is quiet. */
  lemma RequestIsPasses(l: Line, isGet: bool) returns (x: Exchanged, m: Line)
    ensures Ask(l, isGet, false).0.log == l.log + Flat(x)
    ensures PassOk(x.first, !isGet && Quiet(l)) && RestOk(x.first.rest, false)
    ensures x.Twice? <==> SecondPass(x.first.rest)
    ensures m.log == l.log + (x.first.probes + x.first.rest)
    ensures x.Twice? ==> Ask(l, isGet, false) == Ask(m, isGet, true)
    ensures x.Twice? ==> PassOk(x.second, !isGet && Quiet(m)) && RestOk(x.second.rest, true)
    ensures ReplyOf(Last(x), Ask(l, isGet, false).1)
  {
    hide Ask;
    hide PassOk;
    hide RestOk;
    hide ReplyOf;
    var p;
    p, m := OnePass(l, isGet, false);
    if SecondPass(p.rest) {
      var q, n := OnePass(m, isGet, true);
      x := Twice(p, q);
      assert l.log + Flat(x) == (l.log + (p.probes + p.rest)) + (q.probes + q.rest);
    } else {
      x := Once(p);
    }
  }

  lemma CountPass(p: Pass, quietWrite: bool, retried: bool)
    requires PassOk(p, quietWrite) && RestOk(p.rest, retried)
    ensures Count(p.probes + p.rest, IsWrite) == if |p.rest| > 1 then 1 else 0
    ensures Count(p.probes + p.rest, MayHaveActed)
         == if |p.rest| > 1 && p.rest[1].outcome != Status(401) then 1 else 0
  {
    CountConcat(p.probes, p.rest, IsWrite);
    CountConcat(p.probes, p.rest, MayHaveActed);
    CountNone(p.probes, IsWrite);
    CountNone(p.probes, MayHaveActed);
    CountRest(p.rest, IsWrite);
    CountRest(p.rest, MayHaveActed);
  }

  lemma {:induction false} CountNone(s: seq<Entry>, of: Entry -> bool)
    requires forall i :: 0 <= i < |s| ==> !of(s[i])
    ensures Count(s, of) == 0
  {
    if s != [] {
      CountNone(s[..|s| - 1], of);
    }
  }

  lemma CountRest(rest: seq<Entry>, of: Entry -> bool)
    requires |rest| <= 3 && (|rest| > 0 ==> !of(rest[0])) && (|rest| > 2 ==> !of(rest[2]))
    ensures Count(rest, of) == if |rest| > 1 && of(rest[1]) then 1 else 0
  {
    if |rest| == 3 {
      assert rest == rest[..2] + [rest[2]] && rest[..2][..1] == [rest[0]] && [rest[0]][..0] == [];
    } else if |rest| == 2 {
      assert rest[..1] == [rest[0]] && [rest[0]][..0] == [];
    } else if |rest| == 1 {
      assert rest[..0] == [];
    }
  }

  /** Every operations write, in every world: it goes out at most twice, and the server
      acts on it at most once. It acted, if at all, as the reply says: an answer is the
      one request that was acted on, a lost session is none of them. */
  lemma WritesActAtMostOnce(l: Line)
    ensures l.log <= Ask(l, false, false).0.log
    ensures var (m, reply) := Ask(l, false, false);
            && Count(Since(l, m), IsWrite) <= 2
            && Count(Since(l, m), MayHaveActed) <= 1
            && (reply.Answered? && reply.code != 401 ==> Count(Since(l, m), MayHaveActed) == 1)
            && (reply.SessionLost? ==> Count(Since(l, m), MayHaveActed) == 0)
            && (reply == Answered(401) ==> Count(Since(l, m), MayHaveActed) == 0)
  {
    var x, n := RequestIsPasses(l, false);
    hide Ask;
    hide Count;
    hide Probes;
    var m := Ask(l, false, false).0;
    assert Since(l, m) == Flat(x);
    CountPass(x.first, Quiet(l), false);
    if x.Twice? {
      CountPass(x.second, Quiet(n), true);
      CountConcat(x.first.probes + x.first.rest, x.second.probes + x.second.rest, IsWrite);
      CountConcat(x.first.probes + x.first.rest, x.second.probes + x.second.rest, MayHaveActed);
    }
  }

  /** The first request stands right after a working token, that right after a probe
      which connected, and everything before is probes that did not. */
  predicate FirstWriteAt(s: seq<Entry>, k: nat) {
    && 2 <= k < |s| && s[k].what == Request
    && s[k - 1].what == Token && Is2xx(s[k - 1].outcome)
    && s[k - 2].what == Probe && s[k - 2].outcome.Status?
    && forall i :: 0 <= i < k - 2 ==> s[i] == Entry(Probe, Dropped)
  }

  predicate IsFirstWrite(s: seq<Entry>, k: nat) {
    k < |s| && s[k].what == Request && forall i :: 0 <= i < k ==> s[i].what != Request
  }

  /** A probe that connected, and then a token that worked. */
  predicate ReadyAt(s: seq<Entry>, i: nat) {
    && i + 1 < |s|
    && s[i].what == Probe && s[i].outcome.Status?
    && s[i + 1].what == Token && Is2xx(s[i + 1].outcome)
  }

  /** On a line quiet for longer than the limit, the first write goes out only right
      after a probe that connected and a token that worked, with nothing but dropped
      probes before; and once a probe has connected and a token has worked, a write
      does go out. */
  lemma QuietWriteIsProbed(l: Line)
    requires l.now - l.lastAnswerAt > 20000
    ensures l.log <= Ask(l, false, false).0.log
    ensures var s := Since(l, Ask(l, false, false).0);
            && s != [] && s[0].what == Probe
            && (forall k: nat :: IsFirstWrite(s, k) ==> FirstWriteAt(s, k))
            && ((exists k: nat :: IsFirstWrite(s, k)) <==> exists i: nat :: ReadyAt(s, i))
  {
    var x, m := RequestIsPasses(l, false);
    hide Ask;
    var s := Since(l, Ask(l, false, false).0);
    assert s == Flat(x);
    PassStarts(x, s);
    hide *;
    if |x.first.rest| > 1 {
      WriteFollows(s, |x.first.probes|, x.first.rest);
    } else {
      assert x.Once? by { OnceIfShort(x); }
      NothingFollows(s, |x.first.probes|, x.first.rest);
    }
  }

  lemma OnceIfShort(x: Exchanged)
    requires x.Twice? ==> SecondPass(x.first.rest)
    ensures |x.first.rest| <= 1 ==> x.Once?
  {
  }

  /** `n` probes, dropped but for the last one if more follows, and then `rest`. */
  predicate Starts(s: seq<Entry>, n: nat, rest: seq<Entry>) {
    && n > 0 && |s| >= n + |rest|
    && (forall i :: 0 <= i < n ==> s[i].what == Probe)
    && (forall i :: 0 <= i < n - 1 ==> s[i] == Entry(Probe, Dropped))
    && (s[n - 1].outcome.Status? <==> rest != [])
    && (forall i :: n <= i < n + |rest| ==> s[i] == rest[i - n])
  }

  lemma PassStarts(x: Exchanged, s: seq<Entry>)
    requires s == Flat(x) && PassOk(x.first, true)
    ensures Starts(s, |x.first.probes|, x.first.rest)
    ensures x.Once? ==> |s| == |x.first.probes| + |x.first.rest|
  {
    var n := |x.first.probes|;
    assert forall i :: 0 <= i < n ==> s[i] == x.first.probes[i];
  }

  lemma WriteFollows(s: seq<Entry>, n: nat, rest: seq<Entry>)
    requires Starts(s, n, rest) && RestOk(rest, false) && |rest| > 1
    ensures IsFirstWrite(s, n + 1) && FirstWriteAt(s, n + 1) && ReadyAt(s, n - 1)
    ensures forall k: nat :: IsFirstWrite(s, k) ==> FirstWriteAt(s, k)
    ensures s != [] && s[0].what == Probe
  {
    assert s[n] == rest[0] && s[n + 1] == rest[1];
    hide RestOk;
    hide Is2xx;
    forall k: nat | IsFirstWrite(s, k) ensures k == n + 1 {
    }
  }

  lemma NothingFollows(s: seq<Entry>, n: nat, rest: seq<Entry>)
    requires Starts(s, n, rest) && RestOk(rest, false) && |rest| <= 1 && |s| == n + |rest|
    ensures forall k: nat :: !IsFirstWrite(s, k) && !ReadyAt(s, k)
    ensures s != [] && s[0].what == Probe
  {
    assert |rest| == 1 ==> s[n] == rest[0];
    forall k: nat ensures !IsFirstWrite(s, k) && !ReadyAt(s, k) {
      assert k < n ==> s[k].what == Probe;
      assert k + 1 < n ==> s[k + 1].what == Probe;
    }
  }

  predicate FirstDropped(script: seq<Beat>, n: nat) {
    |script| >= n && forall i :: 0 <= i < n ==> script[i].outcome == Dropped
  }

  lemma {:induction false} DeadWarm(l: Line, attempt: nat)
    requires attempt <= |DELAYS_MS| && FirstDropped(l.script, 1 + |DELAYS_MS| - attempt)
    ensures !Warm(l, attempt).1 && Warm(l, attempt).0.lastAnswerAt == l.lastAnswerAt
    decreases |DELAYS_MS| - attempt
  {
    var (after, outcome) := Exchange(l, Probe);
    assert outcome == Dropped;
    if attempt < |DELAYS_MS| {
      assert FirstDropped(after.script, |DELAYS_MS| - attempt);
      DeadWarm(after.(now := after.now + DELAYS_MS[attempt]), attempt + 1);
    }
  }

  /** When no probe connects, nothing else was sent. */
  lemma DeadLineSendsNothing(l: Line)
    requires l.now - l.lastAnswerAt > 20000 && FirstDropped(l.script, 3)
    ensures Ask(l, false, false).1 == NetworkError
    ensures Ask(l, false, false).0.log == l.log + [Entry(Probe, Dropped), Entry(Probe, Dropped), Entry(Probe, Dropped)]
    ensures Ask(l, false, false).0.lastAnswerAt == l.lastAnswerAt
  {
    DeadWarm(l, 0);
    var probes := WarmProbes(l, 0);
    hide Warm;
    assert probes[2].what == Probe && probes[2].outcome == Dropped;
    assert probes == [Entry(Probe, Dropped), Entry(Probe, Dropped), Entry(Probe, Dropped)];
  }

  // ------------------------------------------------------------ clock and quiet line

  /** The line counts as quiet after twenty seconds without an answer. A read, or a write
      on a line that is not quiet, is sent without a probe. */
  lemma ProbesOnlyWhenQuiet(l: Line, isGet: bool)
    ensures l.log < Ask(l, isGet, false).0.log
    ensures var first := Ask(l, isGet, false).0.log[|l.log|].what;
            first == if !isGet && l.now - l.lastAnswerAt > 20000 then Probe else Token
  {
    var x, m := RequestIsPasses(l, isGet);
    hide Ask;
    var s := Flat(x);
    FirstOfPass(x.first, !isGet && Quiet(l));
    assert s[0] == (x.first.probes + x.first.rest)[0];
    hide Flat;
    hide PassOk;
    hide RestOk;
    assert (l.log + s)[|l.log|] == s[0];
  }

  lemma FirstOfPass(p: Pass, quietWrite: bool)
    requires PassOk(p, quietWrite) && RestOk(p.rest, false)
    ensures p.probes + p.rest != []
    ensures (p.probes + p.rest)[0].what == if quietWrite then Probe else Token
  {
  }

  /** A probe is tried three times, after 700 and then 2000 milliseconds more. */
  lemma DeadLineTakes(l: Line)
    requires FirstDropped(l.script, 3)
    ensures Warm(l, 0).0.now == l.now + l.script[0].took + 700 + l.script[1].took + 2000 + l.script[2].took
    ensures Warm(l, 0).0.script == l.script[3..]
  {
    var (l1, _) := Exchange(l, Probe);
    var s1 := l1.(now := l1.now + 700);
    assert l1.script == l.script[1..];
    var (l2, _) := Exchange(s1, Probe);
    var s2 := l2.(now := l2.now + 2000);
    assert l2.script == l.script[2..];
    var (l3, _) := Exchange(s2, Probe);
    assert l3.script == l.script[3..];
    assert Warm(s2, 2) == (l3, false);
    hide Exchange;
    assert Warm(s1, 1) == Warm(s2, 2);
  }

  lemma {:induction false} WarmHears(l: Line, attempt: nat)
    requires attempt <= |DELAYS_MS|
    ensures var (m, ok) := Warm(l, attempt);
            m.lastAnswerAt == if ok then m.now else l.lastAnswerAt
    decreases |DELAYS_MS| - attempt
  {
    var (after, outcome) := Exchange(l, Probe);
    if outcome.Dropped? && attempt < |DELAYS_MS| {
      WarmHears(after.(now := after.now + DELAYS_MS[attempt]), attempt + 1);
    }
  }

  /** When the line was last heard from: at the answer, if the request was answered;
      otherwise a read leaves it as it was, and a write does unless a probe connected. */
  lemma HeardExactly(l: Line, isGet: bool, retried: bool)
    ensures var (m, reply) := Ask(l, isGet, retried);
            && (reply.Answered? ==> m.lastAnswerAt == m.now)
            && (!reply.Answered? && isGet ==> m.lastAnswerAt == l.lastAnswerAt)
            && (!reply.Answered? && !isGet && !Quiet(l) && retried ==> m.lastAnswerAt == l.lastAnswerAt)
            && (!isGet && Quiet(l) && !Warm(l, 0).1 ==> m.lastAnswerAt == l.lastAnswerAt && reply == NetworkError)
    decreases !retried, 1
  {
    WarmHears(l, 0);
    hide Warm;
    if isGet || !Quiet(l) {
      ToldHears(l, isGet, retried);
    } else if Warm(l, 0).1 {
      ToldHears(Warm(l, 0).0, isGet, retried);
    }
  }

  lemma ToldHears(l: Line, isGet: bool, retried: bool)
    ensures var (m, reply) := Tell(l, isGet, retried);
            && (reply.Answered? ==> m.lastAnswerAt == m.now)
            && (!reply.Answered? && (isGet || retried) ==> m.lastAnswerAt == l.lastAnswerAt)
    decreases !retried, 0
  {
    var (holding, token) := Exchange(l, Token);
    if Works(token) {
      var (told, outcome) := Exchange(holding, Request);
      if outcome == Status(401) && !retried {
        var (again, refreshed) := Exchange(told, Refresh);
        if Works(refreshed) {
          HeardExactly(again, isGet, true);
        }
      }
    }
  }

  // ----------------------------------------------------------------- the client

  class AdminClient {
    var now: nat
    var lastAnswerAt: nat
    var log: seq<Entry>
    var script: seq<Beat>

    function View(): Line
      reads this
    {
      Line(now, lastAnswerAt, log, script)
    }

    constructor (l: Line)
      ensures View() == l
    {
      now, lastAnswerAt, log, script := l.now, l.lastAnswerAt, l.log, l.script;
    }

    method Send(what: Sent) returns (outcome: Outcome)
      modifies this
      ensures (View(), outcome) == Exchange(old(View()), what)
    {
      var beat := if script == [] then Beat(Dropped, 0) else script[0];
      script := if script == [] then [] else script[1..];
      now := now + beat.took;
      log := log + [Entry(what, beat.outcome)];
      outcome := beat.outcome;
    }

    method WarmUp() returns (ok: bool)
      modifies this
      ensures (View(), ok) == Warm(old(View()), 0)
    {
      var attempt := 0;
      while true
        invariant attempt <= |DELAYS_MS|
        invariant Warm(View(), attempt) == Warm(old(View()), 0)
        decreases |DELAYS_MS| - attempt
      {
        var outcome := Send(Probe);
        if outcome.Status? {
          lastAnswerAt := now;
          return true;
        }
        if attempt == |DELAYS_MS| {
          return false;
        }
        now := now + DELAYS_MS[attempt];
        attempt := attempt + 1;
      }
    }

    method RequestIt(isGet: bool, retried: bool) returns (reply: Reply)
      modifies this
      ensures (View(), reply) == Ask(old(View()), isGet, retried)
      decreases !retried
    {
      if !isGet && now - lastAnswerAt > IDLE_BEFORE_WARMING_MS {
        var ok := WarmUp();
        if !ok {
          return NetworkError;
        }
      }
      var token := Send(Token);
      if !Works(token) {
        return SessionLost;
      }
      var outcome := Send(Request);
      if outcome.Dropped? {
        return NetworkError;
      }
      if outcome.code == 401 && !retried {
        var refreshed := Send(Refresh);
        if !Works(refreshed) {
          return SessionLost;
        }
        reply := RequestIt(isGet, true);
        return;
      }
      lastAnswerAt := now;
      reply := Answered(outcome.code);
    }
  }
}
