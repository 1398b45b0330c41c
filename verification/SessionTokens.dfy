// The session token provider: refresh before expiry, and back off after failures, over monotonic time.
module SessionTokens {
  import opened Text

  const REFRESH_AT: real := 0.75
  const JITTER: real := 0.10
  const MIN_RETRY_SECONDS: real := 5.0
  const MAX_RETRY_SECONDS: real := 300.0

  datatype Session = Session(token: string, endpoint: string, refreshAt: real, expiresAt: real)

  /** A decoded response; `expiresIn` is zero when absent. */
  datatype Payload = Payload(token: string, expiresIn: real, endpoint: string)

  /** What a fetch would meet: an exception (a refused endpoint included), or a reply and the jitter drawn
      for it. `done` is the clock once the fetch is over. */
  datatype Outcome = Failed(done: real) | Replied(payload: Payload, jitter: real, done: real)

  datatype Provider = Provider(session: Option<Session>, failures: nat, nextAttempt: real)

  const NEW: Provider := Provider(None, 0, 0.0)

  datatype Event = Current(now: real, outcome: Outcome) | Invalidate

  /** One fetch: when it started, when it was over, and whether it yielded a session. */
  datatype Attempt = Attempt(start: real, done: real, failed: bool)

  function Build(payload: Payload, jitter: real, at: real): Option<Session> {
    if payload.token == "" || payload.expiresIn <= 0.0 then None
    else Some(Session(payload.token, payload.endpoint,
                      at + payload.expiresIn * REFRESH_AT * (1.0 - jitter), at + payload.expiresIn))
  }

  function Pow2(n: nat): nat {
    if n == 0 then 1 else 2 * Pow2(n - 1)
  }

  /** How long to wait after the k-th failure in a row. */
  function Delay(k: nat): real {
    var d := MIN_RETRY_SECONDS * Pow2(if k < 6 then k else 6) as real;
    if d < MAX_RETRY_SECONDS then d else MAX_RETRY_SECONDS
  }

  /** The waits in seconds: 10, 20, 40, 80, 160 after the first five failures in a row, 300 after more. */
  lemma DelayReads(k: nat)
    ensures Delay(1) == 10.0 && Delay(2) == 20.0 && Delay(3) == 40.0 && Delay(4) == 80.0 && Delay(5) == 160.0
    ensures k >= 6 ==> Delay(k) == 300.0
  {
    assert Pow2(1) == 2 && Pow2(2) == 4 && Pow2(3) == 8 && Pow2(4) == 16 && Pow2(5) == 32 && Pow2(6) == 64;
  }

  function Fetched(outcome: Outcome): Option<Session> {
    if outcome.Failed? then None else Build(outcome.payload, outcome.jitter, outcome.done)
  }

  /** A reply yields a session unless its token is empty or its lifetime is not positive. */
  lemma FetchReads(outcome: Outcome)
    ensures Fetched(outcome).Some? <==> outcome.Replied? && outcome.payload.token != "" && outcome.payload.expiresIn > 0.0
  {}

  function AfterFetch(s: Provider, outcome: Outcome): Provider {
    match Fetched(outcome)
    case None => s.(failures := s.failures + 1, nextAttempt := outcome.done + Delay(s.failures + 1))
    case Some(session) => Provider(Some(session), 0, 0.0)
  }

  predicate Fresh(s: Provider, now: real) {
    s.session.Some? && now < s.session.value.refreshAt
  }

  function Unexpired(session: Option<Session>, now: real): Option<Session> {
    if session.Some? && now < session.value.expiresAt then session else None
  }

  /** Whether `current` fetches. */
  predicate Fetches(s: Provider, now: real) {
    !Fresh(s, now) && now >= s.nextAttempt
  }

  function Answer(s: Provider, now: real, outcome: Outcome): Option<Session> {
    if Fresh(s, now) then s.session
    else if Fetches(s, now) && Fetched(outcome).Some? then Fetched(outcome)
    else Unexpired(s.session, now)
  }

  function AfterCurrent(s: Provider, now: real, outcome: Outcome): Provider {
    if Fetches(s, now) then AfterFetch(s, outcome) else s
  }

  datatype Trace = Trace(provider: Provider, attempts: seq<Attempt>)

  function Run(events: seq<Event>): Trace {
    if events == [] then Trace(NEW, [])
    else
      var t := Run(events[..|events| - 1]);
      match events[|events| - 1]
      case Invalidate => t.(provider := t.provider.(session := None))
      case Current(now, outcome) =>
        Trace(AfterCurrent(t.provider, now, outcome),
              if Fetches(t.provider, now)
              then t.attempts + [Attempt(now, outcome.done, Fetched(outcome).None?)] else t.attempts)
  }

  /** The clock does not run backwards, during a fetch or between calls, and draws are in range. */
  ghost predicate Monotonic(events: seq<Event>) {
    && (forall i :: 0 <= i < |events| && events[i].Current? ==>
         && 0.0 <= events[i].now <= events[i].outcome.done
         && (events[i].outcome.Replied? ==> 0.0 <= events[i].outcome.jitter <= JITTER))
    && forall i, j :: 0 <= i < j < |events| && events[i].Current? && events[j].Current? ==>
         events[i].outcome.done <= events[j].now
  }

  lemma MonotonicFront(events: seq<Event>)
    requires events != [] && Monotonic(events)
    ensures Monotonic(events[..|events| - 1])
  {
    var front := events[..|events| - 1];
    forall i | 0 <= i < |front| ensures front[i] == events[i] {}
  }

  // ---------------------------------------------------------------- tokens served

  /** `session` is what the reply at step `i` promised, and nothing has invalidated it since. */
  ghost predicate MintedAt(events: seq<Event>, i: nat, session: Session) {
    && i < |events| && events[i].Current? && events[i].outcome.Replied?
    && (forall j :: i < j < |events| ==> events[j] != Invalidate)
    && var o := events[i].outcome; var ttl := o.payload.expiresIn;
      && session.token == o.payload.token != "" && session.endpoint == o.payload.endpoint && ttl > 0.0
      && session.expiresAt == o.done + ttl
      && o.done + 0.675 * ttl <= session.refreshAt <= o.done + 0.75 * ttl
  }

  ghost predicate Minted(events: seq<Event>, session: Session) {
    exists i :: MintedAt(events, i, session)
  }

  lemma RefreshWindow(ttl: real, jitter: real)
    requires ttl > 0.0 && 0.0 <= jitter <= JITTER
    ensures 0.675 * ttl <= ttl * REFRESH_AT * (1.0 - jitter) <= 0.75 * ttl
  {
    var spread := 1.0 - jitter;
    var x := ttl * REFRESH_AT;
    assert x * 0.9 <= x * spread && x * spread <= x * 1.0;
  }

  lemma BuiltIsMinted(events: seq<Event>)
    requires events != [] && Monotonic(events)
    requires var e := events[|events| - 1]; e.Current? && Fetched(e.outcome).Some?
    ensures MintedAt(events, |events| - 1, Fetched(events[|events| - 1].outcome).value)
  {
    var o := events[|events| - 1].outcome;
    RefreshWindow(o.payload.expiresIn, o.jitter);
  }

  lemma StillMinted(events: seq<Event>, e: Event, session: Session)
    requires Minted(events, session) && e.Current?
    ensures Minted(events + [e], session)
  {
    var i: nat :| MintedAt(events, i, session);
    var more := events + [e];
    forall j | i < j < |more| ensures more[j] != Invalidate {
      assert j < |events| ==> more[j] == events[j];
    }
    assert more[i] == events[i] && MintedAt(more, i, session);
  }

  lemma {:induction false} HeldIsMinted(events: seq<Event>)
    requires Monotonic(events)
    ensures Run(events).provider.session.Some? ==> Minted(events, Run(events).provider.session.value)
  {
    hide MintedAt, Monotonic, Build, Delay;
    if events != [] {
      var front, last := events[..|events| - 1], events[|events| - 1];
      MonotonicFront(events);
      HeldIsMinted(front);
      assert events == front + [last];
      if last.Current? {
        if Run(front).provider.session.Some? { StillMinted(front, last, Run(front).provider.session.value); }
        if Fetched(last.outcome).Some? { BuiltIsMinted(events); }
      }
    }
  }

  /** Every session that `current` returns was minted by a reply since the last `invalidate`, carries that
      reply's token and lifetime with its refresh at 67.5% to 75% of it, and had not expired when the
      call started. A refresh that fails keeps a held session, and goes on serving it until it expires. */
  lemma {:induction false} ServedSessionsAreLive(events: seq<Event>, now: real, outcome: Outcome)
    requires Monotonic(events + [Current(now, outcome)])
    ensures var answer := Answer(Run(events).provider, now, outcome);
      answer.Some? ==> now < answer.value.expiresAt && Minted(events + [Current(now, outcome)], answer.value)
    ensures var before, after := Run(events).provider, Run(events + [Current(now, outcome)]).provider;
      Fetched(outcome).None? ==>
        && after.session == before.session
        && (before.session.Some? && now < before.session.value.expiresAt ==> Answer(before, now, outcome) == before.session)
  {
    hide Minted, Monotonic, Build, Delay;
    var all, e := events + [Current(now, outcome)], Current(now, outcome);
    assert all[..|all| - 1] == events;
    MonotonicFront(all);
    HeldIsMinted(events);
    var held := Run(events).provider.session;
    if held.Some? {
      StillMinted(events, e, held.value);
      RefreshBeforeExpiry(events, held.value);
    }
    if Fetched(outcome).Some? {
      BuiltIsMinted(all);
      FreshlyBuilt(all);
    }
  }

  lemma RefreshBeforeExpiry(events: seq<Event>, session: Session)
    requires Minted(events, session)
    ensures session.refreshAt < session.expiresAt
  {}

  lemma FreshlyBuilt(events: seq<Event>)
    requires events != [] && Monotonic(events)
    requires var e := events[|events| - 1]; e.Current? && Fetched(e.outcome).Some?
    ensures var e := events[|events| - 1]; e.now < Fetched(e.outcome).value.expiresAt
    ensures var e := events[|events| - 1]; MintedAt(events, |events| - 1, Fetched(e.outcome).value) ==> Minted(events, Fetched(e.outcome).value)
  {
    var e := events[|events| - 1];
    assert e.now <= e.outcome.done;
  }

  // ------------------------------------------------------------------- backing off

  /** How many fetches in a row have failed. */
  function Streak(attempts: seq<Attempt>): nat {
    if attempts == [] || !attempts[|attempts| - 1].failed then 0 else Streak(attempts[..|attempts| - 1]) + 1
  }

  ghost predicate Spaced(attempts: seq<Attempt>, i: nat)
    requires i + 1 < |attempts|
  {
    attempts[i].failed ==> attempts[i + 1].start >= attempts[i].done + Delay(Streak(attempts[..i + 1]))
  }

  ghost predicate BackingOff(t: Trace) {
    && t.provider.failures == Streak(t.attempts)
    && t.provider.nextAttempt ==
         (if t.attempts != [] && t.attempts[|t.attempts| - 1].failed
          then t.attempts[|t.attempts| - 1].done + Delay(Streak(t.attempts)) else 0.0)
    && (forall i {:trigger t.attempts[i]} :: 0 <= i < |t.attempts| ==> t.attempts[i].start <= t.attempts[i].done)
    && forall i: nat {:trigger Spaced(t.attempts, i)} :: i + 1 < |t.attempts| ==> Spaced(t.attempts, i)
  }

  lemma AttemptBacksOff(t: Trace, now: real, outcome: Outcome)
    requires BackingOff(t) && Fetches(t.provider, now) && now <= outcome.done
    ensures BackingOff(Trace(AfterFetch(t.provider, outcome), t.attempts + [Attempt(now, outcome.done, Fetched(outcome).None?)]))
  {
    hide Delay, Fetched;
    var n := |t.attempts|;
    var more := t.attempts + [Attempt(now, outcome.done, Fetched(outcome).None?)];
    assert more[..n] == t.attempts;
    forall i: nat | i + 1 < |more| ensures Spaced(more, i) {
      assert more[..i + 1] == t.attempts[..i + 1];
      if i + 1 < n {
        assert Spaced(t.attempts, i);
      } else {
        assert t.attempts[..n] == t.attempts;
      }
    }
  }

  lemma {:induction false} RunBacksOff(events: seq<Event>)
    requires Monotonic(events)
    ensures BackingOff(Run(events))
  {
    hide BackingOff, AfterFetch;
    if events == [] {
      NothingAttempted();
    } else {
      var front, last := events[..|events| - 1], events[|events| - 1];
      MonotonicFront(events);
      RunBacksOff(front);
      var t := Run(front);
      if last.Current? {
        if Fetches(t.provider, last.now) { AttemptBacksOff(t, last.now, last.outcome); }
      } else {
        InvalidateBacksOff(t);
      }
    }
  }

  lemma NothingAttempted()
    ensures BackingOff(Trace(NEW, []))
  {}

  lemma InvalidateBacksOff(t: Trace)
    requires BackingOff(t)
    ensures BackingOff(t.(provider := t.provider.(session := None)))
  {}

  /** A call fetches if and only if it holds no session younger than its refresh time and, when the last
      k fetches all failed, min(300, 5 * 2^min(k, 6)) seconds have passed since the last of them - whether
      or not `invalidate` was called in between. */
  lemma FetchesExactly(events: seq<Event>, now: real)
    requires Monotonic(events) && now >= 0.0
    ensures var t := Run(events); var k := Streak(t.attempts);
      Fetches(t.provider, now) <==>
        !Fresh(t.provider, now) && (k > 0 ==> now >= t.attempts[|t.attempts| - 1].done + Delay(k))
  {
    hide Run, Fresh, Delay;
    RunBacksOff(events);
  }

  /** Between n failing fetches in a row at least this much time passes. */
  function MinSpan(n: nat): real {
    if n <= 1 then 0.0 else MinSpan(n - 1) + Delay(n - 1)
  }

  lemma DelayTable()
    ensures Delay(1) == 10.0 && Delay(2) == 20.0 && Delay(3) == 40.0 && Delay(4) == 80.0 && Delay(5) == 160.0
    ensures forall k: nat :: k >= 6 ==> Delay(k) == 300.0
  {
    assert Pow2(1) == 2 && Pow2(2) == 4 && Pow2(3) == 8;
    assert Pow2(4) == 16;
    assert Pow2(5) == 32;
    assert Pow2(6) == 64;
  }

  lemma DelayGrows(j: nat, k: nat)
    requires 1 <= j <= k
    ensures 0.0 < Delay(j) <= Delay(k)
  {
    hide Delay;
    DelayTable();
    assert k < 6 ==> j < 6;
    if k < 6 {
      assert k == 1 || k == 2 || k == 3 || k == 4 || k == 5;
      assert j == 1 || j == 2 || j == 3 || j == 4 || j == 5;
    } else {
      assert j == 1 || j == 2 || j == 3 || j == 4 || j == 5 || j >= 6;
    }
  }

  lemma {:induction false} SpanFormula(n: nat)
    requires n >= 6
    ensures MinSpan(n) == 310.0 + 300.0 * (n - 6) as real
  {
    hide Delay;
    DelayTable();
    if n == 6 {
      assert MinSpan(2) == 10.0;
      assert MinSpan(3) == 30.0;
      assert MinSpan(4) == 70.0;
      assert MinSpan(5) == 150.0;
    } else {
      SpanFormula(n - 1);
    }
  }

  lemma {:induction false} StreakIncludes(attempts: seq<Attempt>, i: nat, j: nat)
    requires i <= j < |attempts| && forall m :: i <= m <= j ==> attempts[m].failed
    ensures Streak(attempts[..j + 1]) >= j - i + 1
  {
    assert attempts[..j + 1][..j] == attempts[..j];
    if i < j { StreakIncludes(attempts, i, j - 1); }
  }

  lemma {:induction false} StreakSpans(t: Trace, i: nat, n: nat)
    requires BackingOff(t) && 1 <= n && i + n <= |t.attempts|
    requires forall m :: i <= m < i + n ==> t.attempts[m].failed
    ensures t.attempts[i + n - 1].start - t.attempts[i].start >= MinSpan(n)
  {
    hide Delay, Streak;
    if n > 1 {
      StreakSpans(t, i, n - 1);
      var j := i + n - 2;
      assert Spaced(t.attempts, j) && t.attempts[j].failed && t.attempts[j].start <= t.attempts[j].done;
      StreakIncludes(t.attempts, i, j);
      DelayGrows(n - 1, Streak(t.attempts[..j + 1]));
    }
  }

  /** Six or more fetches that fail in a row take at least 310 + 300 (n - 6) seconds to start. */
  lemma EndpointNotHammered(events: seq<Event>, i: nat, n: nat)
    requires Monotonic(events) && n >= 6 && i + n <= |Run(events).attempts|
    requires forall m :: i <= m < i + n ==> Run(events).attempts[m].failed
    ensures Run(events).attempts[i + n - 1].start - Run(events).attempts[i].start >= 310.0 + 300.0 * (n - 6) as real
  {
    hide Run, BackingOff;
    RunBacksOff(events);
    StreakSpans(Run(events), i, n);
    SpanFormula(n);
  }

  // -------------------------------------------------------------------- the object

  class SessionProvider {
    var session: Option<Session>
    var failures: nat
    var nextAttempt: real

    constructor ()
      ensures Abs() == NEW
    {
      session, failures, nextAttempt := None, 0, 0.0;
    }

    ghost function Abs(): Provider
      reads this
    {
      Provider(session, failures, nextAttempt)
    }

    method TryFetch(outcome: Outcome) returns (fetched: Option<Session>)
      modifies this`failures, this`nextAttempt
      ensures fetched == Fetched(outcome)
      ensures fetched.None? ==> Abs() == AfterFetch(old(Abs()), outcome)
      ensures fetched.Some? ==> Abs().(session := fetched) == AfterFetch(old(Abs()), outcome)
    {
      fetched := if outcome.Failed? then None else Build(outcome.payload, outcome.jitter, outcome.done);
      if fetched.None? {
        failures := failures + 1;
        nextAttempt := outcome.done + Delay(failures);
        return;
      }
      failures, nextAttempt := 0, 0.0;
    }

    /** `outcome` is what a fetch would meet if one is made. */
    method Current(now: real, outcome: Outcome) returns (answer: Option<Session>)
      modifies this
      ensures Abs() == AfterCurrent(old(Abs()), now, outcome)
      ensures answer == Answer(old(Abs()), now, outcome)
    {
      if session.Some? && now < session.value.refreshAt { return session; }
      if now < nextAttempt {
        return Unexpired(session, now);
      }
      var fetched := TryFetch(outcome);
      if fetched.Some? {
        session := fetched;
        return fetched;
      }
      return Unexpired(session, now);
    }

    method Invalidate()
      modifies this`session
      ensures Abs() == old(Abs()).(session := None)
    {
      session := None;
    }
  }
}
