// Time in the retry loop: which throttling windows a budget outlasts, and how
// long a call can take.
module RetryBudget {
  import opened Durations
  import opened Backoff
  import opened Decimal
  import opened RetryMachine

  // ----- A run's clock against its waits -----

  // The longest a wait can be.
  function LongestWait(cfg: Settings): int
  {
    EffectiveCap(cfg.retryMaxWait) + MAX_RETRY_JITTER - 1
  }

  // An overflow can only shorten a wait, so only the lower end needs room for
  // jitter.
  ghost predicate WaitsInRange(cfg: Settings, waits: seq<int>)
  {
    forall i :: 0 <= i < |waits| ==>
      && (CapLeavesRoomForJitter(cfg.retryMaxWait) ==> BackoffBase(cfg.retryMaxWait, i) <= waits[i])
      && waits[i] <= LongestWait(cfg)
  }

  ghost predicate ClockInv<S>(cfg: Settings, start: int, s: State<S>)
  {
    && WaitsInRange(cfg, s.waits)
    && start + Sum(s.waits) <= s.clock
    && (s.phase.Attempting? ==> s.phase.n == |s.waits|)
    && (s.phase.Waiting? ==> s.phase.n == |s.waits| && WaitsInRange(cfg, s.waits + [s.phase.wait]))
  }

  lemma {:induction false} ClockStep<S(!new)>(cfg: Settings, effect: S -> S, start: int, s: State<S>, e: Event<S>)
    requires ClockInv(cfg, start, s) && Enabled(effect, s, e)
    ensures ClockInv(cfg, start, Next(cfg, s, e))
  {
    var s' := Next(cfg, s, e);
    if s'.phase.Waiting? {
      var ra := RawOutcome(e.rt).failure.retryAfter;
      WaitBelowCapAndJitter(cfg.retryMaxWait, s.phase.n, ra, e.random);
      if CapLeavesRoomForJitter(cfg.retryMaxWait) {
        WaitInterval(cfg.retryMaxWait, s.phase.n, ra, e.random);
      }
    }
    if s.phase.Waiting? && e.TimerFired? {
      SumSnoc(s.waits, s.phase.wait);
    }
  }

  lemma {:induction false} ClockRun<S(!new)>(
      cfg: Settings, effect: S -> S, start: int, s: State<S>, events: seq<Event<S>>)
    requires ClockInv(cfg, start, s) && IsRun(cfg, effect, s, events)
    ensures ClockInv(cfg, start, Final(cfg, effect, s, events))
    decreases |events|
  {
    if events != [] {
      ClockStep(cfg, effect, start, s, events[0]);
      ClockRun(cfg, effect, start, Next(cfg, s, events[0]), events[1..]);
    }
  }

  lemma {:induction false} WaitsAddUp(cfg: Settings, waits: seq<int>)
    requires WaitsInRange(cfg, waits)
    ensures CapLeavesRoomForJitter(cfg.retryMaxWait) ==> BackoffSum(cfg.retryMaxWait, |waits|) <= Sum(waits)
    ensures Sum(waits) <= |waits| * LongestWait(cfg)
  {
    if waits != [] {
      var init := waits[..|waits| - 1];
      WaitsAddUp(cfg, init);
      MulSucc(|init|, LongestWait(cfg));
    }
  }

  lemma {:induction false} BackoffSumMonotone(maxWait: Duration, m: nat, n: nat)
    requires m <= n
    ensures BackoffSum(maxWait, m) <= BackoffSum(maxWait, n)
    decreases n
  {
    if m < n {
      BackoffSumMonotone(maxWait, m, n - 1);
    }
  }

  // ----- Surviving a throttling window -----

  // The server throttles no attempt begun at or after the deadline.
  ghost predicate ThrottledOnlyBefore<S(!new)>(cfg: Settings, effect: S -> S, s: State<S>, deadline: int, events: seq<Event<S>>)
    requires IsRun(cfg, effect, s, events)
    decreases |events|
  {
    events == [] ||
    (&& (events[0].Exchange? && IsRateLimited(RawOutcome(events[0].rt)) ==> s.clock < deadline)
     && ThrottledOnlyBefore(cfg, effect, Next(cfg, s, events[0]), deadline, events[1..]))
  }

  ghost predicate EndsThrottled<S>(s: State<S>)
  {
    s.phase.Done? && IsRateLimited(s.phase.result)
  }

  // A run that fails with a 429 though throttling had stopped by the deadline.
  ghost predicate Exhausted<S(!new)>(cfg: Settings, effect: S -> S, s: State<S>, deadline: int, events: seq<Event<S>>)
  {
    && IsRun(cfg, effect, s, events)
    && ThrottledOnlyBefore(cfg, effect, s, deadline, events)
    && EndsThrottled(Final(cfg, effect, s, events))
  }

  // A budget survives a window exactly when the window is no longer than the
  // sum of its backoff bases and the cap leaves room for jitter. Then no run
  // returns a 429, whatever the jitter, Retry-After values and delays; otherwise
  // some run does, unless the window is empty.
  lemma {:induction false} SurvivalExactly<S(!new)>(cfg: Settings, effect: S -> S, server: S, clock: int, deadline: int)
    requires cfg.Budget() >= 0
    ensures (deadline <= clock
             || (CapLeavesRoomForJitter(cfg.retryMaxWait)
                 && deadline - clock <= BackoffSum(cfg.retryMaxWait, cfg.Budget()))) <==>
            forall events :: !Exhausted(cfg, effect, Start(cfg, server, clock), deadline, events)
  {
    var start := Start(cfg, server, clock);
    var window, sum := deadline - clock, BackoffSum(cfg.retryMaxWait, cfg.Budget());
    if window <= 0 || (CapLeavesRoomForJitter(cfg.retryMaxWait) && window <= sum) {
      forall events
        ensures !Exhausted(cfg, effect, start, deadline, events)
      {
        if Exhausted(cfg, effect, start, deadline, events) {
          if window <= 0 {
            NothingThrottled(cfg, effect, start, deadline, events);
          } else {
            Survives(cfg, effect, clock, window, start, events);
          }
        }
      }
    } else {
      var events;
      if CapLeavesRoomForJitter(cfg.retryMaxWait) {
        events := UnluckyRun(cfg, effect, server, clock, window);
      } else {
        events := OverflowingRun(cfg, effect, server, clock, deadline);
      }
      assert Exhausted(cfg, effect, start, deadline, events);
    }
  }

  // An empty window throttles nothing.
  lemma {:induction false} NothingThrottled<S(!new)>(
      cfg: Settings, effect: S -> S, s: State<S>, deadline: int, events: seq<Event<S>>)
    requires deadline <= s.clock && !EndsThrottled(s)
    requires IsRun(cfg, effect, s, events) && ThrottledOnlyBefore(cfg, effect, s, deadline, events)
    ensures !EndsThrottled(Final(cfg, effect, s, events))
    decreases |events|
  {
    if events != [] {
      NothingThrottled(cfg, effect, Next(cfg, s, events[0]), deadline, events[1..]);
    }
  }

  lemma {:induction false} Survives<S(!new)>(
      cfg: Settings, effect: S -> S, start: int, window: int, s: State<S>, events: seq<Event<S>>)
    requires CapLeavesRoomForJitter(cfg.retryMaxWait)
    requires cfg.Budget() >= 0 && window <= BackoffSum(cfg.retryMaxWait, cfg.Budget())
    requires ClockInv(cfg, start, s) && !EndsThrottled(s)
    requires IsRun(cfg, effect, s, events) && ThrottledOnlyBefore(cfg, effect, s, start + window, events)
    ensures !EndsThrottled(Final(cfg, effect, s, events))
    decreases |events|
  {
    if events != [] {
      var s' := Next(cfg, s, events[0]);
      ClockStep(cfg, effect, start, s, events[0]);
      WaitsAddUp(cfg, s.waits);
      Survives(cfg, effect, start, window, s', events[1..]);
    }
  }

  const THROTTLED: RoundTrip := Response(429, "", "")

  const THROTTLED_FOR_CENTURIES: RoundTrip := Response(429, Itoa(9223372036), "")

  lemma {:induction false} ThrottledSnoc<S(!new)>(
      cfg: Settings, effect: S -> S, s: State<S>, deadline: int, events: seq<Event<S>>, e: Event<S>)
    requires IsRun(cfg, effect, s, events) && ThrottledOnlyBefore(cfg, effect, s, deadline, events)
    requires Enabled(effect, Final(cfg, effect, s, events), e)
    requires e.Exchange? ==> Final(cfg, effect, s, events).clock < deadline
    ensures IsRun(cfg, effect, s, events + [e])
    ensures ThrottledOnlyBefore(cfg, effect, s, deadline, events + [e])
    ensures Final(cfg, effect, s, events + [e]) == Next(cfg, Final(cfg, effect, s, events), e)
    decreases |events|
  {
    RunSnoc(cfg, effect, s, events, e);
    if events == [] {
      assert [e][1..] == [];
    } else {
      ThrottledSnoc(cfg, effect, Next(cfg, s, events[0]), deadline, events[1..], e);
      assert (events + [e])[1..] == events[1..] + [e];
    }
  }

  // A throttled reply that takes no time and the wait after it, with no header
  // and a draw of zero, lead to the next attempt one backoff base later.
  lemma {:induction false} UnluckyStep<S(!new)>(
      cfg: Settings, effect: S -> S, s: State<S>, deadline: int, before: seq<Event<S>>, n: nat)
    returns (after: seq<Event<S>>)
    requires IsRun(cfg, effect, s, before) && ThrottledOnlyBefore(cfg, effect, s, deadline, before)
    requires var f := Final(cfg, effect, s, before); f.phase == Attempting(n) && f.clock < deadline
    requires n < cfg.Budget()
    ensures IsRun(cfg, effect, s, after) && ThrottledOnlyBefore(cfg, effect, s, deadline, after)
    ensures var f, f' := Final(cfg, effect, s, before), Final(cfg, effect, s, after);
            && f'.phase == Attempting(n + 1) && f'.server == f.server
            && f'.clock == f.clock + BackoffBase(cfg.retryMaxWait, n)
  {
    var f := Final(cfg, effect, s, before);
    var e: Event<S> := Exchange(THROTTLED, 0, 0, f.server);
    assert RawOutcome(THROTTLED) == Err(APIError(429, 0));
    ThrottledSnoc(cfg, effect, s, deadline, before, e);
    var base := BackoffBase(cfg.retryMaxWait, n);
    NoJitter(cfg.retryMaxWait, n, 0);
    assert Next(cfg, f, e).phase == Waiting(n, base);
    ThrottledSnoc(cfg, effect, s, deadline, before + [e], TimerFired(base));
    after := before + [e] + [TimerFired(base)];
  }

  // Such steps reach attempt n no later than the sum of its backoff bases.
  lemma {:induction false} UnluckyPrefix<S(!new)>(
      cfg: Settings, effect: S -> S, server: S, clock: int, window: int, n: nat)
    returns (events: seq<Event<S>>)
    requires n <= cfg.Budget()
    requires BackoffSum(cfg.retryMaxWait, cfg.Budget()) < window
    ensures var start := Start(cfg, server, clock);
            && IsRun(cfg, effect, start, events)
            && ThrottledOnlyBefore(cfg, effect, start, clock + window, events)
            && var f := Final(cfg, effect, start, events);
               f.phase == Attempting(n) && f.server == server
               && f.clock == clock + BackoffSum(cfg.retryMaxWait, n)
  {
    var start := Start(cfg, server, clock);
    if n == 0 {
      events := [];
    } else {
      var before := UnluckyPrefix(cfg, effect, server, clock, window, n - 1);
      BackoffSumMonotone(cfg.retryMaxWait, n - 1, cfg.Budget());
      events := UnluckyStep(cfg, effect, start, clock + window, before, n - 1);
    }
  }

  lemma {:induction false} UnluckyRun<S(!new)>(cfg: Settings, effect: S -> S, server: S, clock: int, window: int)
    returns (events: seq<Event<S>>)
    requires cfg.Budget() >= 0
    requires BackoffSum(cfg.retryMaxWait, cfg.Budget()) < window
    ensures IsRun(cfg, effect, Start(cfg, server, clock), events)
    ensures ThrottledOnlyBefore(cfg, effect, Start(cfg, server, clock), clock + window, events)
    ensures EndsThrottled(Final(cfg, effect, Start(cfg, server, clock), events))
  {
    var before := UnluckyPrefix(cfg, effect, server, clock, window, cfg.Budget());
    ThrottledSnoc(cfg, effect, Start(cfg, server, clock), clock + window, before, Exchange(THROTTLED, 0, 0, server));
    events := before + [Exchange(THROTTLED, 0, 0, server)];
    assert RawOutcome(THROTTLED) == Err(APIError(429, 0));
  }

  // Without room for jitter a retry can follow its attempt at once.
  lemma {:induction false} OverflowingStep<S(!new)>(cfg: Settings, effect: S -> S, s: State<S>, e: Event<S>)
    requires s.phase.Attempting? && s.phase.n < cfg.Budget() && !CapLeavesRoomForJitter(cfg.retryMaxWait)
    requires e == Exchange(THROTTLED_FOR_CENTURIES, 0, MAX_RETRY_JITTER - 1, s.server)
    ensures var s' := Next(cfg, s, e);
            && Enabled(effect, s, e) && Enabled(effect, s', TimerFired(0))
            && s'.phase.Waiting? && s'.server == s.server && s'.clock == s.clock
            && var s'' := Next(cfg, s', TimerFired(0));
               s''.phase == Attempting(s.phase.n + 1) && s''.server == s.server && s''.clock == s.clock
  {
    EveryWaitCanOverflow(cfg.retryMaxWait, s.phase.n);
  }

  // All attempts then fall at one instant.
  lemma {:induction false} OverflowingPrefix<S(!new)>(
      cfg: Settings, effect: S -> S, server: S, clock: int, deadline: int, n: nat)
    returns (events: seq<Event<S>>)
    requires n <= cfg.Budget() && clock < deadline && !CapLeavesRoomForJitter(cfg.retryMaxWait)
    ensures var start := Start(cfg, server, clock);
            && IsRun(cfg, effect, start, events) && ThrottledOnlyBefore(cfg, effect, start, deadline, events)
            && var f := Final(cfg, effect, start, events);
               f.phase == Attempting(n) && f.server == server && f.clock == clock
  {
    var start := Start(cfg, server, clock);
    if n == 0 {
      events := [];
    } else {
      var before := OverflowingPrefix(cfg, effect, server, clock, deadline, n - 1);
      var e: Event<S> := Exchange(THROTTLED_FOR_CENTURIES, 0, MAX_RETRY_JITTER - 1, server);
      OverflowingStep(cfg, effect, Final(cfg, effect, start, before), e);
      ThrottledSnoc(cfg, effect, start, deadline, before, e);
      ThrottledSnoc(cfg, effect, start, deadline, before + [e], TimerFired(0));
      events := before + [e] + [TimerFired(0)];
    }
  }

  lemma {:induction false} OverflowingRun<S(!new)>(cfg: Settings, effect: S -> S, server: S, clock: int, deadline: int)
    returns (events: seq<Event<S>>)
    requires cfg.Budget() >= 0 && clock < deadline && !CapLeavesRoomForJitter(cfg.retryMaxWait)
    ensures IsRun(cfg, effect, Start(cfg, server, clock), events)
    ensures ThrottledOnlyBefore(cfg, effect, Start(cfg, server, clock), deadline, events)
    ensures EndsThrottled(Final(cfg, effect, Start(cfg, server, clock), events))
  {
    var before := OverflowingPrefix(cfg, effect, server, clock, deadline, cfg.Budget());
    var e: Event<S> := Exchange(THROTTLED, 0, 0, server);
    assert RawOutcome(THROTTLED) == Err(APIError(429, 0));
    ThrottledSnoc(cfg, effect, Start(cfg, server, clock), deadline, before, e);
    events := before + [e];
  }

  // ----- Attempts -----

  // A bound on the attempts of a call holds for all its runs exactly from the
  // budget plus one on: every retry can be needed.
  lemma {:induction false} AttemptsExactly<S(!new)>(cfg: Settings, effect: S -> S, server: S, clock: int, n: int)
    requires cfg.Budget() >= 0
    ensures (forall events :: IsRun(cfg, effect, Start(cfg, server, clock), events) ==>
               |Final(cfg, effect, Start(cfg, server, clock), events).outcomes| <= n) <==>
            cfg.Budget() + 1 <= n
  {
    var start := Start(cfg, server, clock);
    forall events | IsRun(cfg, effect, start, events)
      ensures |Final(cfg, effect, start, events).outcomes| <= cfg.Budget() + 1
    {
      RunSafety(cfg, effect, server, clock, events);
    }
    var events := UnluckyRun(cfg, effect, server, clock, BackoffSum(cfg.retryMaxWait, cfg.Budget()) + 1);
    RunSafety(cfg, effect, server, clock, events);
    assert |Final(cfg, effect, start, events).outcomes| == cfg.Budget() + 1;
  }

  // ----- Total time -----

  // No delay but the attempts and the waits themselves: attempts respect the
  // request timeout and timers fire on time, at once if the wait overflowed.
  ghost predicate Punctual<S(!new)>(cfg: Settings, effect: S -> S, s: State<S>, events: seq<Event<S>>)
    requires IsRun(cfg, effect, s, events)
    decreases |events|
  {
    events == [] ||
    (&& match events[0] {
        case Exchange(_, took, _, _) => took <= cfg.requestTimeout
        case TimerFired(took) => s.phase.Waiting? ==> took == Max(s.phase.wait, 0)
        case ContextDone(took) => s.phase.Waiting? ==> took <= Max(s.phase.wait, 0)
      }
     && Punctual(cfg, effect, Next(cfg, s, events[0]), events[1..]))
  }

  // Waits begun, completed or not.
  function WaitsBegun<S>(s: State<S>): int
  {
    |s.waits| + (if s.phase.Done? && s.phase.result == Err(ContextError) then 1 else 0)
  }

  ghost predicate Bounded<S>(cfg: Settings, start: int, s: State<S>)
  {
    s.clock <= start + |s.outcomes| * cfg.requestTimeout + WaitsBegun(s) * LongestWait(cfg)
  }

  lemma {:induction false} BoundedRun<S(!new)>(
      cfg: Settings, effect: S -> S, start: int, s: State<S>, events: seq<Event<S>>)
    requires cfg.requestTimeout >= 0
    requires ClockInv(cfg, start, s) && Bounded(cfg, start, s)
    requires IsRun(cfg, effect, s, events) && Punctual(cfg, effect, s, events)
    ensures Bounded(cfg, start, Final(cfg, effect, s, events))
    decreases |events|
  {
    if events != [] {
      var s' := Next(cfg, s, events[0]);
      ClockStep(cfg, effect, start, s, events[0]);
      BoundedStep(cfg, start, s, events[0]);
      BoundedRun(cfg, effect, start, s', events[1..]);
    }
  }

  lemma {:induction false} BoundedStep<S(!new)>(cfg: Settings, start: int, s: State<S>, e: Event<S>)
    requires !s.phase.Done?
    requires s.phase.Attempting? ==> e.Exchange? && e.took <= cfg.requestTimeout
    requires s.phase.Waiting? ==> !e.Exchange? && e.took <= Max(s.phase.wait, 0)
    requires ClockInv(cfg, start, s) && Bounded(cfg, start, s)
    ensures Bounded(cfg, start, Next(cfg, s, e))
  {
    var s' := Next(cfg, s, e);
    var t, w := cfg.requestTimeout, LongestWait(cfg);
    if s.phase.Attempting? {
      assert WaitsBegun(s') == WaitsBegun(s);
      MulSucc(|s.outcomes|, t);
    } else {
      var ws := s.waits + [s.phase.wait];
      assert ws[|s.waits|] <= w;
      assert WaitsBegun(s') == WaitsBegun(s) + 1;
      MulSucc(WaitsBegun(s), w);
    }
  }

  // A run's completed waits total less than their number times the cap plus two
  // seconds, when there is any, and at least the backoff sum over them if the
  // cap leaves room for jitter.
  lemma {:induction false} TotalWait<S(!new)>(cfg: Settings, effect: S -> S, server: S, clock: int, events: seq<Event<S>>)
    requires cfg.Budget() >= 0
    requires IsRun(cfg, effect, Start(cfg, server, clock), events)
    ensures var f := Final(cfg, effect, Start(cfg, server, clock), events);
            var k := |f.waits|;
            && k <= cfg.Budget()
            && (CapLeavesRoomForJitter(cfg.retryMaxWait) ==> BackoffSum(cfg.retryMaxWait, k) <= Sum(f.waits))
            && Sum(f.waits) <= f.clock - clock
            && (k > 0 ==> Sum(f.waits) < k * (EffectiveCap(cfg.retryMaxWait) + MAX_RETRY_JITTER))
  {
    var start := Start(cfg, server, clock);
    var f := Final(cfg, effect, start, events);
    InvRun(cfg, effect, start, start, events);
    ClockRun(cfg, effect, clock, start, events);
    WaitsAddUp(cfg, f.waits);
    MulSuccRight(|f.waits|, LongestWait(cfg));
  }

  lemma {:induction false} TimeBound(attempts: nat, waits: nat, k: nat, t: nat, w: nat)
    requires attempts <= k + 1 && waits <= k
    ensures attempts * t + waits * w <= k * (w + 1) + (k + 1) * t
    ensures k > 0 ==> attempts * t + waits * w < k * (w + 1) + (k + 1) * t
  {
    MulMonotone(attempts, k + 1, t);
    MulMonotone(waits, k, w);
    MulSucc(w, k);
    assert k * (w + 1) == (w + 1) * k && k * w == w * k;
  }

  // With a positive request timeout the whole call is bounded: one timeout for
  // each attempt and one longest wait for each retry.
  lemma {:induction false} TotalTime<S(!new)>(cfg: Settings, effect: S -> S, server: S, clock: int, events: seq<Event<S>>)
    requires cfg.Budget() >= 0 && cfg.requestTimeout > 0
    requires IsRun(cfg, effect, Start(cfg, server, clock), events)
    requires Punctual(cfg, effect, Start(cfg, server, clock), events)
    ensures var k := cfg.Budget();
            var elapsed := Final(cfg, effect, Start(cfg, server, clock), events).clock - clock;
            var bound := k * (EffectiveCap(cfg.retryMaxWait) + MAX_RETRY_JITTER) + (k + 1) * cfg.requestTimeout;
            elapsed <= bound && (k > 0 ==> elapsed < bound)
  {
    var start := Start(cfg, server, clock);
    var f := Final(cfg, effect, start, events);
    InvRun(cfg, effect, start, start, events);
    BoundedRun(cfg, effect, clock, start, events);
    TimeBound(|f.outcomes|, WaitsBegun(f), cfg.Budget(), cfg.requestTimeout, LongestWait(cfg));
  }
}
