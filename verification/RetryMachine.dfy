// The retry loop of retry.go as a labelled transition system. The server, the
// clock, the random draws and the caller's context are free: every reply, delay
// and cancellation the environment can choose is an event.
module RetryMachine {
  import opened Durations
  import opened Backoff

  // ----- One round trip -----

  datatype RoundTrip = Response(status: int, retryAfter: string, body: string) | NoResponse

  datatype Failure =
    | APIError(status: int, retryAfter: Duration)
    | TransportError
    | ContextError
    | NoAttempts(budget: int)

  datatype Outcome = Ok(body: string) | Err(failure: Failure)

  // An outcome of a round trip, as opposed to one of the loop around it.
  predicate FromRoundTrip(o: Outcome)
  {
    o.Ok? || o.failure.APIError? || o.failure.TransportError?
  }

  // What rawRequest returns; Retry-After is read on a 429 only.
  function RawOutcome(rt: RoundTrip): (o: Outcome)
    ensures FromRoundTrip(o)
  {
    match rt
    case NoResponse => Err(TransportError)
    case Response(status, header, body) =>
      if status < 200 || status >= 300 then
        Err(APIError(status, if status == 429 then ParseRetryAfter(header) else 0))
      else
        Ok(body)
  }

  predicate IsRateLimited(o: Outcome)
  {
    o.Err? && o.failure.APIError? && o.failure.status == 429
  }

  // Throttled requests are refused before they act (section 4 of RFC 6585) and
  // accepted ones act once; after any other failure the client cannot know.
  ghost predicate ServerMay<S(!new)>(effect: S -> S, before: S, o: Outcome, after: S)
  {
    if o.Ok? then after == effect(before)
    else if IsRateLimited(o) then after == before
    else after == before || after == effect(before)
  }

  // ----- States and events -----

  datatype Settings = Settings(
    retryEnabled: bool, maxRetries: int, retryMaxWait: Duration, requestTimeout: Duration)
  {
    // Retries allowed after the first attempt.
    function Budget(): int { if retryEnabled then maxRetries else 0 }
  }

  datatype Phase = Attempting(n: nat) | Waiting(n: nat, wait: Duration) | Done(result: Outcome)

  datatype State<S> = State(phase: Phase, server: S, clock: int, outcomes: seq<Outcome>, waits: seq<int>)

  datatype Event<S> =
    | Exchange(rt: RoundTrip, took: nat, random: nat, after: S)
    | TimerFired(took: nat)
    | ContextDone(took: nat)

  function Start<S>(cfg: Settings, server: S, clock: int): State<S>
  {
    State(if cfg.Budget() < 0 then Done(Err(NoAttempts(cfg.maxRetries))) else Attempting(0), server, clock, [], [])
  }

  // A timer may fire late but not early; the context may end a wait any time.
  ghost predicate Enabled<S(!new)>(effect: S -> S, s: State<S>, e: Event<S>)
  {
    match s.phase
    case Attempting(_) => e.Exchange? && ServerMay(effect, s.server, RawOutcome(e.rt), e.after)
    case Waiting(_, wait) => (e.TimerFired? && wait <= e.took) || e.ContextDone?
    case Done(_) => false
  }

  function Next<S(!new)>(cfg: Settings, s: State<S>, e: Event<S>): State<S>
    requires s.phase.Attempting? ==> e.Exchange?
    requires s.phase.Waiting? ==> !e.Exchange?
  {
    match s.phase
    case Attempting(n) =>
      var o := RawOutcome(e.rt);
      var s' := s.(server := e.after, clock := s.clock + e.took, outcomes := s.outcomes + [o]);
      if !IsRateLimited(o) || n == cfg.Budget() then
        s'.(phase := Done(o))
      else
        s'.(phase := Waiting(n, RetryWait(cfg.retryMaxWait, n, o.failure.retryAfter, e.random)))
    case Waiting(n, wait) =>
      var s' := s.(clock := s.clock + e.took);
      if e.TimerFired? then s'.(phase := Attempting(n + 1), waits := s.waits + [wait])
      else s'.(phase := Done(Err(ContextError)))
    case Done(_) => s
  }

  ghost predicate IsRun<S(!new)>(cfg: Settings, effect: S -> S, s: State<S>, events: seq<Event<S>>)
    decreases |events|
  {
    events == [] ||
    (Enabled(effect, s, events[0]) && IsRun(cfg, effect, Next(cfg, s, events[0]), events[1..]))
  }

  ghost function Final<S(!new)>(cfg: Settings, effect: S -> S, s: State<S>, events: seq<Event<S>>): State<S>
    requires IsRun(cfg, effect, s, events)
    decreases |events|
  {
    if events == [] then s else Final(cfg, effect, Next(cfg, s, events[0]), events[1..])
  }

  lemma {:induction false} RunSnoc<S(!new)>(
      cfg: Settings, effect: S -> S, s: State<S>, events: seq<Event<S>>, e: Event<S>)
    requires IsRun(cfg, effect, s, events)
    requires Enabled(effect, Final(cfg, effect, s, events), e)
    ensures IsRun(cfg, effect, s, events + [e])
    ensures Final(cfg, effect, s, events + [e]) == Next(cfg, Final(cfg, effect, s, events), e)
    decreases |events|
  {
    if events == [] {
      assert [e][1..] == [];
    } else {
      RunSnoc(cfg, effect, Next(cfg, s, events[0]), events[1..], e);
      assert (events + [e])[1..] == events[1..] + [e];
    }
  }

  // ----- The invariant of every reachable state -----

  ghost predicate AllRateLimited(os: seq<Outcome>)
  {
    forall i :: 0 <= i < |os| ==> IsRateLimited(os[i])
  }

  ghost predicate Inv<S(!new)>(cfg: Settings, effect: S -> S, start: State<S>, s: State<S>)
  {
    && |s.outcomes| <= Max(0, cfg.Budget() + 1)
    && match s.phase
       case Attempting(n) =>
         && n <= cfg.Budget()
         && |s.outcomes| == n == |s.waits|
         && AllRateLimited(s.outcomes)
         && s.server == start.server
       case Waiting(n, _) =>
         && n < cfg.Budget()
         && |s.outcomes| == n + 1 && |s.waits| == n
         && AllRateLimited(s.outcomes)
         && s.server == start.server
       case Done(r) =>
         if cfg.Budget() < 0 then
           s == start && r == Err(NoAttempts(cfg.maxRetries))
         else if AllRateLimited(s.outcomes) && |s.outcomes| <= cfg.Budget() then
           |s.waits| + 1 == |s.outcomes| && r == Err(ContextError) && s.server == start.server
         else
           && |s.waits| + 1 == |s.outcomes|
           && AllRateLimited(s.outcomes[..|s.waits|])
           && r == s.outcomes[|s.waits|] && FromRoundTrip(r)
           && (IsRateLimited(r) ==> |s.outcomes| == cfg.Budget() + 1)
           && ServerMay(effect, start.server, r, s.server)
  }

  lemma {:induction false} InvStep<S(!new)>(cfg: Settings, effect: S -> S, start: State<S>, s: State<S>, e: Event<S>)
    requires Inv(cfg, effect, start, s) && Enabled(effect, s, e)
    ensures Inv(cfg, effect, start, Next(cfg, s, e))
  {
    var s' := Next(cfg, s, e);
    if s.phase.Attempting? {
      var o := RawOutcome(e.rt);
      assert s'.outcomes == s.outcomes + [o];
      assert s'.outcomes[..|s.waits|] == s.outcomes;
      assert s'.outcomes[|s.waits|] == o;
    }
  }

  lemma {:induction false} InvRun<S(!new)>(
      cfg: Settings, effect: S -> S, start: State<S>, s: State<S>, events: seq<Event<S>>)
    requires Inv(cfg, effect, start, s) && IsRun(cfg, effect, s, events)
    ensures Inv(cfg, effect, start, Final(cfg, effect, s, events))
    decreases |events|
  {
    if events != [] {
      InvStep(cfg, effect, start, s, events[0]);
      InvRun(cfg, effect, start, Next(cfg, s, events[0]), events[1..]);
    }
  }

  // ----- Safety of whole runs -----

  // At most Budget() + 1 attempts; every attempt but the last was throttled;
  // the result is the first other outcome, the last throttling, or the
  // cancellation of a wait.
  lemma {:induction false} RunSafety<S(!new)>(cfg: Settings, effect: S -> S, server: S, clock: int, events: seq<Event<S>>)
    requires cfg.Budget() >= 0
    requires IsRun(cfg, effect, Start(cfg, server, clock), events)
    ensures var f := Final(cfg, effect, Start(cfg, server, clock), events);
            && |f.outcomes| <= cfg.Budget() + 1
            && (forall i :: 0 <= i < |f.outcomes| - 1 ==> IsRateLimited(f.outcomes[i]))
            && (f.phase.Done? ==>
                  && |f.outcomes| >= 1
                  && (f.phase.result == f.outcomes[|f.outcomes| - 1] || f.phase.result == Err(ContextError))
                  && (IsRateLimited(f.phase.result) ==> |f.outcomes| == cfg.Budget() + 1)
                  && (f.phase.result != f.outcomes[|f.outcomes| - 1] ==> AllRateLimited(f.outcomes)))
  {
    var start := Start(cfg, server, clock);
    InvRun(cfg, effect, start, start, events);
  }

  // The request acts at most once, once if the caller is told it succeeded,
  // and not at all if the caller is told it was throttled or cancelled while waiting.
  lemma {:induction false} AtMostOnceEffect<S(!new)>(cfg: Settings, effect: S -> S, server: S, clock: int, events: seq<Event<S>>)
    requires IsRun(cfg, effect, Start(cfg, server, clock), events)
    ensures var f := Final(cfg, effect, Start(cfg, server, clock), events);
            && (f.server == server || f.server == effect(server))
            && (!f.phase.Done? ==> f.server == server)
            && (f.phase.Done? && f.phase.result.Ok? ==> f.server == effect(server))
            && (f.phase.Done? && (IsRateLimited(f.phase.result) || f.phase.result == Err(ContextError)) ==>
                  f.server == server)
  {
    var start := Start(cfg, server, clock);
    InvRun(cfg, effect, start, start, events);
  }

  // A run that is not finished can always go on, and no run is longer than
  // twice the budget plus one.
  lemma {:induction false} RunsTerminate<S(!new)>(cfg: Settings, effect: S -> S, server: S, clock: int, events: seq<Event<S>>)
    requires cfg.Budget() >= 0
    requires IsRun(cfg, effect, Start(cfg, server, clock), events)
    ensures |events| <= 2 * cfg.Budget() + 1
    ensures var f := Final(cfg, effect, Start(cfg, server, clock), events);
            f.phase.Done? <==> forall e :: !Enabled(effect, f, e)
  {
    var start := Start(cfg, server, clock);
    InvRun(cfg, effect, start, start, events);
    EventCount(cfg, effect, start, start, events);
    var f := Final(cfg, effect, start, events);
    if !f.phase.Done? {
      var e := if f.phase.Attempting? then Exchange(NoResponse, 0, 0, f.server) else ContextDone(0);
      assert Enabled(effect, f, e);
    }
  }

  // Events used so far, by phase.
  function Used<S>(s: State<S>): int
  {
    |s.outcomes| + |s.waits| + (if s.phase.Done? && s.phase.result == Err(ContextError) then 1 else 0)
  }

  lemma {:induction false} EventCount<S(!new)>(
      cfg: Settings, effect: S -> S, start: State<S>, s: State<S>, events: seq<Event<S>>)
    requires Inv(cfg, effect, start, s) && IsRun(cfg, effect, s, events)
    ensures Used(s) + |events| == Used(Final(cfg, effect, s, events))
    decreases |events|
  {
    if events != [] {
      InvStep(cfg, effect, start, s, events[0]);
      EventCount(cfg, effect, start, Next(cfg, s, events[0]), events[1..]);
    }
  }
}
