// The client object: its options, its construction (firezone.go) and the retry
// loop it runs (retry.go).
module Clients {
  import opened Durations
  import opened Backoff
  import opened RetryMachine
  import opened RetryBudget
  import opened ByteStrings
  import opened Paths

  // The HTTP client private to the SDK, or one the caller supplied.
  datatype HTTPClient = PrivateHTTPClient | SuppliedHTTPClient(id: nat)

  datatype HTTPClientRef = Nil | Ref(hc: HTTPClient)

  datatype Option =
    | WithHTTPClient(client: HTTPClientRef)
    | WithUserAgent(ua: Bytes)
    | WithRequestTimeout(d: Duration)
    | WithRetry(enabled: bool, maxRetries: int)
    | WithRetryMaxWait(cap: Duration)

  datatype BuildError =
    | BadScheme | MissingHost | HasQuery | HasFragment
    | NilHTTPClient | EmptyUserAgent | NegativeTimeout(d: Duration) | NegativeBudget(budget: int)

  datatype Check = Accepted | Refused(error: BuildError)

  const DEFAULT_REQUEST_TIMEOUT: Duration := 30 * SECOND
  const DEFAULT_MAX_RETRIES: int := 10

  function CheckBaseURL(u: URL): Check
  {
    if u.scheme != "http" && u.scheme != "https" then Refused(BadScheme)
    else if u.host == "" then Refused(MissingHost)
    else if u.rawQuery != "" || u.forceQuery then Refused(HasQuery)
    else if u.fragment != "" then Refused(HasFragment)
    else Accepted
  }

  // ----- Options as functions of the client's fields -----

  datatype Fields = Fields(
    baseURL: URL, token: Bytes, httpClient: HTTPClientRef, userAgent: Bytes, retry: Settings)

  function Defaults(baseURL: URL, token: Bytes, defaultUserAgent: Bytes): Fields
  {
    Fields(baseURL, token, Ref(PrivateHTTPClient), defaultUserAgent,
           Settings(true, DEFAULT_MAX_RETRIES, 0, DEFAULT_REQUEST_TIMEOUT))
  }

  function CheckOption(opt: Option): Check
  {
    match opt
    case WithHTTPClient(client) => if client.Nil? then Refused(NilHTTPClient) else Accepted
    case WithUserAgent(ua) => if ua == "" then Refused(EmptyUserAgent) else Accepted
    case WithRequestTimeout(d) => if d < 0 then Refused(NegativeTimeout(d)) else Accepted
    case WithRetry(_, n) => if n < 0 then Refused(NegativeBudget(n)) else Accepted
    case WithRetryMaxWait(_) => Accepted
  }

  function Applied(f: Fields, opt: Option): Fields
  {
    match opt
    case WithHTTPClient(client) => f.(httpClient := client)
    case WithUserAgent(ua) => f.(userAgent := ua)
    case WithRequestTimeout(d) => f.(retry := f.retry.(requestTimeout := d))
    case WithRetry(enabled, n) => f.(retry := f.retry.(retryEnabled := enabled, maxRetries := n))
    case WithRetryMaxWait(cap) => f.(retry := f.retry.(retryMaxWait := cap))
  }

  function AppliedAll(f: Fields, opts: seq<Option>): Fields
  {
    if opts == [] then f else Applied(AppliedAll(f, opts[..|opts| - 1]), opts[|opts| - 1])
  }

  // What an option must not be given, and what it does to a client that
  // accepted it.
  lemma {:induction false} AcceptedExactly(u: URL, opt: Option)
    ensures CheckBaseURL(u).Accepted? <==>
              u.scheme in ["http", "https"] && u.host != "" && u.rawQuery == "" && !u.forceQuery && u.fragment == ""
    ensures CheckOption(opt).Refused? <==>
              || opt == WithHTTPClient(Nil)
              || opt == WithUserAgent("")
              || (opt.WithRequestTimeout? && opt.d < 0)
              || (opt.WithRetry? && opt.maxRetries < 0)
  {}

  // An option is the last word on its own field: what came before it about that
  // field is forgotten, and nothing else is.
  lemma {:induction false} LastOptionOfItsKindWins(f: Fields, opts: seq<Option>, opt: Option, k: nat)
    requires k < |opts| && SameKind(opts[k], opt)
    ensures Applied(AppliedAll(f, opts), opt) == Applied(AppliedAll(f, opts[..k] + opts[k + 1..]), opt)
    decreases |opts|
  {
    var n := |opts| - 1;
    if k == n {
      assert opts[..k] + opts[k + 1..] == opts[..n];
    } else {
      var init, rest := opts[..n], opts[..k] + opts[k + 1..];
      assert init[..k] + init[k + 1..] == rest[..|rest| - 1] && rest[|rest| - 1] == opts[n];
      LastOptionOfItsKindWins(f, init, opt, k);
    }
  }

  predicate SameKind(a: Option, b: Option)
  {
    match a
    case WithHTTPClient(_) => b.WithHTTPClient?
    case WithUserAgent(_) => b.WithUserAgent?
    case WithRequestTimeout(_) => b.WithRequestTimeout?
    case WithRetry(_, _) => b.WithRetry?
    case WithRetryMaxWait(_) => b.WithRetryMaxWait?
  }

  // What every client NewClient returns satisfies.
  predicate Sound(f: Fields)
  {
    && f.httpClient.Ref?
    && f.userAgent != ""
    && f.retry.maxRetries >= 0
    && f.retry.requestTimeout >= 0
    && CheckBaseURL(f.baseURL).Accepted?
  }

  lemma {:induction false} AcceptedOptionsKeepSound(f: Fields, opts: seq<Option>)
    requires Sound(f)
    requires forall i :: 0 <= i < |opts| ==> CheckOption(opts[i]).Accepted?
    ensures Sound(AppliedAll(f, opts))
    ensures AppliedAll(f, opts).baseURL == f.baseURL && AppliedAll(f, opts).token == f.token
  {
    if opts != [] {
      AcceptedOptionsKeepSound(f, opts[..|opts| - 1]);
    }
  }

  // ----- The environment of one call -----

  // One choice of everything a call cannot control, indexed by attempt: replies
  // and how long they take, what a reply without a verdict did, raw random
  // draws, timer lateness, and whether the context ends a wait.
  datatype Environment = Environment(
    reply: nat -> RoundTrip,
    took: nat -> nat,
    acted: nat -> bool,
    random: nat -> nat,
    late: nat -> nat,
    cancelled: nat -> bool)

  ghost function ServerAfter<S(!new)>(effect: S -> S, before: S, o: Outcome, acted: bool): (after: S)
    ensures ServerMay(effect, before, o, after)
  {
    if o.Ok? then effect(before)
    else if IsRateLimited(o) || !acted then before
    else effect(before)
  }

  // A run from its start, together with the state it has reached.
  ghost predicate Reached<S(!new)>(
      cfg: Settings, effect: S -> S, start: State<S>, events: seq<Event<S>>, current: State<S>)
  {
    IsRun(cfg, effect, start, events) && Final(cfg, effect, start, events) == current
  }

  // The outcome a call reaches from attempt n on: the first reply that is not
  // a 429, the last 429, or the cancellation of a wait.
  function Played(cfg: Settings, env: Environment, n: nat): Outcome
    requires n <= cfg.Budget()
    decreases cfg.Budget() - n
  {
    var o := RawOutcome(env.reply(n));
    if !IsRateLimited(o) || n == cfg.Budget() then o
    else if env.cancelled(n) then Err(ContextError)
    else Played(cfg, env, n + 1)
  }

  // ----- What a call returns, in terms of statuses -----

  predicate Is429(rt: RoundTrip) { rt.Response? && rt.status == 429 }

  predicate Is2xx(rt: RoundTrip) { rt.Response? && 200 <= rt.status <= 299 }

  // Every attempt before n was throttled and its wait ran out.
  ghost predicate RetriedUpTo(env: Environment, n: nat)
  {
    forall k: nat :: k < n ==> Is429(env.reply(k)) && !env.cancelled(k)
  }

  // o is what a call with this many retries has to return.
  ghost predicate Answers(env: Environment, budget: int, o: Outcome)
  {
    match o
    case Ok(body) =>
      exists n: nat :: n <= budget && RetriedUpTo(env, n) && Is2xx(env.reply(n)) && env.reply(n).body == body
    case Err(APIError(429, retryAfter)) =>
      budget >= 0 && RetriedUpTo(env, budget) && Is429(env.reply(budget))
      && retryAfter == ParseRetryAfter(env.reply(budget).retryAfter)
    case Err(APIError(status, retryAfter)) =>
      exists n: nat :: n <= budget && RetriedUpTo(env, n) && env.reply(n).Response? && !Is2xx(env.reply(n))
                       && env.reply(n).status == status && retryAfter == 0
    case Err(TransportError) =>
      exists n: nat :: n <= budget && RetriedUpTo(env, n) && env.reply(n).NoResponse?
    case Err(ContextError) =>
      exists n: nat :: n < budget && RetriedUpTo(env, n) && Is429(env.reply(n)) && env.cancelled(n)
    case Err(NoAttempts(_)) => false
  }

  // The attempt that decides a call.
  ghost predicate Decides(env: Environment, budget: int, n: nat)
  {
    n <= budget && RetriedUpTo(env, n) && (!Is429(env.reply(n)) || n == budget || env.cancelled(n))
  }

  // What the deciding attempt makes the call return.
  function Verdict(env: Environment, budget: int, n: nat): Outcome
  {
    match env.reply(n)
    case NoResponse => Err(TransportError)
    case Response(status, header, body) =>
      if 200 <= status <= 299 then Ok(body)
      else if status != 429 then Err(APIError(status, 0))
      else if n == budget then Err(APIError(429, ParseRetryAfter(header)))
      else Err(ContextError)
  }

  lemma {:induction false} DecidingAttempt(cfg: Settings, env: Environment, from: nat) returns (n: nat)
    requires from <= cfg.Budget() && RetriedUpTo(env, from)
    ensures Decides(env, cfg.Budget(), n)
    ensures Played(cfg, env, from) == Verdict(env, cfg.Budget(), n)
    decreases cfg.Budget() - from
  {
    n := from;
    if Is429(env.reply(from)) && from != cfg.Budget() && !env.cancelled(from) {
      n := DecidingAttempt(cfg, env, from + 1);
    }
  }

  lemma {:induction false} OneAttemptDecides(env: Environment, budget: int, m: nat, n: nat)
    requires Decides(env, budget, m) && RetriedUpTo(env, n) && n <= budget
    ensures n <= m
    ensures Decides(env, budget, n) ==> n == m
  {}

  lemma {:induction false} VerdictAnswers(env: Environment, budget: int, n: nat)
    requires Decides(env, budget, n)
    ensures Answers(env, budget, Verdict(env, budget, n))
  {}

  lemma {:induction false} AnswersAreTheVerdict(env: Environment, budget: int, n: nat, o: Outcome)
    requires Decides(env, budget, n) && Answers(env, budget, o)
    ensures o == Verdict(env, budget, n)
  {
    match o
    case Ok(body) =>
      var m: nat :| m <= budget && RetriedUpTo(env, m) && Is2xx(env.reply(m)) && env.reply(m).body == body;
      OneAttemptDecides(env, budget, n, m);
    case Err(APIError(429, _)) =>
      OneAttemptDecides(env, budget, n, budget);
    case Err(APIError(status, _)) =>
      var m: nat :| m <= budget && RetriedUpTo(env, m) && env.reply(m).Response? && !Is2xx(env.reply(m))
                    && env.reply(m).status == status;
      OneAttemptDecides(env, budget, n, m);
    case Err(TransportError) =>
      var m: nat :| m <= budget && RetriedUpTo(env, m) && env.reply(m).NoResponse?;
      OneAttemptDecides(env, budget, n, m);
    case Err(ContextError) =>
      var m: nat :| m < budget && RetriedUpTo(env, m) && Is429(env.reply(m)) && env.cancelled(m);
      OneAttemptDecides(env, budget, n, m);
  }

  // A call returns a body exactly when that is the body of the first 2xx reply
  // it waited for, an error exactly when its status is neither 2xx nor 429 and
  // ended the call, a 429 exactly when every attempt got one, and so on.
  lemma {:induction false} PlayedExactly(cfg: Settings, env: Environment, o: Outcome)
    requires cfg.Budget() >= 0
    ensures Played(cfg, env, 0) == o <==> Answers(env, cfg.Budget(), o)
  {
    var n := DecidingAttempt(cfg, env, 0);
    VerdictAnswers(env, cfg.Budget(), n);
    if Answers(env, cfg.Budget(), o) {
      AnswersAreTheVerdict(env, cfg.Budget(), n, o);
    }
  }

  // What a caller is handed, in any case.
  ghost predicate Answered(cfg: Settings, env: Environment, o: Outcome)
  {
    if cfg.Budget() < 0 then o == Err(NoAttempts(cfg.maxRetries)) else Answers(env, cfg.Budget(), o)
  }

  // The result of a call.
  function Result(cfg: Settings, env: Environment): (o: Outcome)
    ensures Answered(cfg, env, o)
  {
    if cfg.Budget() < 0 then Err(NoAttempts(cfg.maxRetries))
    else
      PlayedExactly(cfg, env, Played(cfg, env, 0));
      Played(cfg, env, 0)
  }

  // ----- Every run is played by some environment -----

  // Attempts and waits alternate, so attempt n is event 2n. This environment
  // replies as the run records, and ends a wait if the run does.
  function EnvironmentOf<S>(events: seq<Event<S>>): Environment
  {
    Environment(
      (n: nat) => if 2 * n < |events| && events[2 * n].Exchange? then events[2 * n].rt else NoResponse,
      n => 0, n => false, n => 0, n => 0,
      (n: nat) => 2 * n + 1 < |events| && events[2 * n + 1].ContextDone?)
  }

  // Conversely to the method: the result of every finished run is what a call
  // returns in the environment that replies and cancels as the run records.
  lemma {:induction false} RunsArePlayed<S(!new)>(
      cfg: Settings, effect: S -> S, server: S, clock: int, events: seq<Event<S>>)
    requires cfg.Budget() >= 0
    requires IsRun(cfg, effect, Start(cfg, server, clock), events)
    requires Final(cfg, effect, Start(cfg, server, clock), events).phase.Done?
    ensures Final(cfg, effect, Start(cfg, server, clock), events).phase.result == Played(cfg, EnvironmentOf(events), 0)
  {
    assert events[0..] == events;
    PlayedFrom(cfg, effect, Start(cfg, server, clock), events, 0);
  }

  // The same from the state before event k on.
  lemma {:induction false} PlayedFrom<S(!new)>(
      cfg: Settings, effect: S -> S, s: State<S>, events: seq<Event<S>>, k: nat)
    requires k <= |events| && IsRun(cfg, effect, s, events[k..])
    requires Final(cfg, effect, s, events[k..]).phase.Done?
    requires s.phase.Attempting? ==> k == 2 * s.phase.n && s.phase.n <= cfg.Budget()
    requires s.phase.Waiting? ==> k == 2 * s.phase.n + 1 && s.phase.n < cfg.Budget()
    ensures Final(cfg, effect, s, events[k..]).phase.result ==
            match s.phase
            case Attempting(n) => Played(cfg, EnvironmentOf(events), n)
            case Waiting(n, _) =>
              if EnvironmentOf(events).cancelled(n) then Err(ContextError)
              else Played(cfg, EnvironmentOf(events), n + 1)
            case Done(r) => r
    decreases |events| - k
  {
    if !s.phase.Done? {
      assert events[k..][0] == events[k] && events[k..][1..] == events[k + 1..];
      PlayedFrom(cfg, effect, Next(cfg, s, events[k]), events, k + 1);
    }
  }

  class Client {
    var baseURL: URL
    var token: Bytes
    var httpClient: HTTPClientRef
    var userAgent: Bytes
    var requestTimeout: Duration
    var retryEnabled: bool
    var maxRetries: int
    var retryMaxWait: Duration

    function AsFields(): Fields
      reads this
    {
      Fields(baseURL, token, httpClient, userAgent,
             Settings(retryEnabled, maxRetries, retryMaxWait, requestTimeout))
    }

    constructor (baseURL: URL, token: Bytes, defaultUserAgent: Bytes)
      ensures AsFields() == Defaults(baseURL, token, defaultUserAgent)
    {
      this.baseURL := baseURL;
      this.token := token;
      httpClient := Ref(PrivateHTTPClient);
      userAgent := defaultUserAgent;
      requestTimeout := DEFAULT_REQUEST_TIMEOUT;
      retryEnabled := true;
      maxRetries := DEFAULT_MAX_RETRIES;
      retryMaxWait := 0;
    }

    // An option that reports an error leaves the client as it was.
    method Apply(opt: Option) returns (check: Check)
      modifies this
      ensures check == CheckOption(opt)
      ensures AsFields() == if check.Accepted? then Applied(old(AsFields()), opt) else old(AsFields())
    {
      check := Accepted;
      match opt {
        case WithHTTPClient(client) =>
          if client.Nil? {
            return Refused(NilHTTPClient);
          }
          httpClient := client;
        case WithUserAgent(ua) =>
          if ua == "" {
            return Refused(EmptyUserAgent);
          }
          userAgent := ua;
        case WithRequestTimeout(d) =>
          if d < 0 {
            return Refused(NegativeTimeout(d));
          }
          requestTimeout := d;
        case WithRetry(enabled, n) =>
          if n < 0 {
            return Refused(NegativeBudget(n));
          }
          retryEnabled := enabled;
          maxRetries := n;
        case WithRetryMaxWait(cap) =>
          retryMaxWait := cap;
      }
    }

    // One round trip of the environment, taking the run one event further.
    method RawRequest<S(!new)>(
        env: Environment, n: nat, ghost cfg: Settings, ghost effect: S -> S, ghost start: State<S>,
        ghost before: seq<Event<S>>, ghost current: State<S>)
      returns (o: Outcome, ghost after: seq<Event<S>>, ghost next: State<S>)
      requires Reached(cfg, effect, start, before, current) && current.phase == Attempting(n)
      ensures o == RawOutcome(env.reply(n))
      ensures o.Ok? <==> Is2xx(env.reply(n))
      ensures o.Ok? ==> o.body == env.reply(n).body
      ensures IsRateLimited(o) <==> Is429(env.reply(n))
      ensures Reached(cfg, effect, start, after, next)
      ensures next.phase == if !IsRateLimited(o) || n == cfg.Budget() then Done(o)
                            else Waiting(n, RetryWait(cfg.retryMaxWait, n, o.failure.retryAfter, env.random(n)))
    {
      o := RawOutcome(env.reply(n));
      ghost var e := Exchange(env.reply(n), env.took(n), env.random(n),
                              ServerAfter(effect, current.server, o, env.acted(n)));
      RunSnoc(cfg, effect, start, before, e);
      after := before + [e];
      next := Next(cfg, current, e);
    }

    // The select between the context and the timer.
    method Sleep<S(!new)>(
        env: Environment, n: nat, wait: Duration, ghost cfg: Settings, ghost effect: S -> S, ghost start: State<S>,
        ghost before: seq<Event<S>>, ghost current: State<S>)
      returns (cancelled: bool, ghost after: seq<Event<S>>, ghost next: State<S>)
      requires Reached(cfg, effect, start, before, current) && current.phase == Waiting(n, wait)
      ensures cancelled == env.cancelled(n)
      ensures Reached(cfg, effect, start, after, next)
      ensures next.phase == if cancelled then Done(Err(ContextError)) else Attempting(n + 1)
    {
      cancelled := env.cancelled(n);
      ghost var pause: nat := Max(wait, 0) + env.late(n);
      ghost var e: Event<S> := if cancelled then ContextDone(pause) else TimerFired(pause);
      RunSnoc(cfg, effect, start, before, e);
      after := before + [e];
      next := Next(cfg, current, e);
    }

    // Runs a request, retrying throttled attempts. The ghost result is the run
    // of the transition system that this environment produced. A client with a
    // negative budget would make no attempt at all.
    method RequestWithRetry<S(!new)>(env: Environment, ghost effect: S -> S, ghost server: S, ghost clock: int)
      returns (result: Outcome, ghost events: seq<Event<S>>, ghost current: State<S>)
      ensures Reached(AsFields().retry, effect, Start(AsFields().retry, server, clock), events, current)
      ensures current.phase == Done(result)
      ensures result == Result(AsFields().retry, env)
    {
      ghost var cfg := AsFields().retry;
      ghost var start := Start(cfg, server, clock);
      events, current := [], start;
      if !retryEnabled {
        result, events, current := RawRequest(env, 0, cfg, effect, start, events, current);
        return;
      }

      assert cfg.Budget() == maxRetries;
      var lastErr: Outcome := Err(NoAttempts(maxRetries));
      var attempt := 0;
      while attempt <= maxRetries
        invariant 0 <= attempt
        invariant Reached(cfg, effect, start, events, current)
        invariant maxRetries < 0 ==> attempt == 0 && current == start && lastErr == Err(NoAttempts(maxRetries))
        invariant maxRetries >= 0 ==>
                    && attempt <= maxRetries && current.phase == Attempting(attempt)
                    && Played(cfg, env, 0) == Played(cfg, env, attempt)
      {
        var o;
        o, events, current := RawRequest(env, attempt, cfg, effect, start, events, current);
        if o.Ok? || !IsRateLimited(o) || attempt == maxRetries {
          return o, events, current;
        }
        lastErr := o;
        var wait := RetryWait(retryMaxWait, attempt, o.failure.retryAfter, env.random(attempt));
        var cancelled;
        cancelled, events, current := Sleep(env, attempt, wait, cfg, effect, start, events, current);
        if cancelled {
          return Err(ContextError), events, current;
        }
        attempt := attempt + 1;
      }
      result := lastErr;
    }
  }

  // Options are applied in order and the first refusal ends construction, so a
  // client is returned exactly when the base URL and every option are accepted;
  // it then holds the fields the options add up to, and they are sound.
  method NewClient(baseURL: URL, token: Bytes, defaultUserAgent: Bytes, opts: seq<Option>)
    returns (c: Client?, check: Check)
    requires defaultUserAgent != ""
    ensures c != null <==> check.Accepted?
    ensures check.Accepted? <==>
              CheckBaseURL(baseURL).Accepted? && forall i :: 0 <= i < |opts| ==> CheckOption(opts[i]).Accepted?
    ensures c != null ==>
              && fresh(c)
              && c.AsFields() == AppliedAll(Defaults(baseURL, token, defaultUserAgent), opts)
              && Sound(c.AsFields())
    ensures check.Refused? ==>
              check == CheckBaseURL(baseURL) ||
              exists i :: && 0 <= i < |opts| && check == CheckOption(opts[i])
                          && forall j :: 0 <= j < i ==> CheckOption(opts[j]).Accepted?
  {
    check := CheckBaseURL(baseURL);
    if check.Refused? {
      return null, check;
    }
    var client := new Client(baseURL, token, defaultUserAgent);
    ghost var start := Defaults(baseURL, token, defaultUserAgent);
    assert opts[..0] == [];
    for i := 0 to |opts|
      invariant fresh(client)
      invariant forall j :: 0 <= j < i ==> CheckOption(opts[j]).Accepted?
      invariant client.AsFields() == AppliedAll(start, opts[..i])
    {
      check := client.Apply(opts[i]);
      if check.Refused? {
        return null, check;
      }
      assert opts[..i + 1][..i] == opts[..i];
    }
    assert opts[..|opts|] == opts;
    AcceptedOptionsKeepSound(start, opts);
    check := Accepted;
    c := client;
  }

  // A client configured last with WithRetry(enabled, n) makes up to n + 1
  // attempts if enabled and one if not, and no fewer bound every call.
  lemma {:induction false} RetryOptionBoundsAttempts<S(!new)>(
      f: Fields, enabled: bool, retries: nat, effect: S -> S, server: S, clock: int, n: int)
    ensures var cfg := Applied(f, WithRetry(enabled, retries)).retry;
            (forall events :: IsRun(cfg, effect, Start(cfg, server, clock), events) ==>
               |Final(cfg, effect, Start(cfg, server, clock), events).outcomes| <= n) <==>
            (if enabled then retries + 1 else 1) <= n
  {
    AttemptsExactly(Applied(f, WithRetry(enabled, retries)).retry, effect, server, clock, n);
  }

  // A client configured last with WithRetryMaxWait(cap) never sleeps cap plus
  // two seconds, or 32 seconds if that is no positive cap, and can sleep the cap.
  lemma {:induction false} MaxWaitOptionBoundsWaits(f: Fields, cap: Duration, retryAfter: Duration, random: nat)
    ensures var maxWait := Applied(f, WithRetryMaxWait(cap)).retry.retryMaxWait;
            var most := if cap > 0 then cap else 30_000_000_000;
            && RetryWait(maxWait, 0, retryAfter, random) < most + 2_000_000_000
            && RetryWait(maxWait, 30, retryAfter, 0) == most
  {
    WaitBelowCapAndJitter(cap, 0, retryAfter, random);
    NoJitter(cap, 30, retryAfter);
  }

  // Of a client configured last with WithRequestTimeout(d), punctual calls end
  // within a timeout for each attempt and the longest waits between them.
  lemma {:induction false} TimeoutOptionBoundsCalls<S(!new)>(
      f: Fields, d: Duration, effect: S -> S, server: S, clock: int, events: seq<Event<S>>)
    requires d > 0 && f.retry.maxRetries >= 0
    requires var cfg := Applied(f, WithRequestTimeout(d)).retry;
             IsRun(cfg, effect, Start(cfg, server, clock), events)
             && Punctual(cfg, effect, Start(cfg, server, clock), events)
    ensures var cfg := Applied(f, WithRequestTimeout(d)).retry;
            Final(cfg, effect, Start(cfg, server, clock), events).clock - clock <=
              f.retry.Budget() * (EffectiveCap(f.retry.retryMaxWait) + MAX_RETRY_JITTER) + (f.retry.Budget() + 1) * d
  {
    TotalTime(Applied(f, WithRequestTimeout(d)).retry, effect, server, clock, events);
  }

  // A new client gives up on a request after thirty seconds and is allowed ten
  // retries of at most thirty seconds, jitter aside.
  lemma {:induction false} DefaultBudgets(baseURL: URL, token: Bytes, userAgent: Bytes)
    ensures var f := Defaults(baseURL, token, userAgent);
            && f.baseURL == baseURL && f.token == token && f.userAgent == userAgent && f.httpClient == Ref(PrivateHTTPClient)
            && f.retry.requestTimeout == 30_000_000_000 && f.retry.Budget() == 10
            && EffectiveCap(f.retry.retryMaxWait) == 30_000_000_000
  {}

  // By default eleven attempts are made, and no fewer bound every call.
  lemma {:induction false} ElevenAttemptsByDefault<S(!new)>(
      baseURL: URL, token: Bytes, userAgent: Bytes, effect: S -> S, server: S, clock: int, n: int)
    ensures var cfg := Defaults(baseURL, token, userAgent).retry;
            (forall events :: IsRun(cfg, effect, Start(cfg, server, clock), events) ==>
               |Final(cfg, effect, Start(cfg, server, clock), events).outcomes| <= n) <==>
            11 <= n
  {
    AttemptsExactly(Defaults(baseURL, token, userAgent).retry, effect, server, clock, n);
  }

  // The guard behind the retry loop is dead code for every client that can be
  // built: a call always makes an attempt, so it never returns without either
  // a reply or an error.
  lemma {:induction false} GuardUnreachable<S(!new)>(f: Fields, effect: S -> S, server: S, clock: int, events: seq<Event<S>>)
    requires Sound(f)
    requires IsRun(f.retry, effect, Start(f.retry, server, clock), events)
    ensures var last := Final(f.retry, effect, Start(f.retry, server, clock), events);
            last.phase.Done? ==>
              && |last.outcomes| >= 1
              && !(last.phase.result.Err? && last.phase.result.failure.NoAttempts?)
  {
    var start := Start(f.retry, server, clock);
    InvRun(f.retry, effect, start, start, events);
  }
}
