// How long the client sleeps after a 429: the Retry-After floor, capped
// exponential backoff and jitter of retry.go, with the header parsing of
// errors.go that feeds it.
module Backoff {
  import opened Decimal
  import opened Durations

  const DEFAULT_MAX_RETRY_WAIT: Duration := 30 * SECOND
  const MAX_RETRY_JITTER: Duration := 2 * SECOND

  // 1s, 2s, 4s, ...; math.Pow of a negative exponent truncates to zero.
  function ExponentialBackoff(attempt: int): (d: Duration)
    ensures d >= 0
    ensures 0 <= attempt ==> d >= SECOND
  {
    if attempt >= 30 then MAX_INT64
    else if attempt < 0 then 0
    else
      Pow2Below30(attempt);
      Pow2(attempt) * SECOND
  }

  function EffectiveCap(maxWait: Duration): (cap: Duration)
    ensures cap > 0
  {
    if maxWait > 0 then maxWait else DEFAULT_MAX_RETRY_WAIT
  }

  // Go's integer division truncates toward zero.
  function Half(d: Duration): Duration
  {
    var x: int := d;
    if x >= 0 then x / 2 else -(-x / 2)
  }

  function JitterWindow(base: Duration): Duration
  {
    Min(Half(base), MAX_RETRY_JITTER)
  }

  // random stands for the raw draw; rand.Int64N yields any value of [0, window).
  function RetryJitter(base: Duration, random: nat): (d: Duration)
    ensures 0 <= d
    ensures JitterWindow(base) > 0 ==> d < JitterWindow(base)
  {
    var window := JitterWindow(base);
    if window <= 0 then 0 else random % window
  }

  // The wait before jitter.
  function BaseWait(maxWait: Duration, attempt: int, retryAfter: Duration): (d: Duration)
  {
    Min(Max(retryAfter, ExponentialBackoff(attempt)), EffectiveCap(maxWait))
  }

  function RetryWait(maxWait: Duration, attempt: int, retryAfter: Duration, random: nat): Duration
  {
    var wait := BaseWait(maxWait, attempt, retryAfter);
    Wrap(wait + RetryJitter(wait, random))
  }

  // The largest cap for which adding jitter cannot leave 64 bits.
  predicate CapLeavesRoomForJitter(maxWait: Duration)
  {
    EffectiveCap(maxWait) + MAX_RETRY_JITTER - 1 <= MAX_INT64
  }

  // Every draw below the window can come out as the jitter.
  lemma {:induction false} JitterCoversItsWindow(base: Duration, jitter: nat)
    requires jitter < JitterWindow(base)
    ensures RetryJitter(base, jitter) == jitter
  {
    ModSmall(jitter, JitterWindow(base));
  }

  // Every wait lies between its base - the larger of Retry-After and backoff,
  // capped - and that base plus half of it, at most two seconds more, whatever
  // the server asked for and whatever was drawn.
  lemma {:induction false} WaitInterval(maxWait: Duration, attempt: int, retryAfter: Duration, random: nat)
    requires CapLeavesRoomForJitter(maxWait)
    ensures var base := Min(Max(retryAfter, ExponentialBackoff(attempt)), EffectiveCap(maxWait));
            var wait := RetryWait(maxWait, attempt, retryAfter, random);
            && base == BaseWait(maxWait, attempt, retryAfter)
            && 0 <= base <= wait <= base + Min(base / 2, MAX_RETRY_JITTER)
            && (base >= 2 ==> wait < base + Min(base / 2, MAX_RETRY_JITTER))
            && wait < EffectiveCap(maxWait) + MAX_RETRY_JITTER
  {
    var base := BaseWait(maxWait, attempt, retryAfter);
    var jitter := RetryJitter(base, random);
    assert base + jitter <= MAX_INT64;
  }

  // Just past the largest Duration, Go's arithmetic turns negative.
  lemma {:induction false} WrapNegative(x: int)
    requires MAX_INT64 < x < TWO_TO_64
    ensures Wrap(x) < 0
  {
    ModSmall(x, TWO_TO_64);
  }

  // The interval is no wider than it has to be: some draw pads a base with half
  // of it, or two seconds, less a nanosecond.
  lemma {:induction false} WaitReachesItsBound(maxWait: Duration, attempt: int, retryAfter: Duration)
    requires CapLeavesRoomForJitter(maxWait)
    requires Min(Max(retryAfter, ExponentialBackoff(attempt)), EffectiveCap(maxWait)) >= 2
    ensures var base := Min(Max(retryAfter, ExponentialBackoff(attempt)), EffectiveCap(maxWait));
            exists random: nat ::
              RetryWait(maxWait, attempt, retryAfter, random) == base + Min(base / 2, 2_000_000_000) - 1
  {
    var base := BaseWait(maxWait, attempt, retryAfter);
    var most := Min(base / 2, 2_000_000_000) - 1;
    JitterCoversItsWindow(base, most);
    assert RetryWait(maxWait, attempt, retryAfter, most) == base + most;
  }

  // A capped default wait can last 31.999999999 seconds.
  lemma {:induction false} LongestDefaultWait()
    ensures RetryWait(0, 30, 0, 1_999_999_999) == 31_999_999_999
  {
    assert BaseWait(0, 30, 0) == 30_000_000_000;
    JitterCoversItsWindow(30_000_000_000, 1_999_999_999);
  }

  // Below its base a wait falls only by overflowing, and then it is shorter
  // still: the upper end holds for every cap.
  lemma {:induction false} WaitBelowCapAndJitter(maxWait: Duration, attempt: int, retryAfter: Duration, random: nat)
    ensures RetryWait(maxWait, attempt, retryAfter, random) < EffectiveCap(maxWait) + MAX_RETRY_JITTER
  {
    var base := BaseWait(maxWait, attempt, retryAfter);
    var x := base + RetryJitter(base, random);
    if x > MAX_INT64 {
      WrapNegative(x);
    }
  }

  // A base that leaves room for the jitter is a lower bound, whatever the cap.
  lemma {:induction false} WaitAtLeastBase(maxWait: Duration, attempt: int, retryAfter: Duration, random: nat)
    requires BaseWait(maxWait, attempt, retryAfter) + MAX_RETRY_JITTER - 1 <= MAX_INT64
    ensures BaseWait(maxWait, attempt, retryAfter) <= RetryWait(maxWait, attempt, retryAfter, random)
  {
    var base := BaseWait(maxWait, attempt, retryAfter);
    assert base + RetryJitter(base, random) <= MAX_INT64;
  }

  // A draw of zero waits just the base.
  lemma {:induction false} NoJitter(maxWait: Duration, attempt: int, retryAfter: Duration)
    ensures RetryWait(maxWait, attempt, retryAfter, 0) == BaseWait(maxWait, attempt, retryAfter)
  {
    var window := JitterWindow(BaseWait(maxWait, attempt, retryAfter));
    if window > 0 {
      ModSmall(0, window);
    }
  }

  // The room-for-jitter guard is not merely sufficient: it is exactly when no
  // attempt, header and draw can produce a wait below its base.
  lemma {:induction false} WaitNeverBelowBaseExactly(maxWait: Duration)
    ensures CapLeavesRoomForJitter(maxWait) <==>
            forall attempt: int, retryAfter: Duration, random: nat ::
              RetryWait(maxWait, attempt, retryAfter, random) >= BaseWait(maxWait, attempt, retryAfter)
  {
    if CapLeavesRoomForJitter(maxWait) {
      forall attempt: int, retryAfter: Duration, random: nat
        ensures RetryWait(maxWait, attempt, retryAfter, random) >= BaseWait(maxWait, attempt, retryAfter)
      {
        WaitInterval(maxWait, attempt, retryAfter, random);
      }
    } else {
      OverflowingWait(maxWait);
    }
  }

  // A base of more than the largest Duration less the jitter has a draw that
  // makes the wait negative.
  lemma {:induction false} LargeBaseOverflows(maxWait: Duration, attempt: int, retryAfter: Duration)
    requires BaseWait(maxWait, attempt, retryAfter) > MAX_INT64 - MAX_RETRY_JITTER + 1
    ensures RetryWait(maxWait, attempt, retryAfter, MAX_RETRY_JITTER - 1) < 0
  {
    var base := BaseWait(maxWait, attempt, retryAfter);
    JitterCoversItsWindow(base, MAX_RETRY_JITTER - 1);
    WrapNegative(base + MAX_RETRY_JITTER - 1);
  }

  // With a larger cap the thirtieth retry can wrap to a negative sleep, which
  // a timer treats as already expired.
  lemma {:induction false} OverflowingWait(maxWait: Duration)
    requires !CapLeavesRoomForJitter(maxWait)
    ensures RetryWait(maxWait, 30, 0, MAX_RETRY_JITTER - 1) < 0 < BaseWait(maxWait, 30, 0)
  {
    LargeBaseOverflows(maxWait, 30, 0);
  }

  // While backoff dominates Retry-After and the next base is not capped,
  // consecutive waits grow strictly for every pair of draws - even if the
  // earlier was the luckier one - exactly when the later cannot overflow.
  lemma {:induction false} StrictEscalationExactly(maxWait: Duration, n: nat, next: nat, ra: Duration, ra': Duration)
    requires next == n + 1
    requires ExponentialBackoff(n) >= ra && ExponentialBackoff(n) >= ra'
    requires 2 * ExponentialBackoff(n) <= EffectiveCap(maxWait)
    ensures (forall random: nat, random': nat ::
               RetryWait(maxWait, n, ra, random) < RetryWait(maxWait, next, ra', random')) <==>
            n < 29 || CapLeavesRoomForJitter(maxWait)
  {
    assert n < 30;
    if n < 29 || CapLeavesRoomForJitter(maxWait) {
      forall random: nat, random': nat
        ensures RetryWait(maxWait, n, ra, random) < RetryWait(maxWait, next, ra', random')
      {
        StrictEscalation(maxWait, n, ra, ra', random, random');
      }
    } else {
      NoJitter(maxWait, n, ra);
      LargeBaseOverflows(maxWait, next, ra');
      assert RetryWait(maxWait, n, ra, 0) >= RetryWait(maxWait, next, ra', MAX_RETRY_JITTER - 1);
    }
  }

  lemma {:induction false} StrictEscalation(maxWait: Duration, n: nat, ra: Duration, ra': Duration, random: nat, random': nat)
    requires ExponentialBackoff(n) >= ra && ExponentialBackoff(n) >= ra'
    requires 2 * ExponentialBackoff(n) <= EffectiveCap(maxWait)
    requires n < 29 || CapLeavesRoomForJitter(maxWait)
    ensures RetryWait(maxWait, n, ra, random) < RetryWait(maxWait, n + 1, ra', random')
  {
    assert n < 30;
    BackoffDoubles(n);
    Pow2Below30(n);
    assert BaseWait(maxWait, n, ra) == ExponentialBackoff(n);
    if n == 29 {
      WaitInterval(maxWait, n + 1, ra', random');
    } else {
      Pow2Below30(n + 1);
      assert BaseWait(maxWait, n + 1, ra') == ExponentialBackoff(n + 1);
    }
  }

  lemma {:induction false} BackoffDoubles(n: nat)
    requires n < 30
    ensures ExponentialBackoff(n + 1) >= 2 * ExponentialBackoff(n)
    ensures n < 29 ==> ExponentialBackoff(n + 1) == 2 * ExponentialBackoff(n)
  {
    Pow2Below30(n);
    if n < 29 {
      Pow2Below30(n + 1);
    }
  }

  lemma {:induction false} BackoffMonotone(m: nat, n: nat)
    requires m <= n
    ensures ExponentialBackoff(m) <= ExponentialBackoff(n)
  {
    if n < 30 {
      Pow2Monotone(m, n);
    }
  }

  // From the first capped attempt on, the base is the cap.
  lemma {:induction false} PastTheCapConstant(maxWait: Duration, m: nat, n: nat, retryAfter: Duration)
    requires m <= n && EffectiveCap(maxWait) <= ExponentialBackoff(m)
    ensures BaseWait(maxWait, n, retryAfter) == EffectiveCap(maxWait)
  {
    BackoffMonotone(m, n);
  }

  // ----- The Retry-After header -----

  predicate IsBlank(c: char) { c == ' ' || c == '\t' }

  function SkipBlanks(s: string): string
  {
    if s != "" && IsBlank(s[0]) then SkipBlanks(s[1..]) else s
  }

  datatype Scan = NoInteger | Scanned(value: Duration)

  // What scanning "%d" reads: blanks, an optional sign and digits; whatever
  // follows the digits is left unread. Numbers beyond 64 bits are errors.
  function ScanInteger(header: string): Scan
  {
    var s := SkipBlanks(header);
    var negative := s != "" && s[0] == '-';
    var digits := if s != "" && (s[0] == '-' || s[0] == '+') then s[1..] else s;
    if digits == "" || !IsDigit(digits[0]) then NoInteger
    else
      var magnitude: int := LeadingNumber(digits, 0);
      var value := if negative then -magnitude else magnitude;
      if MIN_INT64 <= value <= MAX_INT64 then Scanned(value) else NoInteger
  }

  function ParseRetryAfter(header: string): Duration
  {
    if header == "" then 0
    else
      match ScanInteger(header)
      case NoInteger => 0
      case Scanned(seconds) => if seconds < 0 then 0 else Wrap(seconds * SECOND)
  }

  // A header that starts with a number of seconds is read as that number,
  // whatever follows the digits, and converted modulo 2^64; a number that is
  // itself beyond 64 bits is read as no header at all.
  lemma {:induction false} HeaderSeconds(seconds: nat, tail: string)
    requires tail != "" ==> !IsDigit(tail[0])
    ensures ScanInteger(Itoa(seconds) + tail) == if seconds <= MAX_INT64 then Scanned(seconds) else NoInteger
    ensures ParseRetryAfter(Itoa(seconds) + tail) == if seconds <= MAX_INT64 then Wrap(seconds * SECOND) else 0
  {
    var h := Itoa(seconds) + tail;
    assert h[0] == Itoa(seconds)[0];
    assert SkipBlanks(h) == h;
    ItoaRoundTrip(seconds, tail);
  }

  // A header that does not start with a digit, or a plus sign and a digit, after
  // its blanks asks for nothing: dates and negative numbers among them.
  lemma {:induction false} OtherHeadersAskForNothing(header: string)
    requires var s := SkipBlanks(header);
             s == "" || !(IsDigit(s[0]) || (s[0] == '+' && |s| > 1 && IsDigit(s[1])))
    ensures ParseRetryAfter(header) == 0
  {}

  lemma {:induction false} BlanksSkipped(blanks: string, rest: string)
    requires forall i :: 0 <= i < |blanks| ==> blanks[i] == ' ' || blanks[i] == '\t'
    requires rest != "" ==> !IsBlank(rest[0])
    ensures SkipBlanks(blanks + rest) == rest
  {
    if blanks == "" {
      assert blanks + rest == rest;
    } else {
      assert (blanks + rest)[1..] == blanks[1..] + rest;
      BlanksSkipped(blanks[1..], rest);
    }
  }

  // Blanks and a plus sign in front of the number change nothing.
  lemma {:induction false} HeaderSecondsInside(blanks: string, sign: string, seconds: nat, tail: string)
    requires forall i :: 0 <= i < |blanks| ==> blanks[i] == ' ' || blanks[i] == '\t'
    requires sign == "" || sign == "+"
    requires tail != "" ==> !IsDigit(tail[0])
    ensures ParseRetryAfter(blanks + (sign + (Itoa(seconds) + tail))) ==
            if seconds <= MAX_INT64 then Wrap(seconds * SECOND) else 0
  {
    var number := Itoa(seconds) + tail;
    var rest := sign + number;
    HeaderSeconds(seconds, tail);
    assert number[0] == Itoa(seconds)[0];
    assert sign == "" ==> rest == number;
    assert sign == "+" ==> rest[0] == '+' && rest[1..] == number;
    BlanksSkipped(blanks, rest);
    assert SkipBlanks(number) == number;
    ItoaRoundTrip(seconds, tail);
  }

  // "Waits never drop below the response's Retry-After header" holds, for every
  // header that names a number of seconds, exactly when they do not exceed the
  // cap and adding jitter cannot overflow.
  lemma {:induction false} RetryAfterIsAFloorExactly(maxWait: Duration, attempt: int, seconds: nat, tail: string)
    requires tail != "" ==> !IsDigit(tail[0])
    ensures (forall random: nat ::
               RetryWait(maxWait, attempt, ParseRetryAfter(Itoa(seconds) + tail), random) >= seconds * SECOND) <==>
            && seconds * SECOND <= EffectiveCap(maxWait)
            && (CapLeavesRoomForJitter(maxWait)
                || Max(seconds * SECOND, ExponentialBackoff(attempt)) <= MAX_INT64 - MAX_RETRY_JITTER + 1)
  {
    HeaderSeconds(seconds, tail);
    FloorExactly(maxWait, attempt, ParseRetryAfter(Itoa(seconds) + tail), seconds * SECOND);
  }

  // Whatever a header was read as, all waits stay above a floor exactly when
  // the base does and cannot overflow.
  lemma {:induction false} FloorExactly(maxWait: Duration, attempt: int, ra: Duration, floor: nat)
    ensures (forall random: nat :: RetryWait(maxWait, attempt, ra, random) >= floor) <==>
            floor <= BaseWait(maxWait, attempt, ra) <= MAX_INT64 - MAX_RETRY_JITTER + 1
  {
    var base := BaseWait(maxWait, attempt, ra);
    if base <= MAX_INT64 - MAX_RETRY_JITTER + 1 {
      forall random: nat
        ensures base <= RetryWait(maxWait, attempt, ra, random)
      {
        WaitAtLeastBase(maxWait, attempt, ra, random);
      }
    } else {
      LargeBaseOverflows(maxWait, attempt, ra);
    }
    NoJitter(maxWait, attempt, ra);
  }

  // Of the weaker promise of a floor up to the cap, overflow is the only
  // exception: of the conversion, unless the value it leaves or the backoff
  // reaches the cap anyway, or of the jitter.
  lemma {:induction false} CappedFloorExactly(maxWait: Duration, attempt: int, seconds: nat, tail: string)
    requires tail != "" ==> !IsDigit(tail[0])
    ensures var ra := ParseRetryAfter(Itoa(seconds) + tail);
            (forall random: nat ::
               RetryWait(maxWait, attempt, ra, random) >= Min(seconds * SECOND, EffectiveCap(maxWait))) <==>
            && (seconds * SECOND <= MAX_INT64
                || ra >= EffectiveCap(maxWait)
                || ExponentialBackoff(attempt) >= EffectiveCap(maxWait))
            && (CapLeavesRoomForJitter(maxWait)
                || Max(ra, ExponentialBackoff(attempt)) <= MAX_INT64 - MAX_RETRY_JITTER + 1)
  {
    HeaderSeconds(seconds, tail);
    FloorExactly(maxWait, attempt, ParseRetryAfter(Itoa(seconds) + tail),
                 Min(seconds * SECOND, EffectiveCap(maxWait)));
  }

  // By default a server that asks for a minute is asked again after half of it,
  // or at most two seconds more.
  lemma {:induction false} MinuteIsCutShort(random: nat)
    ensures 30 * SECOND <= RetryWait(0, 0, ParseRetryAfter("60"), random) < 32 * SECOND
  {
    assert Itoa(60) == "60" by {
      assert Itoa(6) == "6";
    }
    HeaderSeconds(60, "");
    assert Itoa(60) + "" == Itoa(60);
    WaitInterval(0, 0, 60 * SECOND, random);
  }

  // Without room for jitter, a header of 9223372036 seconds and the largest
  // draw make every wait negative.
  lemma {:induction false} EveryWaitCanOverflow(maxWait: Duration, n: nat)
    requires !CapLeavesRoomForJitter(maxWait)
    ensures RetryWait(maxWait, n, ParseRetryAfter(Itoa(9223372036)), MAX_RETRY_JITTER - 1) < 0
  {
    HeaderSeconds(9223372036, "");
    assert Itoa(9223372036) + "" == Itoa(9223372036);
    LargeBaseOverflows(maxWait, n, 9223372036 * SECOND);
  }

  // From 9223372037 seconds on the conversion wraps to a negative duration: the
  // first retry can then start after one second instead of at the default cap.
  lemma {:induction false} WrappedRetryAfterIsIgnored(seconds: nat)
    requires 9223372037 <= seconds <= 18446744073
    ensures ParseRetryAfter(Itoa(seconds)) < 0
    ensures RetryWait(0, 0, ParseRetryAfter(Itoa(seconds)), 0) == SECOND
  {
    HeaderSeconds(seconds, "");
    assert Itoa(seconds) + "" == Itoa(seconds);
    WrapNegative(seconds * SECOND);
    NoJitter(0, 0, Wrap(seconds * SECOND));
  }

  // ----- Sums of bases -----

  function BackoffBase(maxWait: Duration, n: nat): (d: Duration)
  {
    Min(ExponentialBackoff(n), EffectiveCap(maxWait))
  }

  // The least that k successive waits can add up to.
  function BackoffSum(maxWait: Duration, k: nat): int
  {
    if k == 0 then 0 else BackoffSum(maxWait, k - 1) + BackoffBase(maxWait, k - 1)
  }

  // m is the first attempt whose backoff reaches the cap.
  predicate FirstCapped(maxWait: Duration, m: nat)
  {
    && ExponentialBackoff(m) >= EffectiveCap(maxWait)
    && (m > 0 ==> ExponentialBackoff(m - 1) < EffectiveCap(maxWait))
  }

  // Searching down from an attempt that is capped; the thirtieth always is.
  function FirstCappedAttempt(maxWait: Duration, from: nat): (m: nat)
    requires ExponentialBackoff(from) >= EffectiveCap(maxWait)
    ensures m <= from && FirstCapped(maxWait, m)
  {
    if from > 0 && ExponentialBackoff(from - 1) >= EffectiveCap(maxWait) then FirstCappedAttempt(maxWait, from - 1)
    else from
  }

  lemma {:induction false} BaseAround(maxWait: Duration, m: nat, n: nat)
    requires FirstCapped(maxWait, m)
    ensures n < m ==> BackoffBase(maxWait, n) == Pow2(n) * SECOND
    ensures m <= n ==> BackoffBase(maxWait, n) == EffectiveCap(maxWait)
  {
    if n < m {
      BackoffMonotone(n, m - 1);
    } else {
      BackoffMonotone(m, n);
    }
  }

  lemma {:induction false} DoublingSum(maxWait: Duration, m: nat, k: nat)
    requires FirstCapped(maxWait, m) && k <= m
    ensures BackoffSum(maxWait, k) == (Pow2(k) - 1) * SECOND
    decreases k
  {
    if k > 0 {
      DoublingSum(maxWait, m, k - 1);
      BaseAround(maxWait, m, k - 1);
      assert Pow2(k) == 2 * Pow2(k - 1);
    }
  }

  lemma {:induction false} CappedSum(maxWait: Duration, m: nat, j: nat)
    requires FirstCapped(maxWait, m)
    ensures BackoffSum(maxWait, m + j) == BackoffSum(maxWait, m) + j * EffectiveCap(maxWait)
    decreases j
  {
    if j > 0 {
      CappedSum(maxWait, m, j - 1);
      BaseAround(maxWait, m, m + j - 1);
      MulSucc(j - 1, EffectiveCap(maxWait));
    }
  }

  lemma {:induction false} SumUpToAndPast(maxWait: Duration, m: nat, k: nat)
    requires FirstCapped(maxWait, m)
    ensures k <= m ==> BackoffSum(maxWait, k) == (Pow2(k) - 1) * SECOND
    ensures m <= k ==> BackoffSum(maxWait, k) == (Pow2(m) - 1) * SECOND + (k - m) * EffectiveCap(maxWait)
  {
    DoublingSum(maxWait, m, Min(k, m));
    if m <= k {
      CappedSum(maxWait, m, k - m);
    }
  }

  // For every cap and budget: seconds double up to the first capped attempt,
  // at most the thirtieth, and then the cap comes over and over.
  lemma {:induction false} BackoffSumClosedForm(maxWait: Duration, k: nat)
    ensures var m := FirstCappedAttempt(maxWait, 30);
            BackoffSum(maxWait, k) ==
              if k <= m then (Pow2(k) - 1) * SECOND
              else (Pow2(m) - 1) * SECOND + (k - m) * EffectiveCap(maxWait)
  {
    SumUpToAndPast(maxWait, FirstCappedAttempt(maxWait, 30), k);
  }

  // The default budget of ten retries outlasts 181 seconds of throttling.
  lemma {:induction false} DefaultBudgetCovers181Seconds()
    ensures BackoffSum(0, 10) == 181 * SECOND
  {
    assert Pow2(5) == 32;
    assert ExponentialBackoff(5) == 32 * SECOND && ExponentialBackoff(4) == 16 * SECOND;
    assert FirstCapped(0, 5);
    SumUpToAndPast(0, 5, 10);
  }
}
