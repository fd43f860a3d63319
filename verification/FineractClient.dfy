/** The API client's transport (ingestion/fineract_ingest/client.py): the rate limiter and the retrying GET.
    The server, the jitter and every delay are the environment's choice; the clock never runs back. */
module FineractClient {
  import opened Wrappers

  // ---------------------------------------------------------------------------------------------
  // RateLimiter
  // ---------------------------------------------------------------------------------------------

  /** Consecutive releases are at least `gap` apart. */
  ghost predicate Paced(releases: seq<real>, gap: real) {
    forall i :: 0 < i < |releases| ==> releases[i] - releases[i - 1] >= gap
  }

  class RateLimiter {
    const minInterval: real
    var last: real
    ghost var releases: seq<real>

    ghost predicate Valid()
      reads this
    {
      && Paced(releases, minInterval)
      && (releases != [] ==> releases[|releases| - 1] == last)
    }

    constructor (rps: real)
      ensures Valid() && releases == [] && last == 0.0
      ensures rps > 0.0 ==> minInterval == 1.0 / rps
      ensures rps <= 0.0 ==> minInterval == 0.0
    {
      minInterval := if rps > 0.0 then 1.0 / rps else 0.0;
      last, releases := 0.0, [];
    }

    /** Called at clock reading `now`; the sleep may overrun by `late`.  Returns the clock when it is done. */
    method Wait(now: real, late: real) returns (done: real)
      requires Valid() && late >= 0.0 && last <= now
      modifies this
      ensures Valid() && done >= now && last <= done
      ensures minInterval <= 0.0 ==> last == old(last) && releases == old(releases) && done == now
      ensures minInterval > 0.0 ==>
                && releases == old(releases) + [done] && last == done
                && done == (if now - old(last) < minInterval then old(last) + minInterval else now) + late
    {
      done := now;
      if minInterval <= 0.0 {
        return;
      }
      var elapsed := now - last;
      if elapsed < minInterval {
        done := done + (minInterval - elapsed);
      }
      done := done + late;
      last := done;
      releases := releases + [done];
    }
  }

  /** n * x, by addition. */
  function Times(n: nat, x: real): real {
    if n == 0 then 0.0 else Times(n - 1, x) + x
  }

  lemma {:induction false} TimesIsProduct(n: nat, x: real)
    ensures Times(n, x) == n as real * x
  {
    if n > 0 {
      TimesIsProduct(n - 1, x);
      assert n as real * x == (n - 1) as real * x + x;
    }
  }

  lemma {:induction false} TimesGrows(m: nat, n: nat, x: real)
    requires m <= n && x >= 0.0
    ensures Times(m, x) <= Times(n, x)
  {
    if m < n {
      TimesGrows(m, n - 1, x);
    }
  }

  lemma {:induction false} PacedSpan(releases: seq<real>, gap: real, i: nat, j: nat)
    requires Paced(releases, gap) && i <= j < |releases|
    ensures releases[j] - releases[i] >= Times(j - i, gap)
  {
    if i < j {
      PacedSpan(releases, gap, i, j - 1);
    }
  }

  ghost function Within(releases: seq<real>, from: real, to: real): set<nat> {
    set i: nat | i < |releases| && from <= releases[i] <= to
  }

  /** The rate bound over whole runs: a window of length t holds at most floor(t / interval) + 1 releases. */
  lemma RateBound(releases: seq<real>, gap: real, from: real, t: real)
    requires gap > 0.0 && t >= 0.0 && Paced(releases, gap)
    ensures |Within(releases, from, from + t)| <= (t / gap).Floor + 1
  {
    var inside := Within(releases, from, from + t);
    if inside != {} {
      var a, b := Extremes(inside);
      PacedSpan(releases, gap, a, b);
      DivideBound(b - a, gap, t);
      RangeSize(inside, a, b);
    }
  }

  lemma DivideBound(n: nat, gap: real, t: real)
    requires gap > 0.0 && Times(n, gap) <= t
    ensures n <= (t / gap).Floor
  {
    TimesIsProduct(n, gap);
    assert n as real == (n as real * gap) / gap <= t / gap;
  }

  lemma {:induction false} Extremes(s: set<nat>) returns (a: nat, b: nat)
    requires s != {}
    ensures a in s && b in s && a <= b && forall x :: x in s ==> a <= x <= b
    decreases s
  {
    var x :| x in s;
    if s == {x} {
      a, b := x, x;
    } else {
      a, b := Extremes(s - {x});
      assert forall y :: y in s ==> y == x || y in s - {x};
      if x < a { a := x; }
      if x > b { b := x; }
    }
  }

  lemma {:induction false} RangeSize(s: set<nat>, a: nat, b: nat)
    requires a <= b && forall x :: x in s ==> a <= x <= b
    ensures |s| <= b - a + 1
    decreases b - a
  {
    var rest := s - {b};
    assert |s| <= |rest| + 1;
    if a == b {
      assert rest == {};
    } else {
      RangeSize(rest, a, b - 1);
    }
  }

  // ---------------------------------------------------------------------------------------------
  // get
  // ---------------------------------------------------------------------------------------------

  /** A Retry-After header the float parser reads, or not. */
  datatype RetryAfter = Unparsable | Seconds(x: real)

  /** What an attempt comes to: a response; a connection error or timeout; a ValueError of the HTTP library, as
      for a malformed URL; or any other exception, which get does not catch. */
  datatype Outcome<T> =
    | Response(status: int, retryAfter: Option<RetryAfter>, body: Option<T>)
    | TransportError
    | BadValue
    | Uncaught

  /** One attempt as the environment plays it: the server's answer, the jitter draw in [0, 1), and the
      delays before the limiter, of the limiter's sleep, of the request and of the backoff sleep. */
  datatype Exchange<T> = Exchange(
    outcome: Outcome<T>, jitter: real, think: real, late: real, latency: real, overrun: real)

  /** What the environment plays, attempt by attempt; long enough for the retry budget. */
  type Script<T> = seq<Exchange<T>>

  const RETRYABLE_STATUS: set<int> := {408, 425, 429, 500, 502, 503, 504}

  predicate Retryable<T>(o: Outcome<T>) {
    o.TransportError? || (o.Response? && o.status in RETRYABLE_STATUS)
  }

  datatype Config = Config(maxRetries: int, backoffBase: real, backoffMax: real)

  ghost predicate Plays<T>(script: Script<T>) {
    forall i :: 0 <= i < |script| ==>
      && 0.0 <= script[i].jitter < 1.0 && script[i].think >= 0.0 && script[i].late >= 0.0
      && script[i].latency >= 0.0 && script[i].overrun >= 0.0
  }

  function Pow2(n: nat): (p: real)
    ensures p >= 1.0
  {
    if n == 0 then 1.0 else 2.0 * Pow2(n - 1)
  }

  /** base * 2^n, by doubling. */
  function Exponential(base: real, n: nat): real {
    if n == 0 then base else 2.0 * Exponential(base, n - 1)
  }

  lemma {:induction false} ExponentialIsPower(base: real, n: nat)
    ensures Exponential(base, n) == base * Pow2(n)
  {
    if n > 0 {
      ExponentialIsPower(base, n - 1);
    }
  }

  lemma {:induction false} ExponentialGrows(base: real, m: nat, n: nat)
    requires base >= 0.0 && m <= n
    ensures base <= Exponential(base, m) <= Exponential(base, n)
  {
    if n > 0 {
      if m == n {
        ExponentialGrows(base, m - 1, n - 1);
      } else {
        ExponentialGrows(base, m, n - 1);
      }
    }
  }

  /** delay * (0.5 + random() / 2) */
  function Jittered(delay: real, jitter: real): real {
    delay * (0.5 + jitter / 2.0)
  }

  lemma MulLe(a: real, b: real, c: real)
    requires a <= b && c >= 0.0
    ensures a * c <= b * c
  {
  }

  lemma JitteredBounds(delay: real, jitter: real)
    requires delay >= 0.0 && 0.0 <= jitter < 1.0
    ensures 0.0 <= Jittered(delay, jitter) <= delay
  {
    var f := 0.5 + jitter / 2.0;
    MulLe(0.0, f, delay);
    MulLe(f, 1.0, delay);
  }

  function Min(a: real, b: real): real {
    if a < b then a else b
  }

  /** _sleep_for_attempt.  time.sleep rejects a negative time with the ValueError that an unparsable
      header raises, so a negative Retry-After falls back to the backoff too. */
  function SleepFor(c: Config, attempt: nat, retryAfter: Option<RetryAfter>, jitter: real): real {
    if retryAfter.Some? && retryAfter.value.Seconds? && Min(retryAfter.value.x, c.backoffMax) >= 0.0
    then Min(retryAfter.value.x, c.backoffMax)
    else Jittered(Min(Exponential(c.backoffBase, attempt), c.backoffMax), jitter)
  }

  function HeaderOf<T>(o: Outcome<T>): Option<RetryAfter> {
    if o.Response? then o.retryAfter else None
  }

  /** The first attempt below n the server answers for good. */
  function Settles<T>(script: Script<T>, n: nat): (s: Option<nat>)
    requires n <= |script|
    ensures s.Some? ==> s.value < n && !Retryable(script[s.value].outcome)
    ensures forall i: nat :: i < n && !Retryable(script[i].outcome) ==> s.Some? && s.value <= i
  {
    if n == 0 then None
    else
      var before := Settles(script, n - 1);
      if before.Some? || Retryable(script[n - 1].outcome) then before else Some(n - 1)
  }

  /** Number of attempts made. */
  function Attempts<T>(c: Config, script: Script<T>): (n: nat)
    requires |script| > c.maxRetries
    ensures n <= |script| && (c.maxRetries >= 0 ==> 1 <= n <= c.maxRetries + 1)
  {
    if c.maxRetries < 0 then 0
    else match Settles(script, c.maxRetries + 1) case Some(i) => i + 1 case None => c.maxRetries + 1
  }

  function Responses<T>(script: Script<T>, n: nat): nat
    requires n <= |script|
  {
    if n == 0 then 0 else Responses(script, n - 1) + if script[n - 1].outcome.Response? then 1 else 0
  }

  function RetryableAmong<T>(script: Script<T>, n: nat): nat
    requires n <= |script|
  {
    if n == 0 then 0 else RetryableAmong(script, n - 1) + if Retryable(script[n - 1].outcome) then 1 else 0
  }

  /** Backoff slept after the first n attempts, all of them retried. */
  function Slept<T>(c: Config, script: Script<T>, n: nat): real
    requires n <= |script|
  {
    if n == 0 then 0.0
    else Slept(c, script, n - 1) + SleepFor(c, n - 1, HeaderOf(script[n - 1].outcome), script[n - 1].jitter)
  }

  /** How get fails.  All but Escaped reach the caller as FineractError. */
  datatype GetError = HttpStatus(status: int) | Transport | NotJson | NeverTried | Escaped

  /** The errors get has counted. */
  predicate Counted(e: GetError) {
    !e.NeverTried? && !e.Escaped?
  }

  /** What a final outcome means to the caller. */
  function Verdict<T>(o: Outcome<T>): Result<T, GetError> {
    match o
    case TransportError => Failure(Transport)
    case BadValue => Failure(NotJson)
    case Uncaught => Failure(Escaped)
    case Response(status, _, body) =>
      if status in RETRYABLE_STATUS || status >= 400 then Failure(HttpStatus(status))
      else if body.None? then Failure(NotJson)
      else Success(body.value)
  }

  /** The outcome get settles on: the first one that is not retryable, or the last of the budget. */
  function Settlement<T>(c: Config, script: Script<T>): Result<T, GetError>
    requires |script| > c.maxRetries
  {
    if c.maxRetries < 0 then Failure(NeverTried)
    else Verdict(script[Attempts(c, script) - 1].outcome)
  }

  class Client {
    const config: Config
    const limiter: RateLimiter
    var time: real
    var requestCount: nat
    var retryCount: nat
    var errorCount: nat
    var slept: real

    ghost predicate Valid()
      reads this, limiter
    {
      limiter.Valid() && limiter.last <= time && config.backoffBase >= 0.0 && config.backoffMax >= 0.0
    }

    constructor (config: Config, rps: real, now: real)
      requires config.backoffBase >= 0.0 && config.backoffMax >= 0.0 && now >= 0.0
      ensures Valid() && this.config == config && fresh(limiter)
      ensures requestCount == retryCount == errorCount == 0 && slept == 0.0
    {
      this.config := config;
      limiter := new RateLimiter(rps);
      time, requestCount, retryCount, errorCount, slept := now, 0, 0, 0, 0.0;
    }

    /** One paced request: wait for the limiter, send, count. */
    method Send<T>(turn: Exchange<T>)
      requires Valid() && turn.think >= 0.0 && turn.late >= 0.0 && turn.latency >= 0.0
      modifies this`time, this`requestCount, limiter
      ensures Valid() && time >= old(time)
      ensures requestCount == old(requestCount) + if turn.outcome.Response? then 1 else 0
      ensures limiter.minInterval > 0.0 ==>
                |limiter.releases| == old(|limiter.releases|) + 1 && old(limiter.releases) <= limiter.releases
    {
      var done := limiter.Wait(time + turn.think, turn.late);
      time := done + turn.latency;
      if turn.outcome.Response? {
        requestCount := requestCount + 1;
      }
    }

    /** _sleep_for_attempt */
    method SleepForAttempt(attempt: nat, retryAfter: Option<RetryAfter>, jitter: real, overrun: real)
      requires Valid() && 0.0 <= jitter < 1.0 && overrun >= 0.0
      modifies this`time, this`slept
      ensures Valid() && time >= old(time)
      ensures slept == old(slept) + SleepFor(config, attempt, retryAfter, jitter)
    {
      var pause := SleepFor(config, attempt, retryAfter, jitter);
      SleepNonNegative(config, attempt, retryAfter, jitter);
      slept := slept + pause;
      time := time + pause + overrun;
    }

    /** One attempt: `again` if get goes round once more, else its result. */
    method Attempt<T>(attempt: nat, turn: Exchange<T>) returns (again: bool, r: Result<T, GetError>)
      requires Valid() && attempt <= config.maxRetries
      requires 0.0 <= turn.jitter < 1.0 && turn.think >= 0.0 && turn.late >= 0.0
      requires turn.latency >= 0.0 && turn.overrun >= 0.0
      modifies this, limiter
      ensures Valid() && time >= old(time)
      ensures again <==> Retryable(turn.outcome) && attempt < config.maxRetries
      ensures !again ==> r == Verdict(turn.outcome)
      ensures requestCount == old(requestCount) + if turn.outcome.Response? then 1 else 0
      ensures retryCount == old(retryCount) + if Retryable(turn.outcome) then 1 else 0
      ensures errorCount == old(errorCount) + if !again && r.Failure? && Counted(r.error) then 1 else 0
      ensures slept == old(slept)
                + if again then SleepFor(config, attempt, HeaderOf(turn.outcome), turn.jitter) else 0.0
      ensures limiter.minInterval > 0.0 ==>
                |limiter.releases| == old(|limiter.releases|) + 1 && old(limiter.releases) <= limiter.releases
    {
      Send(turn);
      if Retryable(turn.outcome) {
        retryCount := retryCount + 1;
        if attempt < config.maxRetries {
          SleepForAttempt(attempt, HeaderOf(turn.outcome), turn.jitter, turn.overrun);
          return true, Failure(NeverTried);
        }
      }
      r := Verdict(turn.outcome);
      errorCount := errorCount + if r.Failure? && Counted(r.error) then 1 else 0;
      return false, r;
    }

    /** get: paced attempts until the server answers for good or the budget is spent. */
    method Get<T>(script: Script<T>) returns (r: Result<T, GetError>)
      requires Valid() && Plays(script) && |script| > config.maxRetries
      modifies this, limiter
      ensures Valid() && time >= old(time)
      ensures r == Settlement(config, script)
      ensures requestCount == old(requestCount) + Responses(script, Attempts(config, script))
      ensures retryCount == old(retryCount) + RetryableAmong(script, Attempts(config, script))
      ensures errorCount == old(errorCount) + if r.Failure? && Counted(r.error) then 1 else 0
      ensures slept == old(slept) + Slept(config, script, Retries(config, script))
      ensures limiter.minInterval > 0.0 ==>
                |limiter.releases| == old(|limiter.releases|) + Attempts(config, script)
                && old(limiter.releases) <= limiter.releases
    {
      var attempt: nat := 0;
      while attempt < config.maxRetries + 1
        invariant attempt == 0 || attempt <= config.maxRetries
        invariant Valid() && time >= old(time)
        invariant Settles(script, attempt).None?
        invariant requestCount == old(requestCount) + Responses(script, attempt)
        invariant retryCount == old(retryCount) + RetryableAmong(script, attempt)
        invariant errorCount == old(errorCount)
        invariant slept == old(slept) + Slept(config, script, attempt)
        invariant limiter.minInterval > 0.0 ==>
                    |limiter.releases| == old(|limiter.releases|) + attempt
                    && old(limiter.releases) <= limiter.releases
        decreases config.maxRetries + 1 - attempt
      {
        SettlesStep(config, script, attempt);
        var again;
        again, r := Attempt(attempt, script[attempt]);
        if !again {
          assert Attempts(config, script) == attempt + 1;
          return;
        }
        attempt := attempt + 1;
      }
      return Failure(NeverTried);
    }
  }

  /** Attempts followed by a backoff sleep: all but the last. */
  function Retries<T>(c: Config, script: Script<T>): nat
    requires |script| > c.maxRetries
  {
    if Attempts(c, script) == 0 then 0 else Attempts(c, script) - 1
  }

  lemma SettlesStep<T>(c: Config, script: Script<T>, n: nat)
    requires n <= c.maxRetries < |script| && Settles(script, n).None?
    ensures !Retryable(script[n].outcome) ==> Settles(script, n + 1) == Some(n) && Attempts(c, script) == n + 1
    ensures Retryable(script[n].outcome) ==>
              Settles(script, n + 1).None? && (n == c.maxRetries ==> Attempts(c, script) == n + 1)
  {
  }

  lemma SleepNonNegative(c: Config, attempt: nat, retryAfter: Option<RetryAfter>, jitter: real)
    requires c.backoffBase >= 0.0 && c.backoffMax >= 0.0 && 0.0 <= jitter < 1.0
    ensures 0.0 <= SleepFor(c, attempt, retryAfter, jitter) <= c.backoffMax
    ensures NoUsableHeader(retryAfter) ==>
              SleepFor(c, attempt, retryAfter, jitter) <= Exponential(c.backoffBase, attempt)
  {
    ExponentialGrows(c.backoffBase, 0, attempt);
    JitteredBounds(Min(Exponential(c.backoffBase, attempt), c.backoffMax), jitter);
  }

  /** The header plays no part: absent or unparsable. */
  predicate NoUsableHeader(retryAfter: Option<RetryAfter>) {
    retryAfter.None? || retryAfter.value.Unparsable?
  }

  // ---------------------------------------------------------------------------------------------
  // What a get costs
  // ---------------------------------------------------------------------------------------------

  /** At most max_retries + 1 attempts, and one more only after a retryable outcome; the budget is spent
      exactly when every outcome in it is retryable. */
  lemma AttemptsBound<T>(c: Config, script: Script<T>)
    requires 0 <= c.maxRetries < |script|
    ensures 1 <= Attempts(c, script) <= c.maxRetries + 1
    ensures forall i: nat :: i + 1 < Attempts(c, script) ==> Retryable(script[i].outcome)
    ensures Retryable(script[Attempts(c, script) - 1].outcome) <==>
              forall i: nat :: i <= c.maxRetries ==> Retryable(script[i].outcome)
    ensures Retryable(script[Attempts(c, script) - 1].outcome) ==> Attempts(c, script) == c.maxRetries + 1
  {
    var s := Settles(script, c.maxRetries + 1);
  }

  lemma {:induction false} SleptBounds<T>(c: Config, script: Script<T>, n: nat)
    requires c.backoffBase >= 0.0 && c.backoffMax >= 0.0 && Plays(script) && n <= |script|
    ensures 0.0 <= Slept(c, script, n) <= Times(n, c.backoffMax)
    ensures (forall i: nat :: i < n ==> NoUsableHeader(HeaderOf(script[i].outcome))) ==>
              Slept(c, script, n) <= Exponential(c.backoffBase, n) - c.backoffBase
  {
    if n > 0 {
      SleptBounds(c, script, n - 1);
      SleepNonNegative(c, n - 1, HeaderOf(script[n - 1].outcome), script[n - 1].jitter);
    }
  }

  /** One get never sleeps longer than max_retries * backoff_max in all; and, when no usable Retry-After
      comes back, never longer than backoff_base * (2^max_retries - 1) either. */
  lemma BackoffBound<T>(c: Config, script: Script<T>)
    requires 0 <= c.maxRetries < |script| && c.backoffBase >= 0.0 && c.backoffMax >= 0.0 && Plays(script)
    ensures Slept(c, script, Retries(c, script)) <= Times(c.maxRetries, c.backoffMax)
    ensures (forall i: nat :: i < Retries(c, script) ==> NoUsableHeader(HeaderOf(script[i].outcome))) ==>
              Slept(c, script, Retries(c, script)) <= Exponential(c.backoffBase, c.maxRetries) - c.backoffBase
  {
    var n := Retries(c, script);
    SleptBounds(c, script, n);
    TimesGrows(n, c.maxRetries, c.backoffMax);
    ExponentialGrows(c.backoffBase, n, c.maxRetries);
  }

  /** An exception escapes get, uncounted, exactly when an attempt within the budget, all those before it having
      been retried, raises one. */
  lemma EscapesIff<T>(c: Config, script: Script<T>)
    requires 0 <= c.maxRetries < |script|
    ensures Settlement(c, script) == Failure(Escaped) <==>
              exists n: nat :: n <= c.maxRetries && script[n].outcome.Uncaught?
                && forall i: nat :: i < n ==> Retryable(script[i].outcome)
  {
    var s := Settles(script, c.maxRetries + 1);
    if s.Some? && script[s.value].outcome.Uncaught? {
      assert forall i: nat :: i < s.value ==> Retryable(script[i].outcome);
    }
  }

  /** retry_count counts failed attempts: it exceeds the retries actually made by one exactly when the
      budget was spent in vain. */
  lemma {:induction false} RetryCountIff<T>(c: Config, script: Script<T>)
    requires 0 <= c.maxRetries < |script|
    ensures RetryableAmong(script, Attempts(c, script)) == Retries(c, script)
              + if Settles(script, c.maxRetries + 1).None? then 1 else 0
  {
    AllRetryable(script, Retries(c, script));
  }

  lemma {:induction false} AllRetryable<T>(script: Script<T>, n: nat)
    requires n <= |script| && forall i: nat :: i < n ==> Retryable(script[i].outcome)
    ensures RetryableAmong(script, n) == n
  {
    if n > 0 {
      AllRetryable(script, n - 1);
    }
  }

  // ---------------------------------------------------------------------------------------------
  // What get makes of the server's answers
  // ---------------------------------------------------------------------------------------------

  /** The outcomes get tries again after: a connection error or timeout, and seven statuses. */
  ghost predicate Transient<T>(o: Outcome<T>) {
    o.TransportError? ||
    (o.Response? && (o.status == 408 || o.status == 425 || o.status == 429 || o.status == 500 || o.status == 502
                     || o.status == 503 || o.status == 504))
  }

  /** Outcome n is within the budget, and all before it are transient. */
  ghost predicate Reached<T>(c: Config, script: Script<T>, n: nat)
    requires |script| > c.maxRetries
  {
    n <= c.maxRetries && forall i: nat :: i < n ==> Transient(script[i].outcome)
  }

  lemma TransientIff<T>(o: Outcome<T>)
    ensures Transient(o) <==> Retryable(o)
  {
  }

  /** The outcome get settles on is reached, and is not transient unless it is the last of the budget. */
  lemma SettlesOn<T>(c: Config, script: Script<T>) returns (n: nat)
    requires 0 <= c.maxRetries < |script|
    ensures Reached(c, script, n) && n + 1 == Attempts(c, script)
    ensures Transient(script[n].outcome) ==> n == c.maxRetries
    ensures Settlement(c, script) == Verdict(script[n].outcome)
    ensures forall m: nat :: Reached(c, script, m) && (Transient(script[m].outcome) ==> m == c.maxRetries) ==> m == n
  {
    n := Attempts(c, script) - 1;
    AttemptsReach(c, script);
    OnlyOneReached(c, script, n);
  }

  lemma AttemptsReach<T>(c: Config, script: Script<T>)
    requires 0 <= c.maxRetries < |script|
    ensures
      var n := Attempts(c, script) - 1;
      Reached(c, script, n) && (Transient(script[n].outcome) ==> n == c.maxRetries)
  {
    AttemptsBound(c, script);
    var n := Attempts(c, script) - 1;
    forall i: nat | i <= n ensures Transient(script[i].outcome) <==> Retryable(script[i].outcome) {
      TransientIff(script[i].outcome);
    }
  }

  lemma OnlyOneReached<T>(c: Config, script: Script<T>, n: nat)
    requires |script| > c.maxRetries && Reached(c, script, n) && (Transient(script[n].outcome) ==> n == c.maxRetries)
    ensures forall m: nat :: Reached(c, script, m) && (Transient(script[m].outcome) ==> m == c.maxRetries) ==> m == n
  {
  }

  /** A response below 400 with this JSON body. */
  ghost predicate Delivers<T>(o: Outcome<T>, body: T) {
    o.Response? && o.status < 400 && o.body == Some(body)
  }

  /** get succeeds exactly with the body of a response with a status below 400, within the budget, before which every
      attempt met a transient failure. */
  lemma SucceedsIff<T>(c: Config, script: Script<T>, body: T)
    requires 0 <= c.maxRetries < |script|
    ensures Settlement(c, script) == Success(body) <==>
              exists n: nat :: Reached(c, script, n) && Delivers(script[n].outcome, body)
  {
    var n := SettlesOn(c, script);
    if m: nat :| Reached(c, script, m) && Delivers(script[m].outcome, body) {
      assert !Transient(script[m].outcome);
    }
  }

  /** It fails with a status exactly when it reaches a response with that status, 400 or more, and the status is not
      one of the seven or the budget ends there. */
  lemma FailsWithStatusIff<T>(c: Config, script: Script<T>, status: int)
    requires 0 <= c.maxRetries < |script|
    ensures Settlement(c, script) == Failure(HttpStatus(status)) <==>
              exists n: nat :: (
                && Reached(c, script, n) && (Transient(script[n].outcome) ==> n == c.maxRetries)
                && script[n].outcome.Response? && script[n].outcome.status == status && status >= 400)
  {
    var n := SettlesOn(c, script);
  }

  /** A reply below 400 that is not JSON, or a ValueError of the library. */
  ghost predicate IllFormed<T>(o: Outcome<T>) {
    o.BadValue? || (o.Response? && o.status < 400 && o.body.None?)
  }

  /** It fails otherwise in these ways: with a transport error at the end of the budget, on a reply below 400 that is
      not JSON or a ValueError of the library, and untried with a negative budget.  All but the last, and what
      escapes, are counted. */
  lemma FailsOtherwiseIff<T>(c: Config, script: Script<T>)
    requires |script| > c.maxRetries
    ensures Settlement(c, script) == Failure(NeverTried) <==> c.maxRetries < 0
    ensures Settlement(c, script) == Failure(Transport) <==>
              c.maxRetries >= 0 && Reached(c, script, c.maxRetries) && script[c.maxRetries].outcome.TransportError?
    ensures Settlement(c, script) == Failure(NotJson) <==>
              exists n: nat :: Reached(c, script, n) && IllFormed(script[n].outcome)
    ensures Settlement(c, script).Failure? ==>
              (Counted(Settlement(c, script).error) <==>
                Settlement(c, script).error != NeverTried && Settlement(c, script).error != Escaped)
  {
    if c.maxRetries >= 0 {
      var n := SettlesOn(c, script);
      if m: nat :| Reached(c, script, m) && IllFormed(script[m].outcome) {
        assert !Transient(script[m].outcome);
      }
    }
  }

  lemma HalfScaled(delay: real, jitter: real)
    ensures 2.0 * Jittered(delay, jitter) == delay * (1.0 + jitter)
  {
    assert 2.0 * (delay * (0.5 + jitter / 2.0)) == delay * (2.0 * (0.5 + jitter / 2.0));
  }

  /** The header asks for x seconds, x >= 0. */
  predicate Asks(retryAfter: Option<RetryAfter>, x: real) {
    retryAfter == Some(Seconds(x)) && x >= 0.0
  }

  lemma AskedPause(c: Config, attempt: nat, retryAfter: Option<RetryAfter>, jitter: real, x: real)
    requires c.backoffMax >= 0.0 && Asks(retryAfter, x)
    ensures SleepFor(c, attempt, retryAfter, jitter) == if x <= c.backoffMax then x else c.backoffMax
  {
  }

  /** The doubled base, up to backoff_max, scaled by the draw to between half of it and all of it. */
  ghost predicate IsBackoff(c: Config, attempt: nat, jitter: real, pause: real) {
    var delay := c.backoffBase * Pow2(attempt);
    2.0 * pause == (if delay <= c.backoffMax then delay else c.backoffMax) * (1.0 + jitter)
  }

  lemma UnaskedPause(c: Config, attempt: nat, retryAfter: Option<RetryAfter>, jitter: real)
    requires forall x :: !Asks(retryAfter, x)
    ensures IsBackoff(c, attempt, jitter, SleepFor(c, attempt, retryAfter, jitter))
  {
    ExponentialIsPower(c.backoffBase, attempt);
    HalfScaled(Min(Exponential(c.backoffBase, attempt), c.backoffMax), jitter);
    if retryAfter.Some? && retryAfter.value.Seconds? {
      assert !Asks(retryAfter, retryAfter.value.x);
    }
  }

  /** The Retry-After of a response; no other outcome has one. */
  predicate Advised<T>(o: Outcome<T>, x: real) {
    o.Response? && Asks(o.retryAfter, x)
  }

  /** The pause after attempt n.  A Retry-After of x >= 0 seconds on the response is slept, up to backoff_max ... */
  lemma AdvisedPause<T>(c: Config, script: Script<T>, n: nat, x: real) returns (pause: real)
    requires c.backoffMax >= 0.0 && n < |script| && Advised(script[n].outcome, x)
    ensures Slept(c, script, n + 1) == Slept(c, script, n) + pause
    ensures pause == if x <= c.backoffMax then x else c.backoffMax
  {
    pause := SleepFor(c, n, HeaderOf(script[n].outcome), script[n].jitter);
    AskedPause(c, n, HeaderOf(script[n].outcome), script[n].jitter, x);
  }

  /** ... and otherwise the backoff. */
  lemma BackoffPause<T>(c: Config, script: Script<T>, n: nat) returns (pause: real)
    requires n < |script| && forall x :: !Advised(script[n].outcome, x)
    ensures Slept(c, script, n + 1) == Slept(c, script, n) + pause
    ensures IsBackoff(c, n, script[n].jitter, pause)
  {
    pause := SleepFor(c, n, HeaderOf(script[n].outcome), script[n].jitter);
    NoHeaderNoAdvice(script[n].outcome);
    UnaskedPause(c, n, HeaderOf(script[n].outcome), script[n].jitter);
  }

  lemma NoHeaderNoAdvice<T>(o: Outcome<T>)
    requires forall x :: !Advised(o, x)
    ensures forall x :: !Asks(HeaderOf(o), x)
  {
    forall x ensures !Asks(HeaderOf(o), x) {
      assert !Advised(o, x);
    }
  }

  ghost function AnsweredBefore<T>(script: Script<T>, n: nat): set<nat>
    requires n <= |script|
  {
    set i: nat | i < n && script[i].outcome.Response?
  }

  ghost function FailedBefore<T>(script: Script<T>, n: nat): set<nat>
    requires n <= |script|
  {
    set i: nat | i < n && Transient(script[i].outcome)
  }

  /** request_count and retry_count are numbers of attempts: those answered ... */
  lemma {:induction false} ResponsesAreAnswered<T>(script: Script<T>, n: nat)
    requires n <= |script|
    ensures Responses(script, n) == |AnsweredBefore(script, n)|
  {
    if n == 0 {
      assert AnsweredBefore(script, n) == {};
    } else {
      ResponsesAreAnswered(script, n - 1);
      assert AnsweredBefore(script, n) ==
        AnsweredBefore(script, n - 1) + if script[n - 1].outcome.Response? then {n - 1} else {};
    }
  }

  /** ... and those that failed transiently. */
  lemma {:induction false} RetryablesFailed<T>(script: Script<T>, n: nat)
    requires n <= |script|
    ensures RetryableAmong(script, n) == |FailedBefore(script, n)|
  {
    if n == 0 {
      assert FailedBefore(script, n) == {};
    } else {
      RetryablesFailed(script, n - 1);
      TransientIff(script[n - 1].outcome);
      FailedStep(script, n);
    }
  }

  lemma FailedStep<T>(script: Script<T>, n: nat)
    requires 0 < n <= |script|
    ensures |FailedBefore(script, n)|
         == |FailedBefore(script, n - 1)| + if Transient(script[n - 1].outcome) then 1 else 0
  {
    var before, after, failed := FailedBefore(script, n - 1), FailedBefore(script, n), Transient(script[n - 1].outcome);
    forall i: nat ensures i in after <==> i in before || (failed && i == n - 1) {
    }
    if failed {
      assert after == before + {n - 1};
    } else {
      assert after == before;
    }
  }
}
