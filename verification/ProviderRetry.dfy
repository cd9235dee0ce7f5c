/**
 The retry loop of GeminiProvider.generate (providers/gemini_provider.py): its timing and the way it ends.

 Time passes only in requests and sleeps.  The n-th request meets `upstream(n)`; whatever the upstream
 does, a request lasts no longer than the timeout it is given.
 */
module ProviderRetry {
  import opened Options

  /** What a request meets, after `latency` seconds: a response, a timeout, or another exception (no RuntimeError). */
  datatype Reply =
    | Response(status: int, retryDelay: Option<real>, latency: real)
    | RequestTimeout(latency: real)
    | ConnectionFailed(latency: real)
    | UnexpectedError(latency: real)

  datatype Ending = Answered(status: int) | RuntimeFailure | ValueFailure

  const MAX_RETRIES := 3

  function Max(a: real, b: real): real { if a >= b then a else b }
  function Min(a: real, b: real): real { if a <= b then a else b }

  /** The timeout handed to a request that starts after `elapsed` seconds. */
  function RequestBudget(timeout: real, elapsed: real): real { Max(1.0, timeout - elapsed) }

  function Took(reply: Reply, budget: real): real { Min(Max(reply.latency, 0.0), budget) }

  function BackoffSleep(timeout: real, elapsed: real, backoff: real): real {
    Min(backoff, Max(1.0, timeout - elapsed))
  }

  function RateLimitSleep(retryDelay: Option<real>, backoff: real): real {
    Max(if retryDelay.Some? then retryDelay.value else backoff, backoff) + 1.0
  }

  /** After a request: stop with an ending, or sleep and try again. */
  datatype Decision = Stop(ending: Ending) | Retry(sleep: real)

  /** The shared tail of the exception handlers. */
  function AfterException(timeout: real, elapsed: real, attempt: nat, backoff: real): Decision {
    if attempt == MAX_RETRIES - 1 || elapsed >= timeout then Stop(RuntimeFailure)
    else Retry(BackoffSleep(timeout, elapsed, backoff))
  }

  /** raise_for_status raises for exactly these statuses; it lets 600 and above pass. */
  predicate IsHttpError(status: int) { 400 <= status < 600 }

  /**
   The branches on a response.  401 and 403 raise ValueError inside the try block, so the handler for
   unexpected exceptions catches them and retries; an error response is falsy, so the
   handler for HTTP errors always reports status 500.
   */
  function Decide(timeout: real, elapsed: real, attempt: nat, backoff: real, reply: Reply): Decision {
    match reply
    case Response(status, retryDelay, _) =>
      if status == 429 then
        var sleep := RateLimitSleep(retryDelay, backoff);
        if elapsed + sleep >= timeout then Stop(RuntimeFailure)
        else if attempt < MAX_RETRIES - 1 then Retry(sleep)
        else Stop(RuntimeFailure)
      else if status == 401 || status == 403 then AfterException(timeout, elapsed, attempt, backoff)
      else if status == 404 then Stop(RuntimeFailure)
      else if status == 503 then
        if attempt < MAX_RETRIES - 1 then Retry(BackoffSleep(timeout, elapsed, backoff)) else Stop(RuntimeFailure)
      else if IsHttpError(status) then AfterException(timeout, elapsed, attempt, backoff)
      else Stop(Answered(status))
    case _ => AfterException(timeout, elapsed, attempt, backoff)
  }

  datatype Outcome = Outcome(ending: Ending, requests: nat, elapsed: real)

  /** The loop: about to start an attempt, or over. */
  datatype Loop = Trying(attempt: nat, elapsed: real, backoff: real) | Over(outcome: Outcome)

  function Follow(d: Decision, attempt: nat, elapsed: real, backoff: real): Loop {
    match d
    case Stop(ending) => Over(Outcome(ending, attempt + 1, elapsed))
    case Retry(sleep) => Trying(attempt + 1, elapsed + sleep, backoff * 2.0)
  }

  /** One turn of the loop; the third failure and a missed deadline end it. */
  function Turn(timeout: real, upstream: nat -> Reply, l: Loop): Loop {
    if l.Over? then l
    else if l.attempt >= MAX_RETRIES || l.elapsed >= timeout then Over(Outcome(RuntimeFailure, l.attempt, l.elapsed))
    else
      var after := l.elapsed + Took(upstream(l.attempt), RequestBudget(timeout, l.elapsed));
      Follow(Decide(timeout, after, l.attempt, l.backoff, upstream(l.attempt)), l.attempt, after, l.backoff)
  }

  function Turns(timeout: real, upstream: nat -> Reply, n: nat): Loop {
    if n == 0 then Trying(0, 0.0, 2.0) else Turn(timeout, upstream, Turns(timeout, upstream, n - 1))
  }

  lemma {:induction false} OverStaysOver(timeout: real, upstream: nat -> Reply, n: nat, m: nat)
    requires n <= m && Turns(timeout, upstream, n).Over?
    ensures Turns(timeout, upstream, m) == Turns(timeout, upstream, n)
  {
    if n < m { OverStaysOver(timeout, upstream, n, m - 1); }
  }

  /** What the try block and its handlers do with one reply. */
  method Handle(timeout: real, elapsed: real, attempt: nat, backoff: real, reply: Reply) returns (d: Decision)
    ensures d == Decide(timeout, elapsed, attempt, backoff, reply)
  {
    if reply.Response? && reply.status == 429 {
      var sleep := RateLimitSleep(reply.retryDelay, backoff);
      if elapsed + sleep >= timeout { return Stop(RuntimeFailure); }
      if attempt < MAX_RETRIES - 1 { return Retry(sleep); }
      return Stop(RuntimeFailure);
    }
    if reply.Response? && reply.status == 404 { return Stop(RuntimeFailure); }
    if reply.Response? && reply.status == 503 {
      if attempt < MAX_RETRIES - 1 { return Retry(BackoffSleep(timeout, elapsed, backoff)); }
      return Stop(RuntimeFailure);
    }
    if reply.Response? && !IsHttpError(reply.status) { return Stop(Answered(reply.status)); }
    if attempt == MAX_RETRIES - 1 || elapsed >= timeout { return Stop(RuntimeFailure); }
    d := Retry(BackoffSleep(timeout, elapsed, backoff));
  }

  /** One attempt: the deadline check, the request, what its reply leads to. */
  method Attempt(timeout: real, upstream: nat -> Reply, attempt: nat, elapsed: real, backoff: real) returns (l: Loop)
    requires attempt < MAX_RETRIES
    ensures l == Turn(timeout, upstream, Trying(attempt, elapsed, backoff))
    ensures l.Trying? ==> l.attempt == attempt + 1
  {
    if elapsed >= timeout { return Over(Outcome(RuntimeFailure, attempt, elapsed)); }
    var after := elapsed + Took(upstream(attempt), RequestBudget(timeout, elapsed));
    var d := Handle(timeout, after, attempt, backoff, upstream(attempt));
    l := Follow(d, attempt, after, backoff);
  }

  lemma {:induction false} TurnsStep(timeout: real, upstream: nat -> Reply, n: nat)
    ensures Turns(timeout, upstream, n + 1) == Turn(timeout, upstream, Turns(timeout, upstream, n))
  {
  }

  method Generate(timeout: real, upstream: nat -> Reply) returns (outcome: Outcome)
    ensures Turns(timeout, upstream, MAX_RETRIES + 1) == Over(outcome)
  {
    var elapsed, backoff := 0.0, 2.0;
    for attempt := 0 to MAX_RETRIES
      invariant Turns(timeout, upstream, attempt) == Trying(attempt, elapsed, backoff)
    {
      var l := Attempt(timeout, upstream, attempt, elapsed, backoff);
      TurnsStep(timeout, upstream, attempt);
      if l.Over? {
        OverStaysOver(timeout, upstream, attempt + 1, MAX_RETRIES + 1);
        return l.outcome;
      }
      elapsed, backoff := l.elapsed, l.backoff;
    }
    outcome := Outcome(RuntimeFailure, MAX_RETRIES, elapsed);
  }

  // ---------------------------------------------------------------- main results

  lemma {:induction false} RequestEndsInTime(timeout: real, elapsed: real, reply: Reply)
    requires elapsed < timeout
    ensures elapsed <= elapsed + Took(reply, RequestBudget(timeout, elapsed)) < timeout + 1.0
  {
  }

  lemma {:induction false} SleepEndsInTime(timeout: real, elapsed: real, attempt: nat, backoff: real, reply: Reply)
    requires elapsed < timeout + 1.0 && attempt < MAX_RETRIES
    ensures var d := Decide(timeout, elapsed, attempt, backoff, reply);
            && (d.Retry? ==> elapsed + d.sleep < timeout + 2.0)
            && (d.Stop? ==> d.ending != ValueFailure)
            && (attempt >= MAX_RETRIES - 1 ==> d.Stop?)
            && (d.Stop? && d.ending.Answered? ==>
                  reply.Response? && d.ending.status == reply.status && !IsHttpError(reply.status))
  {
  }

  predicate WithinBounds(timeout: real, upstream: nat -> Reply, n: nat, l: Loop) {
    match l
    case Trying(attempt, elapsed, _) => attempt == n < MAX_RETRIES && elapsed < Max(timeout, 0.0) + 2.0
    case Over(o) =>
      && o.requests <= MAX_RETRIES && o.elapsed < Max(timeout, 0.0) + 2.0
      && (timeout <= 0.0 ==> o.requests == 0)
      && o.ending != ValueFailure
      && (o.ending.Answered? ==>
            0 < o.requests && upstream(o.requests - 1).Response?
            && o.ending.status == upstream(o.requests - 1).status && !IsHttpError(o.ending.status))
  }

  lemma {:induction false} TurnStaysWithinBounds(timeout: real, upstream: nat -> Reply, n: nat, l: Loop)
    requires WithinBounds(timeout, upstream, n, l) && (timeout <= 0.0 && l.Trying? ==> n == 0 && l.elapsed == 0.0)
    ensures WithinBounds(timeout, upstream, n + 1, Turn(timeout, upstream, l))
    ensures timeout <= 0.0 ==> Turn(timeout, upstream, l).Over?
  {
    if l.Trying? && l.attempt < MAX_RETRIES && l.elapsed < timeout {
      var reply := upstream(l.attempt);
      RequestEndsInTime(timeout, l.elapsed, reply);
      SleepEndsInTime(timeout, l.elapsed + Took(reply, RequestBudget(timeout, l.elapsed)), l.attempt, l.backoff, reply);
    }
  }

  lemma {:induction false} TurnsStayWithinBounds(timeout: real, upstream: nat -> Reply, n: nat)
    ensures WithinBounds(timeout, upstream, n, Turns(timeout, upstream, n))
    ensures timeout <= 0.0 && n > 0 ==> Turns(timeout, upstream, n).Over?
  {
    if n > 0 {
      TurnsStayWithinBounds(timeout, upstream, n - 1);
      TurnStaysWithinBounds(timeout, upstream, n - 1, Turns(timeout, upstream, n - 1));
    }
  }

  /**
   For every behaviour of the upstream: at most three requests; less than two seconds over the timeout;
   the loop never runs out of attempts; an answer only from the response to the last request sent,
   which is no HTTP error (below 400, or 600 and above); and no ValueError, although the 401 and 403 branches raise one.
   */
  lemma {:induction false} GenerateIsBounded(timeout: real, upstream: nat -> Reply)
    ensures Turns(timeout, upstream, MAX_RETRIES).Over?
    ensures Turns(timeout, upstream, MAX_RETRIES + 1) == Turns(timeout, upstream, MAX_RETRIES)
    ensures var o := Turns(timeout, upstream, MAX_RETRIES + 1).outcome;
            && o.requests <= 3
            && o.elapsed < Max(timeout, 0.0) + 2.0
            && (timeout <= 0.0 ==> o.requests == 0)
            && o.ending != ValueFailure
            && (o.ending.Answered? ==>
                  0 < o.requests && upstream(o.requests - 1).Response?
                  && o.ending.status == upstream(o.requests - 1).status && !IsHttpError(o.ending.status))
  {
    TurnsStayWithinBounds(timeout, upstream, MAX_RETRIES);
    OverStaysOver(timeout, upstream, MAX_RETRIES, MAX_RETRIES + 1);
  }

  // ---------------------------------------------------------------- what each reply leads to

  /** What a request answered with is returned: a status below 400, or 600 and above. */
  predicate IsGood(reply: Reply) { reply.Response? && (reply.status < 400 || reply.status >= 600) }

  /** The sleep before another attempt: the backoff, but no more than the time left, counted as at least a second. */
  predicate IsShortSleep(timeout: real, elapsed: real, backoff: real, sleep: real) {
    && sleep <= backoff && (sleep <= timeout - elapsed || sleep <= 1.0)
    && (sleep == backoff || sleep == timeout - elapsed || sleep == 1.0)
    && (backoff <= 1.0 ==> sleep == backoff) && (backoff > 1.0 ==> sleep >= 1.0)
  }

  /** Every reply, on the first, second or third attempt: an answer, the end, or one more attempt after a sleep. */
  lemma {:induction false} ReplyOutcome(timeout: real, elapsed: real, attempt: nat, backoff: real, reply: Reply)
    requires attempt < 3
    ensures var d, last := Decide(timeout, elapsed, attempt, backoff, reply), attempt == 2;
            if IsGood(reply) then d == Stop(Answered(reply.status))
            else if reply.Response? && reply.status == 404 then d == Stop(RuntimeFailure)
            else if reply.Response? && reply.status == 429 then
              var told := if reply.retryDelay.Some? && reply.retryDelay.value > backoff then reply.retryDelay.value
                          else backoff;
              d == if last || elapsed + told + 1.0 >= timeout then Stop(RuntimeFailure) else Retry(told + 1.0)
            else if last || (elapsed >= timeout && !(reply.Response? && reply.status == 503)) then
              d == Stop(RuntimeFailure)
            else d.Retry? && IsShortSleep(timeout, elapsed, backoff, d.sleep)
  {
  }

  /** The request is sent: the loop reaches this attempt before the deadline. */
  predicate IsSent(timeout: real, upstream: nat -> Reply, n: nat) {
    Turns(timeout, upstream, n).Trying? && n < 3 && Turns(timeout, upstream, n).elapsed < timeout
  }

  lemma {:induction false} TryingMeansTurn(timeout: real, upstream: nat -> Reply, n: nat)
    requires Turns(timeout, upstream, n).Trying?
    ensures Turns(timeout, upstream, n).attempt == n < 3
  {
    TurnsStayWithinBounds(timeout, upstream, n);
  }

  lemma {:induction false} GoodReplyIsAnswered(timeout: real, upstream: nat -> Reply, n: nat)
    requires IsSent(timeout, upstream, n) && IsGood(upstream(n))
    ensures Turns(timeout, upstream, 4).Over?
    ensures Turns(timeout, upstream, 4).outcome.ending == Answered(upstream(n).status)
    ensures Turns(timeout, upstream, 4).outcome.requests == n + 1
  {
    TryingMeansTurn(timeout, upstream, n);
    TurnsStep(timeout, upstream, n);
    OverStaysOver(timeout, upstream, n + 1, 4);
  }

  lemma {:induction false} AnswerComesFromTurn(timeout: real, upstream: nat -> Reply, n: nat)
    requires Turns(timeout, upstream, n).Over? && Turns(timeout, upstream, n).outcome.ending.Answered?
    ensures exists m: nat :: IsSent(timeout, upstream, m) && IsGood(upstream(m))
  {
    if Turns(timeout, upstream, n - 1).Over? {
      AnswerComesFromTurn(timeout, upstream, n - 1);
    } else {
      TryingMeansTurn(timeout, upstream, n - 1);
      TurnsStep(timeout, upstream, n - 1);
      assert IsSent(timeout, upstream, n - 1) && IsGood(upstream(n - 1));
    }
  }

  /** The call returns an answer if and only if a request that is sent meets a good one, and then it is that one. */
  lemma {:induction false} AnsweredIff(timeout: real, upstream: nat -> Reply)
    ensures Turns(timeout, upstream, 4).Over?
    ensures Turns(timeout, upstream, 4).outcome.ending.Answered?
       <==> exists n: nat :: IsSent(timeout, upstream, n) && IsGood(upstream(n))
    ensures forall n: nat :: IsSent(timeout, upstream, n) && IsGood(upstream(n)) ==>
              Turns(timeout, upstream, 4).outcome.ending == Answered(upstream(n).status)
  {
    GenerateIsBounded(timeout, upstream);
    forall n: nat | IsSent(timeout, upstream, n) && IsGood(upstream(n))
      ensures Turns(timeout, upstream, 4).outcome.ending == Answered(upstream(n).status)
    {
      GoodReplyIsAnswered(timeout, upstream, n);
    }
    if Turns(timeout, upstream, 4).outcome.ending.Answered? { AnswerComesFromTurn(timeout, upstream, 4); }
  }

  /** Unavailable twice, then well: the third request is answered, after sleeps of two and four seconds. */
  lemma {:induction false} RecoversAfterOverload(timeout: real, upstream: nat -> Reply)
    requires timeout > 6.0 && upstream(0) == upstream(1) == Response(503, None, 0.0)
    requires upstream(2) == Response(200, None, 0.0)
    ensures Turns(timeout, upstream, 4) == Over(Outcome(Answered(200), 3, 6.0))
  {
    assert Turns(timeout, upstream, 1) == Trying(1, 2.0, 4.0);
    assert Turns(timeout, upstream, 2) == Trying(2, 6.0, 8.0);
    assert Turns(timeout, upstream, 3) == Over(Outcome(Answered(200), 3, 6.0));
    OverStaysOver(timeout, upstream, 3, 4);
  }

  /** A rate limit that names a delay is waited for, and a second more; the next request is answered. */
  lemma {:induction false} RateLimitIsWaitedFor(timeout: real, upstream: nat -> Reply, delay: real)
    requires delay >= 2.0 && timeout > delay + 1.0 && upstream(0) == Response(429, Some(delay), 0.0)
    requires upstream(1) == Response(200, None, 0.0)
    ensures Turns(timeout, upstream, 4) == Over(Outcome(Answered(200), 2, delay + 1.0))
  {
    assert Turns(timeout, upstream, 1) == Trying(1, delay + 1.0, 4.0);
    assert Turns(timeout, upstream, 2) == Over(Outcome(Answered(200), 2, delay + 1.0));
    OverStaysOver(timeout, upstream, 2, 4);
  }

  /** Unauthorised, then unavailable a moment before the deadline. */
  function SlowUpstream(timeout: real, margin: real): nat -> Reply {
    n => if n == 0 then Response(401, None, timeout - 2.0 - margin) else Response(503, None, 1.0)
  }

  /** The bound cannot be improved: for any margin there is an upstream that makes the call last that close to it. */
  lemma {:induction false} TwoSecondsOverIsApproached(timeout: real, margin: real)
    requires 0.0 < margin < 1.0 && timeout >= 3.0
    ensures Turns(timeout, SlowUpstream(timeout, margin), MAX_RETRIES + 1)
        == Over(Outcome(RuntimeFailure, 2, timeout + 2.0 - margin))
  {
    var u := SlowUpstream(timeout, margin);
    var t1 := timeout - 2.0 - margin;
    assert Took(u(0), RequestBudget(timeout, 0.0)) == t1;
    assert Turns(timeout, u, 1) == Trying(1, timeout - margin, 4.0);
    assert Took(u(1), RequestBudget(timeout, timeout - margin)) == 1.0;
    assert Turns(timeout, u, 2) == Trying(2, timeout - margin + 1.0 + 1.0, 8.0);
    assert Turns(timeout, u, 3) == Over(Outcome(RuntimeFailure, 2, timeout + 2.0 - margin));
    OverStaysOver(timeout, u, 3, 4);
  }

  predicate IsKeyRefusal(reply: Reply) { reply.Response? && reply.status in {401, 403} }

  /**
   An upstream that refuses the key, however slowly, is asked again until the attempts or the time are used up,
   and the caller sees a RuntimeError.
   */
  lemma {:induction false} RefusedKeyIsRetried(timeout: real, upstream: nat -> Reply)
    requires forall n :: IsKeyRefusal(upstream(n))
    ensures Turns(timeout, upstream, MAX_RETRIES).Over?
    ensures var o := Turns(timeout, upstream, MAX_RETRIES).outcome;
            && o.ending == RuntimeFailure
            && (o.requests < MAX_RETRIES ==> o.elapsed >= timeout)
  {
    RefusalsGoOn(timeout, upstream, MAX_RETRIES);
    GenerateIsBounded(timeout, upstream);
  }

  lemma {:induction false} RefusalsGoOn(timeout: real, upstream: nat -> Reply, n: nat)
    requires forall m :: IsKeyRefusal(upstream(m))
    ensures match Turns(timeout, upstream, n)
            case Trying(attempt, _, _) => attempt == n
            case Over(o) => o.ending == RuntimeFailure && (o.requests < MAX_RETRIES ==> o.elapsed >= timeout)
  {
    if n > 0 {
      RefusalsGoOn(timeout, upstream, n - 1);
      assert IsKeyRefusal(upstream(n - 1));
      TurnsStep(timeout, upstream, n - 1);
    }
  }

  /** With replies at once and time to spare these are three requests, with sleeps of two and four seconds. */
  lemma {:induction false} InstantRefusalsTakeSixSeconds(timeout: real, upstream: nat -> Reply)
    requires timeout > 6.0 && forall n :: upstream(n) == Response(401, None, 0.0)
    ensures Turns(timeout, upstream, MAX_RETRIES + 1) == Over(Outcome(RuntimeFailure, 3, 6.0))
  {
    assert Turns(timeout, upstream, 1) == Trying(1, 2.0, 4.0);
    assert Turns(timeout, upstream, 2) == Trying(2, 6.0, 8.0);
    assert Turns(timeout, upstream, 3) == Over(Outcome(RuntimeFailure, 3, 6.0));
    OverStaysOver(timeout, upstream, 3, 4);
  }
}
