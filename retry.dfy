/**
 * The retry policy of `robust_api_call` (web/pages/poke_fight.py): a bounded
 * loop over GET attempts that stops on 200, waits on 429, backs off
 * exponentially on 500/503, connection errors and timeouts, and fails fast on
 * everything else.
 *
 * The network is a function from the attempt number (the value of `retries`
 * when the attempt is made) to that attempt's outcome; `time.sleep` is
 * recorded as the list of durations slept, in order.
 */
module RetryClient {
  import opened Wrappers
  import opened Http

  /** `base ** exponent` on naturals. */
  function Pow(base: nat, exponent: nat): nat
  {
    if exponent == 0 then 1 else base * Pow(base, exponent - 1)
  }

  /** What the loop does after one attempt. */
  datatype Reaction<J> =
    | Succeed(payload: J)   // return the parsed body
    | Sleep(seconds: nat)   // sleep, count the attempt, try again
    | GiveUp                // break out of the loop and return None

  /** The loop's reaction to the outcome of the attempt made when `retries` attempts have failed. */
  function React<J>(outcome: Outcome<J>, backoffFactor: nat, retries: nat): (r: Reaction<J>)
    ensures r.Succeed? ==> outcome.Response? && r.payload == outcome.body
    ensures r.Sleep? && outcome.Response? && outcome.status == TOO_MANY_REQUESTS ==> r.seconds == outcome.retryAfter.GetOr(1)
    ensures r.Sleep? && !(outcome.Response? && outcome.status == TOO_MANY_REQUESTS) ==> r.seconds == Pow(backoffFactor, retries)
  {
    match outcome
    case Response(status, retryAfter, body) =>
      if status == OK then Succeed(body)
      else if status == TOO_MANY_REQUESTS then Sleep(retryAfter.GetOr(1))
      else if status == INTERNAL_SERVER_ERROR || status == SERVICE_UNAVAILABLE then Sleep(Pow(backoffFactor, retries))
      else GiveUp  // 400, 401, 403, 404 and every other status
    case ConnectionError => Sleep(Pow(backoffFactor, retries))
    case Timeout => Sleep(Pow(backoffFactor, retries))
    case OtherRequestError => GiveUp
  }

  /** An outcome after which the call ends at once with no sleep. */
  predicate FailsFast<J>(outcome: Outcome<J>)
  {
    || (outcome.Response? && outcome.status !in {OK, TOO_MANY_REQUESTS, INTERNAL_SERVER_ERROR, SERVICE_UNAVAILABLE})
    || outcome.OtherRequestError?
  }

  /** An outcome after which the loop sleeps and tries again. */
  predicate Retryable<J>(outcome: Outcome<J>)
  {
    || (outcome.Response? && outcome.status in {TOO_MANY_REQUESTS, INTERNAL_SERVER_ERROR, SERVICE_UNAVAILABLE})
    || outcome.ConnectionError?
    || outcome.Timeout?
  }

  /** What one call produced: its result, the sleeps it made and how many attempts it made. */
  datatype Call<J> = Call(result: Option<J>, sleeps: seq<nat>, attempts: nat) {

    /** This call preceded by `attempts` retried attempts that slept `sleeps`. */
    function After(sleeps: seq<nat>, attempts: nat): Call<J>
    {
      Call(result, sleeps + this.sleeps, attempts + this.attempts)
    }
  }

  lemma AfterAfter<J>(c: Call<J>, inner: seq<nat>, innerAttempts: nat, outer: seq<nat>, outerAttempts: nat)
    ensures c.After(inner, innerAttempts).After(outer, outerAttempts) == c.After(outer + inner, outerAttempts + innerAttempts)
  {
    assert outer + (inner + c.sleeps) == (outer + inner) + c.sleeps;
  }

  /** The rest of a call, from the attempt made when `retries` attempts have failed. */
  function CallFrom<J>(net: nat -> Outcome<J>, maxRetries: int, backoffFactor: nat, retries: nat): (c: Call<J>)
    ensures maxRetries <= retries ==> c == Call(None, [], 0)
    ensures retries < maxRetries ==> 1 <= c.attempts <= maxRetries - retries
    ensures c.result.Some? ==> |c.sleeps| == c.attempts - 1
    ensures c.result.None? ==> |c.sleeps| == c.attempts || |c.sleeps| == c.attempts - 1
    decreases maxRetries - retries
  {
    if maxRetries <= retries then Call(None, [], 0)
    else
      match React(net(retries), backoffFactor, retries)
      case Succeed(payload) => Call(Some(payload), [], 1)
      case GiveUp => Call(None, [], 1)
      case Sleep(seconds) =>
        var rest := CallFrom(net, maxRetries, backoffFactor, retries + 1);
        Call(rest.result, [seconds] + rest.sleeps, rest.attempts + 1)
  }

  /** One turn of the loop, made after `retries` failed attempts that slept `sleeps`. */
  lemma CallStep<J>(net: nat -> Outcome<J>, maxRetries: int, backoffFactor: nat, retries: nat, sleeps: seq<nat>)
    requires retries < maxRetries
    ensures CallFrom(net, maxRetries, backoffFactor, retries).After(sleeps, retries)
            == match React(net(retries), backoffFactor, retries)
               case Succeed(payload) => Call(Some(payload), sleeps, retries + 1)
               case GiveUp => Call(None, sleeps, retries + 1)
               case Sleep(seconds) => CallFrom(net, maxRetries, backoffFactor, retries + 1).After(sleeps + [seconds], retries + 1)
  {
    match React(net(retries), backoffFactor, retries)
    case Succeed(_) => assert sleeps + [] == sleeps;
    case GiveUp => assert sleeps + [] == sleeps;
    case Sleep(seconds) =>
      AfterAfter(CallFrom(net, maxRetries, backoffFactor, retries + 1), [seconds], 1, sleeps, retries);
  }

  /** A whole call: `robust_api_call(url, max_retries, backoff_factor)`. */
  function RobustCall<J>(net: nat -> Outcome<J>, maxRetries: int, backoffFactor: nat): (c: Call<J>)
    ensures maxRetries <= 0 ==> c == Call(None, [], 0)
    ensures maxRetries > 0 ==> 1 <= c.attempts <= maxRetries
    ensures c.result.Some? ==> |c.sleeps| == c.attempts - 1
  {
    CallFrom(net, maxRetries, backoffFactor, 0)
  }

  /** The loop as the source writes it. */
  method RobustApiCall<J>(net: nat -> Outcome<J>, maxRetries: int, backoffFactor: nat)
    returns (result: Option<J>, sleeps: seq<nat>, attempts: nat)
    ensures Call(result, sleeps, attempts) == RobustCall(net, maxRetries, backoffFactor)
  {
    var retries: nat := 0;
    sleeps := [];
    while retries < maxRetries
      invariant retries == 0 || retries <= maxRetries
      invariant RobustCall(net, maxRetries, backoffFactor) == CallFrom(net, maxRetries, backoffFactor, retries).After(sleeps, retries)
      decreases maxRetries - retries
    {
      CallStep(net, maxRetries, backoffFactor, retries, sleeps);
      match React(net(retries), backoffFactor, retries) {
        case Succeed(payload) =>
          return Some(payload), sleeps, retries + 1;
        case GiveUp =>
          // break: the loop is left and the call returns None
          return None, sleeps, retries + 1;
        case Sleep(wait) =>
          sleeps := sleeps + [wait];
      }
      retries := retries + 1;
    }
    return None, sleeps, retries;
  }

  /** Every attempt in [lo, hi) was followed by a sleep and a retry. */
  ghost predicate Retried<J>(net: nat -> Outcome<J>, backoffFactor: nat, lo: nat, hi: nat)
  {
    forall j: nat | lo <= j < hi :: React(net(j), backoffFactor, j).Sleep?
  }

  /** The sleeps made after the attempts in [lo, hi). */
  function Waits<J>(net: nat -> Outcome<J>, backoffFactor: nat, lo: nat, hi: nat): seq<nat>
    requires lo <= hi && Retried(net, backoffFactor, lo, hi)
    decreases hi - lo
  {
    if lo == hi then [] else [React(net(lo), backoffFactor, lo).seconds] + Waits(net, backoffFactor, lo + 1, hi)
  }

  /** A run of retried attempts only prepends its sleeps and its attempt count to the rest of the call. */
  lemma {:induction false} CallAfterRetries<J>(net: nat -> Outcome<J>, maxRetries: int, backoffFactor: nat, lo: nat, hi: nat)
    requires lo <= hi <= maxRetries && Retried(net, backoffFactor, lo, hi)
    ensures CallFrom(net, maxRetries, backoffFactor, lo)
            == CallFrom(net, maxRetries, backoffFactor, hi).After(Waits(net, backoffFactor, lo, hi), hi - lo)
    decreases hi - lo
  {
    if lo < hi {
      CallAfterRetries(net, maxRetries, backoffFactor, lo + 1, hi);
      assert React(net(lo), backoffFactor, lo).Sleep?;
    }
  }

  /** The i-th sleep is the one the policy prescribes for attempt `lo + i`. */
  lemma {:induction false} WaitAt<J>(net: nat -> Outcome<J>, backoffFactor: nat, lo: nat, hi: nat, i: nat)
    requires lo <= hi && Retried(net, backoffFactor, lo, hi) && i < hi - lo
    ensures |Waits(net, backoffFactor, lo, hi)| == hi - lo
    ensures Waits(net, backoffFactor, lo, hi)[i]
            == (if net(lo + i).Response? && net(lo + i).status == TOO_MANY_REQUESTS
                then net(lo + i).retryAfter.GetOr(1)
                else Pow(backoffFactor, lo + i))
    decreases hi - lo
  {
    if i > 0 {
      WaitAt(net, backoffFactor, lo + 1, hi, i - 1);
    } else if lo + 1 < hi {
      WaitAt(net, backoffFactor, lo + 1, hi, 0);
    }
  }

  /** The first 200 within the attempt budget ends the call with its body; no further attempt is made. */
  lemma FirstSuccessReturned<J>(net: nat -> Outcome<J>, maxRetries: int, backoffFactor: nat, k: nat)
    requires k < maxRetries && Retried(net, backoffFactor, 0, k)
    requires net(k).Response? && net(k).status == OK
    ensures RobustCall(net, maxRetries, backoffFactor) == Call(Some(net(k).body), Waits(net, backoffFactor, 0, k), k + 1)
  {
    CallAfterRetries(net, maxRetries, backoffFactor, 0, k);
  }

  /**
   * A 400, 401, 403, 404, any other unlisted status, or a request exception that
   * is neither a connection error nor a timeout ends the call after that attempt,
   * with None and without sleeping.
   */
  lemma FailFast<J>(net: nat -> Outcome<J>, maxRetries: int, backoffFactor: nat, k: nat)
    requires k < maxRetries && Retried(net, backoffFactor, 0, k)
    requires FailsFast(net(k))
    ensures RobustCall(net, maxRetries, backoffFactor) == Call(None, Waits(net, backoffFactor, 0, k), k + 1)
  {
    CallAfterRetries(net, maxRetries, backoffFactor, 0, k);
  }

  /** When every attempt is retried, the call makes exactly `maxRetries` attempts, sleeps after each, and returns None. */
  lemma RetriesExhausted<J>(net: nat -> Outcome<J>, maxRetries: nat, backoffFactor: nat)
    requires Retried(net, backoffFactor, 0, maxRetries)
    ensures RobustCall(net, maxRetries, backoffFactor) == Call(None, Waits(net, backoffFactor, 0, maxRetries), maxRetries)
  {
    CallAfterRetries(net, maxRetries, backoffFactor, 0, maxRetries);
  }

  /** Every outcome is exactly one of: success, retry, fail fast. */
  lemma {:induction false} ReactionClassifies<J>(outcome: Outcome<J>, backoffFactor: nat, retries: nat)
    ensures React(outcome, backoffFactor, retries).Succeed? <==> outcome.Response? && outcome.status == OK
    ensures React(outcome, backoffFactor, retries).Sleep? <==> Retryable(outcome)
    ensures React(outcome, backoffFactor, retries).GiveUp? <==> FailsFast(outcome)
  {
  }

  /** A scripted network: the listed outcomes in order, then `rest` for every later attempt. */
  function Script<J>(outcomes: seq<Outcome<J>>, rest: Outcome<J>): nat -> Outcome<J>
  {
    (i: nat) => if i < |outcomes| then outcomes[i] else rest
  }

  /** 429 without Retry-After, then 500, then 200, with the default policy: sleeps of 1 and 2 seconds, three attempts, the 200's body. */
  lemma RateLimitThenServerErrorThenSuccess<J>(payload: J, other: J)
    ensures RobustCall(Script([Response(429, None, other), Response(500, None, other)], Response(200, None, payload)), 5, 2)
            == Call(Some(payload), [1, 2], 3)
  {
    var net := Script([Response(429, None, other), Response(500, None, other)], Response(200, None, payload));
    assert Retried(net, 2, 0, 2);
    assert Waits(net, 2, 0, 2) == [1, 2];
    FirstSuccessReturned(net, 5, 2, 2);
  }

  /** A 404 ends the call after one attempt, with no sleep. */
  lemma NotFoundFailsFast<J>(other: J)
    ensures RobustCall(Script([], Response(404, None, other)), 5, 2) == Call(None, [], 1)
  {
    FailFast(Script([], Response(404, None, other)), 5, 2, 0);
  }

  /** Five 500s exhaust the default five attempts, sleeping 1, 2, 4, 8 and 16 seconds, and give None. */
  lemma ServerErrorsExhaustRetries<J>(other: J)
    ensures RobustCall(Script([], Response(500, None, other)), 5, 2) == Call(None, [1, 2, 4, 8, 16], 5)
  {
    var net := Script([], Response(500, None, other));
    assert Retried(net, 2, 0, 5) by {
      forall j: nat | j < 5 ensures React(net(j), 2, j).Sleep? {
        assert net(j) == Response(500, None, other);
      }
    }
    var waits := Waits(net, 2, 0, 5);
    WaitAt(net, 2, 0, 5, 0);
    WaitAt(net, 2, 0, 5, 1);
    WaitAt(net, 2, 0, 5, 2);
    WaitAt(net, 2, 0, 5, 3);
    WaitAt(net, 2, 0, 5, 4);
    assert Pow(2, 4) == 16 && Pow(2, 3) == 8 && Pow(2, 2) == 4;
    assert waits == [1, 2, 4, 8, 16];
    RetriesExhausted(net, 5, 2);
  }
}
