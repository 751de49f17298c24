/**
  `exponential_backoff`: call a function until it returns, at most
  `max_retries` times, sleeping a jittered, doubling delay between attempts.
  The function's outcomes and the random jitter are parameters: `call(k)` is
  what attempt `k + 1` does and `jitter(k)` is the `random.random()` drawn
  after it fails.
 */
module Retry {

  /** A value of `random.random()`: in [0, 1). */
  type Unit = x: real | 0.0 <= x < 1.0

  /** What one call of the wrapped function does. */
  datatype Attempt<T, E> = Ok(value: T) | Fail(error: E)

  /** Why `exponential_backoff` raised. */
  datatype Raise<E> =
    | Reraised(error: E)   // the last attempt's own exception, re-raised
    | NoneRaised           // `raise None` when no attempt ran: a TypeError
    | NegativeSleep        // `time.sleep` of a negative delay: a ValueError

  datatype Outcome<T, E> = Returned(value: T) | Raised(exc: Raise<E>)

  function Pow2(k: nat): (p: nat)
    ensures p >= 1
  {
    if k == 0 then 1 else 2 * Pow2(k - 1)
  }

  /** The sleep after failed attempt number `attempt` (counted from 1):
      `initial_delay * 2 ** (attempt - 1) * (0.5 + random())`. */
  function Delay(initialDelay: real, attempt: nat, jitter: Unit): real
    requires attempt >= 1
  {
    initialDelay * (Pow2(attempt - 1) as real) * (0.5 + jitter)
  }

  /** The jitter keeps each delay within half and one and a half times the
      plain doubling delay, and the delay has the sign of the initial one. */
  lemma DelayBounds(initialDelay: real, attempt: nat, jitter: Unit)
    requires attempt >= 1
    ensures var base := initialDelay * (Pow2(attempt - 1) as real);
      && (initialDelay >= 0.0 ==> base * 0.5 <= Delay(initialDelay, attempt, jitter) <= base * 1.5)
      && (initialDelay > 0.0 ==> Delay(initialDelay, attempt, jitter) < base * 1.5)
      && (Delay(initialDelay, attempt, jitter) < 0.0 <==> initialDelay < 0.0)
  {
    var p := Pow2(attempt - 1) as real;
    var base := initialDelay * p;
    var f := 0.5 + jitter;
    assert Delay(initialDelay, attempt, jitter) == base * f;
    SameSign(initialDelay, p);
    if initialDelay == 0.0 {
      assert base == 0.0;
      assert base * f == 0.0;
    } else {
      ScaleBounds(base, f);
      assert initialDelay > 0.0 ==> base * 0.5 <= base * f < base * 1.5;
      assert initialDelay > 0.0 ==> base * 0.5 <= Delay(initialDelay, attempt, jitter) < base * 1.5;
    }
  }

  /** Scaling by a factor in [0.5, 1.5) keeps a value between its half and
      one and a half times itself, and keeps its sign. */
  lemma ScaleBounds(b: real, f: real)
    requires 0.5 <= f < 1.5
    ensures b >= 0.0 ==> b * 0.5 <= b * f <= b * 1.5
    ensures b > 0.0 ==> b * f < b * 1.5
    ensures b * f < 0.0 <==> b < 0.0
  {
    if b > 0.0 {
      MulPositive(b, 1.5 - f);
      assert b * (1.5 - f) == b * 1.5 - b * f;
      MulNonNegative(b, f - 0.5);
      assert b * (f - 0.5) == b * f - b * 0.5;
      MulPositive(b, f);
    } else if b < 0.0 {
      MulPositive(-b, f);
      assert (-b) * f == -(b * f);
    }
  }

  /** A product with a positive factor has the other factor's sign. */
  lemma SameSign(a: real, p: real)
    requires p > 0.0
    ensures a > 0.0 <==> a * p > 0.0
    ensures a < 0.0 <==> a * p < 0.0
  {
    if a > 0.0 {
      MulPositive(a, p);
    } else if a < 0.0 {
      MulPositive(-a, p);
      assert (-a) * p == -(a * p);
    }
  }

  lemma MulPositive(a: real, b: real)
    requires a > 0.0 && b > 0.0
    ensures a * b > 0.0
  {
  }

  lemma MulNonNegative(a: real, b: real)
    requires a >= 0.0 && b >= 0.0
    ensures a * b >= 0.0
  {
  }

  /** The loop of `exponential_backoff`. `calls` counts the calls made and
      `delays` lists the sleeps taken, in order.
      - With `max_retries < 1` nothing is called and `raise None` fails.
      - The first attempt that returns ends the loop with its value.
      - A failure of the last permitted attempt is re-raised.
      - Between attempts the delay doubles, jittered; a negative delay makes
        the sleep raise ValueError after the first failure. */
  method Backoff<T, E>(call: nat -> Attempt<T, E>, maxRetries: int, initialDelay: real,
                       jitter: nat -> Unit)
    returns (out: Outcome<T, E>, calls: nat, delays: seq<real>)
    ensures maxRetries < 1 ==> calls == 0
    ensures out == Raised(NoneRaised) <==> maxRetries < 1
    ensures maxRetries >= 1 ==> 1 <= calls <= maxRetries
    ensures forall j :: 0 <= j < calls - 1 ==> call(j).Fail?
    ensures out.Returned? <==> calls >= 1 && call(calls - 1).Ok?
    ensures out.Returned? ==> out.value == call(calls - 1).value
    ensures out.Raised? && out.exc.Reraised? <==>
      maxRetries >= 1 && calls == maxRetries && call(calls - 1).Fail?
    ensures out.Raised? && out.exc.Reraised? ==> out.exc.error == call(calls - 1).error
    ensures out == Raised(NegativeSleep) <==>
      initialDelay < 0.0 && maxRetries >= 2 && call(0).Fail?
    ensures out == Raised(NegativeSleep) ==> calls == 1 && delays == []
    ensures out != Raised(NegativeSleep) ==>
      |delays| == (if calls == 0 then 0 else calls - 1)
      && forall j :: 0 <= j < |delays| ==> delays[j] == Delay(initialDelay, j + 1, jitter(j))
  {
    var attempt := 1;
    calls, delays := 0, [];
    while attempt <= maxRetries
      invariant 1 <= attempt && calls == attempt - 1
      invariant maxRetries >= 1 ==> attempt <= maxRetries
      invariant maxRetries < 1 ==> attempt == 1
      invariant forall j :: 0 <= j < calls ==> call(j).Fail?
      invariant |delays| == calls
      invariant forall j :: 0 <= j < |delays| ==> delays[j] == Delay(initialDelay, j + 1, jitter(j))
      invariant calls >= 1 ==> initialDelay >= 0.0
    {
      calls := calls + 1;
      match call(attempt - 1)
      case Ok(v) =>
        return Returned(v), calls, delays;
      case Fail(e) =>
        if attempt == maxRetries {
          return Raised(Reraised(e)), calls, delays;
        }
        var delay := Delay(initialDelay, attempt, jitter(attempt - 1));
        DelayBounds(initialDelay, attempt, jitter(attempt - 1));
        if delay < 0.0 {
          return Raised(NegativeSleep), calls, delays;
        }
        delays := delays + [delay];
        attempt := attempt + 1;
    }
    out := Raised(NoneRaised);
  }
}
