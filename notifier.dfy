/** `postWithRetries`: POST the callback to the evaluation url, at most eight
    times, doubling the wait after each failure.

    The network is a parameter: `respond(i)` is what the i-th POST (from 0)
    yields, a status code or a thrown error. Waiting is not performed; each
    wait is appended to a ghost log of delays in milliseconds. */
module Notifier {
  import opened Wrappers

  const MaxAttempts: nat := 8
  const FirstDelay: nat := 1000

  /** The outcome of one `fetch`: a response with its status, or an error. */
  datatype Attempt = Status(code: int) | Threw

  predicate Succeeded(a: Attempt) {
    a.Status? && a.code == 200
  }

  function Pow2(n: nat): (p: nat)
    ensures p >= 1
  {
    if n == 0 then 1 else 2 * Pow2(n - 1)
  }

  /** The waits after the first `n` failed attempts, in order. */
  function Backoff(n: nat): (delays: seq<nat>)
    ensures |delays| == n
  {
    if n == 0 then [] else Backoff(n - 1) + [FirstDelay * Pow2(n - 1)]
  }

  function Sum(delays: seq<nat>): nat {
    if delays == [] then 0 else Sum(delays[..|delays| - 1]) + delays[|delays| - 1]
  }

  /** The i-th wait is 1000 * 2^i ms, so each wait doubles the one before. */
  lemma {:induction false} BackoffDoubles(n: nat, i: nat)
    requires i < n
    ensures Backoff(n)[i] == FirstDelay * Pow2(i)
    ensures i + 1 < n ==> Backoff(n)[i + 1] == 2 * Backoff(n)[i]
  {
    if i + 1 < n {
      BackoffDoubles(n - 1, i);
      if i + 2 < n {
        BackoffDoubles(n - 1, i + 1);
      }
    } else {
      assert Backoff(n)[..n - 1] == Backoff(n - 1);
    }
  }

  /** The waits after `n` failures add up to 1000 * (2^n - 1) ms. */
  lemma {:induction false} BackoffTotal(n: nat)
    ensures Sum(Backoff(n)) == FirstDelay * (Pow2(n) - 1)
  {
    if n > 0 {
      BackoffTotal(n - 1);
      var delays := Backoff(n);
      assert delays[..n - 1] == Backoff(n - 1);
    }
  }

  /** An unreachable evaluator costs 255 seconds of waiting. */
  lemma AllFailuresWait255Seconds()
    ensures Sum(Backoff(MaxAttempts)) == 255000
  {
    BackoffTotal(MaxAttempts);
  }

  /** The first attempt, from `from` on and within the eight allowed, that
      got status 200. */
  function FirstSuccess(respond: nat -> Attempt, from: nat): (k: Option<nat>)
    ensures k.Some? ==> from <= k.value < MaxAttempts && Succeeded(respond(k.value))
    ensures k.Some? ==> forall j :: from <= j < k.value ==> !Succeeded(respond(j))
    ensures k.None? ==> forall j :: from <= j < MaxAttempts ==> !Succeeded(respond(j))
    decreases MaxAttempts - from
  {
    if from >= MaxAttempts then None
    else if Succeeded(respond(from)) then Some(from)
    else FirstSuccess(respond, from + 1)
  }

  /** `postWithRetries(url, body)`. It makes `attempts` POSTs and logs the
      waits in `sleeps`. It returns true at the first status 200. Otherwise it
      makes all eight attempts, waits after every one of them (the last
      included), and returns false. */
  method PostWithRetries(respond: nat -> Attempt) returns (delivered: bool, attempts: nat, ghost sleeps: seq<nat>)
    ensures delivered <==> exists k :: 0 <= k < MaxAttempts && Succeeded(respond(k))
    ensures delivered == FirstSuccess(respond, 0).Some?
    ensures delivered ==> attempts == FirstSuccess(respond, 0).value + 1
    ensures 1 <= attempts <= MaxAttempts
    ensures forall j :: 0 <= j < attempts - 1 ==> !Succeeded(respond(j))
    ensures delivered ==> Succeeded(respond(attempts - 1)) && sleeps == Backoff(attempts - 1)
    ensures !delivered ==> attempts == MaxAttempts && sleeps == Backoff(MaxAttempts) && Sum(sleeps) == 255000
  {
    var attempt := 0;
    var delay := FirstDelay;
    sleeps := [];
    while attempt < MaxAttempts
      invariant attempt <= MaxAttempts
      invariant delay == FirstDelay * Pow2(attempt)
      invariant sleeps == Backoff(attempt)
      invariant forall j :: 0 <= j < attempt ==> !Succeeded(respond(j))
    {
      var outcome := respond(attempt);
      if outcome.Status? && outcome.code == 200 {
        return true, attempt + 1, sleeps;
      }
      sleeps := sleeps + [delay];
      attempt := attempt + 1;
      delay := delay * 2;
    }
    AllFailuresWait255Seconds();
    delivered, attempts := false, attempt;
  }
}
