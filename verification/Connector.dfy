/** connectWithRetry: attempts to reach the kubelet until one succeeds or the timeout has
    passed (src/kubelet/client/connector.go). Times are whole nanoseconds; what each attempt
    answers, how long it takes and how late its sleep returns are inputs. */
module Connector {

  datatype Attempt = Attempt(ok: bool, takes: nat, late: nat)

  /** Pending: the given attempts are used up and the loop still wants another. */
  datatype Outcome = Connected(attempts: nat) | TimedOut(attempts: nat) | Pending

  /** time.Sleep of a non-positive duration returns at once. */
  function SleepFor(d: int): nat {
    if d > 0 then d else 0
  }

  /** The backoff after an attempt that started at the given elapsed time. */
  function Backoff(timeout: int, backoff: int, elapsed: nat): int {
    if backoff > timeout - elapsed then timeout - elapsed else backoff
  }

  /** Time since the start when attempt k (counted from 0) begins. */
  function Elapsed(script: seq<Attempt>, timeout: int, backoff: int, k: nat): nat
    requires k <= |script|
  {
    if k == 0 then 0 else
      var e := Elapsed(script, timeout, backoff, k - 1);
      e + script[k - 1].takes + SleepFor(Backoff(timeout, backoff, e)) + script[k - 1].late
  }

  /** Total sleep asked for before attempt k. */
  function Slept(script: seq<Attempt>, timeout: int, backoff: int, k: nat): nat
    requires k <= |script|
  {
    if k == 0 then 0 else
      Slept(script, timeout, backoff, k - 1) +
      SleepFor(Backoff(timeout, backoff, Elapsed(script, timeout, backoff, k - 1)))
  }

  /** The first k attempts failed and were each followed by a retry. */
  predicate Retried(script: seq<Attempt>, timeout: int, backoff: int, k: nat)
    requires k <= |script|
  {
    || k == 0
    || (&& Retried(script, timeout, backoff, k - 1)
        && !script[k - 1].ok
        && Elapsed(script, timeout, backoff, k - 1) < timeout)
  }

  /** So whatever is returned, no earlier attempt had succeeded. */
  lemma {:induction false} NoEarlierSuccess(script: seq<Attempt>, timeout: int, backoff: int, k: nat, j: nat)
    requires j < k <= |script| && Retried(script, timeout, backoff, k)
    ensures !script[j].ok && Elapsed(script, timeout, backoff, j) < timeout
  {
    if j < k - 1 {
      NoEarlierSuccess(script, timeout, backoff, k - 1, j);
    }
  }

  /** The first attempt that succeeds is returned; the first that fails after the timeout
      ends the loop. */
  ghost predicate Follows(script: seq<Attempt>, timeout: int, backoff: int, r: Outcome, now: nat, slept: nat) {
    match r
    case Connected(n) =>
      && 0 < n <= |script| && Retried(script, timeout, backoff, n - 1) && script[n - 1].ok
      && now == Elapsed(script, timeout, backoff, n - 1) + script[n - 1].takes
      && slept == Slept(script, timeout, backoff, n - 1)
    case TimedOut(n) =>
      && 0 < n <= |script| && Retried(script, timeout, backoff, n - 1) && !script[n - 1].ok
      && Elapsed(script, timeout, backoff, n - 1) >= timeout
      && now == Elapsed(script, timeout, backoff, n - 1) + script[n - 1].takes
      && slept == Slept(script, timeout, backoff, n - 1)
    case Pending =>
      && Retried(script, timeout, backoff, |script|)
      && now == Elapsed(script, timeout, backoff, |script|) && slept == Slept(script, timeout, backoff, |script|)
  }

  method ConnectWithRetry(timeout: int, backoff: int, script: seq<Attempt>)
    returns (r: Outcome, now: nat, slept: nat)
    ensures Follows(script, timeout, backoff, r, now, slept)
  {
    now, slept := 0, 0;
    var attempt := 0;
    while attempt < |script|
      invariant attempt <= |script| && Retried(script, timeout, backoff, attempt)
      invariant now == Elapsed(script, timeout, backoff, attempt) && slept == Slept(script, timeout, backoff, attempt)
    {
      attempt := attempt + 1;
      var elapsed := now;
      var conn := script[attempt - 1];
      now := now + conn.takes;
      if conn.ok {
        return Connected(attempt), now, slept;
      }
      if elapsed >= timeout {
        return TimedOut(attempt), now, slept;
      }
      var remainingTime := timeout - elapsed;
      var pause := backoff;
      if pause > remainingTime {
        pause := remainingTime;
      }
      slept := slept + SleepFor(pause);
      now := now + SleepFor(pause) + conn.late;
    }
    return Pending, now, slept;
  }

  // ---- bounds ------------------------------------------------------------

  function CeilDiv(a: nat, b: nat): nat
    requires b > 0
  {
    (a + b - 1) / b
  }

  lemma CeilDivBounds(a: nat, b: nat, k: nat)
    requires b > 0 && k * b < a
    ensures k < CeilDiv(a, b)
  {
    var q := CeilDiv(a, b);
    assert a + b - 1 == q * b + (a + b - 1) % b;
    assert q * b >= a;
    assert q <= k ==> q * b <= k * b;
  }

  /** Every retry moves the clock by the backoff, or up to the timeout. */
  lemma {:induction false} ElapsedGrows(script: seq<Attempt>, timeout: nat, backoff: nat, k: nat)
    requires k <= |script| && Retried(script, timeout, backoff, k)
    ensures Elapsed(script, timeout, backoff, k) >= timeout || Elapsed(script, timeout, backoff, k) >= k * backoff
  {
    if k > 0 {
      ElapsedGrows(script, timeout, backoff, k - 1);
      assert k * backoff == (k - 1) * backoff + backoff;
    }
  }

  /** No more than ceil(timeout / backoff) attempts are followed by a retry. */
  lemma RetriesBounded(script: seq<Attempt>, timeout: nat, backoff: nat, k: nat)
    requires backoff > 0 && k <= |script| && Retried(script, timeout, backoff, k)
    ensures k <= CeilDiv(timeout, backoff)
  {
    if k > 0 {
      ElapsedGrows(script, timeout, backoff, k - 1);
      assert Elapsed(script, timeout, backoff, k - 1) < timeout;
      CeilDivBounds(timeout, backoff, k - 1);
    }
  }

  /** The sleeps asked for fit into the time that has passed, and never exceed the timeout. */
  lemma {:induction false} SleepBounded(script: seq<Attempt>, timeout: nat, backoff: nat, k: nat)
    requires k <= |script| && Retried(script, timeout, backoff, k)
    ensures Slept(script, timeout, backoff, k) <= Elapsed(script, timeout, backoff, k)
    ensures Slept(script, timeout, backoff, k) <= timeout
  {
    if k > 0 {
      SleepBounded(script, timeout, backoff, k - 1);
      assert Elapsed(script, timeout, backoff, k - 1) < timeout;
    }
  }

  predicate Bounded(script: seq<Attempt>, longest: nat, latest: nat) {
    forall a :: a in script ==> a.takes <= longest && a.late <= latest
  }

  lemma {:induction false} ElapsedBounded(script: seq<Attempt>, timeout: nat, backoff: nat, k: nat, longest: nat,
                                          latest: nat)
    requires k <= |script| && Retried(script, timeout, backoff, k) && Bounded(script, longest, latest)
    ensures Elapsed(script, timeout, backoff, k) <= timeout + longest + latest
  {
    if k > 0 {
      assert script[k - 1] in script;
      assert Elapsed(script, timeout, backoff, k - 1) < timeout;
    }
  }

  /** With a positive timeout and backoff: a failure comes after at least 2 and at most
      ceil(timeout / backoff) + 1 attempts, sleeping at most the timeout in all, and the call
      ends within the timeout plus two attempts (plus one late wake-up); enough attempts
      always end it. */
  lemma RetryBounds(timeout: nat, backoff: nat, script: seq<Attempt>, r: Outcome, now: nat, slept: nat,
                    longest: nat, latest: nat)
    requires timeout > 0 && backoff > 0 && Bounded(script, longest, latest)
    requires Follows(script, timeout, backoff, r, now, slept)
    ensures r.TimedOut? ==> 2 <= r.attempts <= CeilDiv(timeout, backoff) + 1
    ensures r.Connected? ==> r.attempts <= CeilDiv(timeout, backoff) + 1
    ensures r.Pending? ==> |script| <= CeilDiv(timeout, backoff)
    ensures slept <= timeout
    ensures !r.Pending? ==> now <= timeout + 2 * longest + latest
  {
    var k := if r.Pending? then |script| else r.attempts - 1;
    RetriesBounded(script, timeout, backoff, k);
    SleepBounded(script, timeout, backoff, k);
    ElapsedBounded(script, timeout, backoff, k, longest, latest);
    if !r.Pending? {
      assert script[r.attempts - 1] in script;
    }
  }

  /** The configuration default, a backoff of zero, puts no bound on the number of
      attempts: failures that take no time are retried for as long as they last. */
  lemma {:induction false} ZeroBackoffNeverEnds(timeout: nat, script: seq<Attempt>, k: nat)
    requires timeout > 0 && k <= |script|
    requires forall a :: a in script ==> a == Attempt(false, 0, 0)
    ensures Elapsed(script, timeout, 0, k) == 0 && Retried(script, timeout, 0, k)
  {
    if k > 0 {
      ZeroBackoffNeverEnds(timeout, script, k - 1);
      assert script[k - 1] in script;
    }
  }

  // ---- where the time goes -----------------------------------------------

  /** Time the first k attempts took, with their late wake-ups. */
  function Taken(script: seq<Attempt>, k: nat): nat
    requires k <= |script|
  {
    if k == 0 then 0 else Taken(script, k - 1) + script[k - 1].takes + script[k - 1].late
  }

  /** The clock is accounted for: attempts, late wake-ups and sleep, and nothing else. */
  lemma {:induction false} TimeIsAccounted(script: seq<Attempt>, timeout: int, backoff: int, k: nat)
    requires k <= |script|
    ensures Elapsed(script, timeout, backoff, k) == Taken(script, k) + Slept(script, timeout, backoff, k)
  {
    if k > 0 {
      TimeIsAccounted(script, timeout, backoff, k - 1);
    }
  }

  /** Every retry but the last sleeps the whole backoff, the last one what is left of the timeout;
      without a positive backoff none sleeps. */
  lemma SleepIsBackoff(script: seq<Attempt>, timeout: int, backoff: int, k: nat)
    requires k < |script| && Retried(script, timeout, backoff, k + 1)
    ensures var before, after := Slept(script, timeout, backoff, k), Slept(script, timeout, backoff, k + 1);
            var left := timeout - Elapsed(script, timeout, backoff, k);
            && left > 0
            && after - before == if backoff <= 0 then 0 else if backoff <= left then backoff else left
  {
  }
}
