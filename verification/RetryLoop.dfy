/** Sending a paced request, again only when that is safe (brokers/kis_rate_limiter.py, call_with_retry). */
module RetryLoop {
  import opened Numbers
  import opened RateLimiter

  /** What a request comes back with: an answer, the per-second cap, or any other exception. */
  datatype Reply<+T> = Answer(value: T) | Capped | Raises

  datatype Outcome<+T> = Returned(value: T) | Persisted(attempts: nat) | Propagated | NotPaced

  datatype Event = Paced | Sent | Slept(ticks: int)

  function Doubled(base: int, k: nat): int {
    if k == 0 then base else 2 * Doubled(base, k - 1)
  }

  ghost predicate AreDelays(delays: seq<int>, base: int, cap: int, retries: nat) {
    |delays| == retries && forall k :: 0 <= k < retries ==> delays[k] == Min(Doubled(base, k), cap)
  }

  /** backoff_delays. */
  method BackoffDelays(base: nat, cap: nat, retries: nat) returns (delays: seq<int>)
    ensures AreDelays(delays, base, cap, retries)
    ensures forall i, k :: 0 <= i <= k < retries ==> 0 <= delays[i] <= delays[k] <= cap
  {
    delays := [];
    var power := base;
    for attempt := 0 to retries
      invariant power == Doubled(base, attempt) && AreDelays(delays, base, cap, attempt)
      invariant forall i, k :: 0 <= i <= k < attempt ==> 0 <= delays[i] <= delays[k] <= Min(power, cap)
      invariant power >= 0
    {
      delays := delays + [Min(power, cap)];
      power := 2 * power;
    }
  }

  predicate IsRetryable(c: Category) {
    c == Read
  }

  /** What a run of n sends did: each is paced just before, and they are spaced by the delays in order. */
  function Sends(n: nat, delays: seq<int>): (trace: seq<Event>)
    requires n <= |delays| + 1
    ensures forall i :: 0 <= i < |trace| && trace[i] == Sent ==> i > 0 && trace[i - 1] == Paced
    ensures multiset(trace)[Sent] == n == multiset(trace)[Paced]
    decreases n, 0
  {
    if n == 0 then [] else BackedOff(n - 1, delays) + [Paced, Sent]
  }

  /** The same, and the backing off after the n-th send. */
  function BackedOff(n: nat, delays: seq<int>): (trace: seq<Event>)
    requires n <= |delays|
    ensures forall i :: 0 <= i < |trace| && trace[i] == Sent ==> i > 0 && trace[i - 1] == Paced
    ensures multiset(trace)[Sent] == n == multiset(trace)[Paced]
    decreases n, 1
  {
    if n == 0 then [] else Sends(n, delays) + [Slept(delays[n - 1])]
  }

  /** The first n replies were all the per-second cap. */
  ghost predicate CappedUntil<T>(replies: nat -> Reply<T>, n: int) {
    forall k: nat :: k < n ==> replies(k).Capped?
  }

  /** How the loop may end after so many sends. */
  ghost predicate Ends<T(!new)>(r: Outcome<T>, attempts: nat, limit: nat,
                                  paces: nat -> bool, replies: nat -> Reply<T>) {
    match r
    case Returned(v) => attempts > 0 && CappedUntil(replies, attempts - 1) && replies(attempts - 1) == Answer(v)
    case Propagated => attempts > 0 && CappedUntil(replies, attempts - 1) && replies(attempts - 1) == Raises
    case Persisted(n) => n == attempts == limit + 1 && CappedUntil(replies, attempts)
    case NotPaced => attempts <= limit && CappedUntil(replies, attempts) && !paces(attempts)
  }

  /** The loop of call_with_retry: pace, send, and back off only from the per-second cap. */
  method SendUntilSettled<T(!new)>(delays: seq<int>, paces: nat -> bool, replies: nat -> Reply<T>)
    returns (r: Outcome<T>, attempts: nat, trace: seq<Event>)
    ensures attempts <= |delays| + 1 && Ends(r, attempts, |delays|, paces, replies)
    ensures trace == if r.NotPaced? then BackedOff(attempts, delays) else Sends(attempts, delays)
  {
    hide Sends, BackedOff, CappedUntil;
    attempts := 0;
    trace := [];
    NoSends(delays);
    NoneCapped(replies);
    while true
      invariant attempts <= |delays| && CappedUntil(replies, attempts) && trace == BackedOff(attempts, delays)
      decreases |delays| - attempts
    {
      if !paces(attempts) {
        return NotPaced, attempts, trace;
      }
      OneMoreSend(attempts, delays);
      OneMoreCapped(replies, attempts);
      trace := trace + [Paced, Sent];
      attempts := attempts + 1;
      var reply := replies(attempts - 1);
      if reply.Answer? {
        return Returned(reply.value), attempts, trace;
      }
      if reply.Raises? {
        return Propagated, attempts, trace;
      }
      if attempts - 1 >= |delays| {
        return Persisted(attempts), attempts, trace;
      }
      OneMoreWait(attempts, delays);
      trace := trace + [Slept(delays[attempts - 1])];
    }
  }

  /**
   call_with_retry.  Only the per-second cap on a READ is retried, so an order, a cancellation or
   a token request is sent at most once, and any other failure ends the call at its first occurrence.
   */
  method CallWithRetry<T(!new)>(c: Category, base: nat, cap: nat, retries: nat,
                                  paces: nat -> bool, replies: nat -> Reply<T>)
    returns (r: Outcome<T>, attempts: nat, trace: seq<Event>, delays: seq<int>)
    ensures AreDelays(delays, base, cap, if c.Read? then retries else 0) && attempts <= |delays| + 1
    ensures !c.Read? ==> attempts <= 1
    ensures Ends(r, attempts, |delays|, paces, replies)
    ensures trace == if r.NotPaced? then BackedOff(attempts, delays) else Sends(attempts, delays)
  {
    hide Sends, BackedOff, Ends;
    delays := [];
    if IsRetryable(c) {
      delays := BackoffDelays(base, cap, retries);
    }
    r, attempts, trace := SendUntilSettled(delays, paces, replies);
  }

  lemma NoneCapped<T>(replies: nat -> Reply<T>)
    ensures CappedUntil(replies, 0)
  {
  }

  lemma OneMoreCapped<T>(replies: nat -> Reply<T>, n: nat)
    requires CappedUntil(replies, n)
    ensures replies(n).Capped? ==> CappedUntil(replies, n + 1)
  {
  }

  lemma NoSends(delays: seq<int>)
    ensures BackedOff(0, delays) == []
  {
  }

  lemma OneMoreSend(n: nat, delays: seq<int>)
    requires n <= |delays|
    ensures Sends(n + 1, delays) == BackedOff(n, delays) + [Paced, Sent]
  {
  }

  lemma OneMoreWait(n: nat, delays: seq<int>)
    requires 0 < n <= |delays|
    ensures BackedOff(n, delays) == Sends(n, delays) + [Slept(delays[n - 1])]
  {
  }
}
