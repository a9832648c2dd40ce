/** The sliding-window limit: a sorted set that is pruned, counted and extended
    on every check and that expires, against the full log of attempts. */
module SlidingWindow {
  import opened Wrappers

  /** A member of the sorted set: the time of the attempt, which is also its
      score, and the random suffix that tells attempts of one millisecond apart. */
  datatype Attempt = Attempt(time: nat, nonce: string)

  /** The stored set and the time at which its key expires. */
  datatype Window = Window(entries: set<Attempt>, expiresAt: nat)

  datatype RateLimitResult = RateLimitResult(allowed: bool, remaining: nat, resetAfterMs: int, limit: int,
                                             retryAfter: Option<int>)

  /** What the key holds at `now`: nothing once it has expired. */
  function Live(w: Option<Window>, now: nat): set<Attempt> {
    if w.Some? && now < w.value.expiresAt then w.value.entries else {}
  }

  /** After `zremrangebyscore(key, 0, windowStart)`. */
  function Pruned(entries: set<Attempt>, windowStart: int): set<Attempt> {
    set a | a in entries && !(0 <= a.time <= windowStart)
  }

  /** The pruned set at the time of attempt `a`. */
  function Recent(w: Option<Window>, a: Attempt, windowMs: nat): set<Attempt> {
    Pruned(Live(w, a.time), a.time - windowMs)
  }

  function Max(a: int, b: int): int {
    if a >= b then a else b
  }

  function Check(w: Option<Window>, a: Attempt, maxRequests: nat, windowMs: nat): RateLimitResult {
    var currentCount := |Recent(w, a, windowMs)| + 1;
    var allowed := currentCount <= maxRequests;
    var resetAfterMs := windowMs - (a.time - (a.time - windowMs));
    RateLimitResult(allowed, Max(0, maxRequests - currentCount), resetAfterMs, maxRequests,
                    if allowed then None else Some(resetAfterMs))
  }

  function Store(w: Option<Window>, a: Attempt, windowMs: nat): Window {
    Window(Recent(w, a, windowMs) + {a}, a.time + windowMs)
  }

  // ---- Runs ------------------------------------------------------------------

  /** What is stored after all attempts of the log, allowed or not. */
  function Stored(log: seq<Attempt>, windowMs: nat): Option<Window>
    decreases |log|
  {
    if log == [] then None
    else Some(Store(Stored(log[..|log| - 1], windowMs), log[|log| - 1], windowMs))
  }

  /** The answer to the last attempt of the log. */
  function LastAnswer(log: seq<Attempt>, maxRequests: nat, windowMs: nat): RateLimitResult
    requires log != []
  {
    Check(Stored(log[..|log| - 1], windowMs), log[|log| - 1], maxRequests, windowMs)
  }

  /** Times do not decrease, and no two attempts are the same member. */
  ghost predicate Proper(log: seq<Attempt>) {
    && (forall i, j :: 0 <= i < j < |log| ==> log[i].time <= log[j].time)
    && (forall i, j :: 0 <= i < j < |log| ==> log[i] != log[j])
  }

  /** Number of attempts of the log with `lo < time <= hi`. */
  function CountIn(log: seq<Attempt>, lo: int, hi: int): nat
    decreases |log|
  {
    if log == [] then 0
    else CountIn(log[..|log| - 1], lo, hi) + if lo < log[|log| - 1].time <= hi then 1 else 0
  }

  /** Number of allowed attempts of the log with `lo < time <= hi`. */
  function AllowedIn(log: seq<Attempt>, lo: int, hi: int, maxRequests: nat, windowMs: nat): nat
    decreases |log|
  {
    if log == [] then 0
    else
      AllowedIn(log[..|log| - 1], lo, hi, maxRequests, windowMs) +
      if lo < log[|log| - 1].time <= hi && LastAnswer(log, maxRequests, windowMs).allowed then 1 else 0
  }

  // ---- The stored set is the recent part of the log --------------------------

  function After(log: seq<Attempt>, start: int): set<Attempt> {
    set a | a in log && a.time > start
  }

  lemma ProperPrefix(log: seq<Attempt>)
    requires Proper(log) && log != []
    ensures Proper(log[..|log| - 1])
    ensures log[|log| - 1] !in log[..|log| - 1]
  {}

  /** Pruning and expiry forget nothing that still counts, and nothing else is
      kept: at any later time the pruned set is the log's recent part. */
  lemma {:induction false} StoredIsRecent(log: seq<Attempt>, windowMs: nat, now: nat)
    requires Proper(log)
    requires forall i :: 0 <= i < |log| ==> log[i].time <= now
    ensures Pruned(Live(Stored(log, windowMs), now), now - windowMs) == After(log, now - windowMs)
    decreases |log|
  {
    if log != [] {
      var front, last := log[..|log| - 1], log[|log| - 1];
      ProperPrefix(log);
      forall i | 0 <= i < |front| ensures front[i].time <= last.time { assert front[i] == log[i]; }
      StoredIsRecent(front, windowMs, last.time);
      assert forall a :: a in log <==> a in front || a == last;
      assert Stored(log, windowMs).value.entries == After(front, last.time - windowMs) + {last};
    }
  }

  lemma {:induction false} CountIsSize(log: seq<Attempt>, start: int, now: nat)
    requires Proper(log)
    requires forall i :: 0 <= i < |log| ==> log[i].time <= now
    ensures |After(log, start)| == CountIn(log, start, now)
    decreases |log|
  {
    if log == [] {
      assert After(log, start) == {};
    } else {
      var front, last := log[..|log| - 1], log[|log| - 1];
      ProperPrefix(log);
      CountIsSize(front, start, now);
      assert forall a :: a in log <==> a in front || a == last;
      assert After(log, start) == After(front, start) + if last.time > start then {last} else {};
    }
  }

  /** Attempts of the log in the window that ends with the last one: that one,
      and the earlier ones, denied ones included, not older than `windowMs`. */
  function InLastWindow(log: seq<Attempt>, windowMs: nat): nat
    requires log != []
  {
    var now := log[|log| - 1].time;
    CountIn(log[..|log| - 1], now - windowMs, now) + 1
  }

  /** The limiter refines the full log: an attempt is allowed if and only if the
      window that ends with it contains at most `maxRequests` attempts. */
  lemma LimiterRefinesLog(log: seq<Attempt>, maxRequests: nat, windowMs: nat)
    requires Proper(log) && log != []
    ensures
      var count, answer := InLastWindow(log, windowMs), LastAnswer(log, maxRequests, windowMs);
      && (answer.allowed <==> count <= maxRequests)
      && answer.remaining == Max(0, maxRequests - count)
      && answer.limit == maxRequests && answer.resetAfterMs == 0
      && answer.retryAfter == if count <= maxRequests then None else Some(0)
  {
    var front, last := log[..|log| - 1], log[|log| - 1];
    ProperPrefix(log);
    forall i | 0 <= i < |front| ensures front[i].time <= last.time { assert front[i] == log[i]; }
    StoredIsRecent(front, windowMs, last.time);
    CountIsSize(front, last.time - windowMs, last.time);
  }

  // ---- The bound ---------------------------------------------------------------

  lemma {:induction false} AllowedAtMostCount(log: seq<Attempt>, lo: int, hi: int, lo': int, hi': int,
                                              maxRequests: nat, windowMs: nat)
    requires forall i :: 0 <= i < |log| && lo < log[i].time <= hi ==> lo' < log[i].time <= hi'
    ensures AllowedIn(log, lo, hi, maxRequests, windowMs) <= CountIn(log, lo', hi')
    decreases |log|
  {
    if log != [] {
      AllowedAtMostCount(log[..|log| - 1], lo, hi, lo', hi', maxRequests, windowMs);
    }
  }

  lemma FewBeforeAllowed(log: seq<Attempt>, maxRequests: nat, windowMs: nat)
    requires Proper(log) && log != [] && LastAnswer(log, maxRequests, windowMs).allowed
    ensures
      var now := log[|log| - 1].time;
      CountIn(log[..|log| - 1], now - windowMs, now) < maxRequests
  {
    LimiterRefinesLog(log, maxRequests, windowMs);
  }

  /** When the last attempt is allowed, it and the allowed ones before it in a
      window of length `windowMs` are no more than `maxRequests`. */
  lemma BoundAtAllowed(log: seq<Attempt>, maxRequests: nat, windowMs: nat, start: int)
    requires Proper(log) && log != []
    requires log[|log| - 1].time <= start + windowMs && LastAnswer(log, maxRequests, windowMs).allowed
    ensures AllowedIn(log[..|log| - 1], start, start + windowMs, maxRequests, windowMs) + 1 <= maxRequests
  {
    var front, now := log[..|log| - 1], log[|log| - 1].time;
    FewBeforeAllowed(log, maxRequests, windowMs);
    assert CountIn(front, now - windowMs, now) < maxRequests;
    forall i | 0 <= i < |front| ensures front[i].time <= now { assert front[i] == log[i]; }
    AllowedBefore(front, now, maxRequests, windowMs, start);
  }

  lemma AllowedBefore(front: seq<Attempt>, now: nat, maxRequests: nat, windowMs: nat, start: int)
    requires now <= start + windowMs && forall i :: 0 <= i < |front| ==> front[i].time <= now
    ensures AllowedIn(front, start, start + windowMs, maxRequests, windowMs) <= CountIn(front, now - windowMs, now)
  {
    AllowedAtMostCount(front, start, start + windowMs, now - windowMs, now, maxRequests, windowMs);
  }

  /** Every window of length `windowMs`, wherever it starts, contains at most
      `maxRequests` allowed attempts. */
  lemma {:induction false} WindowBound(log: seq<Attempt>, maxRequests: nat, windowMs: nat, start: int)
    requires Proper(log)
    ensures AllowedIn(log, start, start + windowMs, maxRequests, windowMs) <= maxRequests
    decreases |log|
  {
    if log != [] {
      ProperPrefix(log);
      WindowBound(log[..|log| - 1], maxRequests, windowMs, start);
      if start < log[|log| - 1].time <= start + windowMs && LastAnswer(log, maxRequests, windowMs).allowed {
        BoundAtAllowed(log, maxRequests, windowMs, start);
      }
    }
  }

  /** A denial always advises to retry after 0 ms, and whoever does so at once
      is denied again, because denied attempts count. */
  lemma RetryAtOnceDenied(log: seq<Attempt>, again: Attempt, maxRequests: nat, windowMs: nat)
    requires Proper(log + [again]) && log != []
    requires !LastAnswer(log, maxRequests, windowMs).allowed
    requires again.time == log[|log| - 1].time + LastAnswer(log, maxRequests, windowMs).retryAfter.value
    ensures LastAnswer(log, maxRequests, windowMs).retryAfter == Some(0)
    ensures !LastAnswer(log + [again], maxRequests, windowMs).allowed
  {
    var longer := log + [again];
    ProperPrefix(longer);
    assert longer[..|longer| - 1] == log;
    LimiterRefinesLog(log, maxRequests, windowMs);
    LimiterRefinesLog(longer, maxRequests, windowMs);
  }
}
