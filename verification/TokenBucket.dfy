/** The burst token bucket: refill computed on demand, a capacity, an expiring
    key, and the advice when to retry. Tokens are real numbers. */
module TokenBucket {
  import opened Wrappers

  /** `maxRequests` tokens flow back per `windowMs`, up to `burst`. */
  datatype Config = Config(windowMs: nat, maxRequests: nat, burst: nat)

  predicate Sound(cfg: Config) {
    cfg.windowMs > 0 && cfg.maxRequests > 0
  }

  datatype Bucket = Bucket(tokens: real, lastRefill: nat, expiresAt: nat)

  datatype Answer = Answer(allowed: bool, remaining: int, resetAfterMs: nat, limit: nat, retryAfter: Option<int>)

  datatype Request = Request(time: nat, tokens: nat)

  function RefillRateMs(cfg: Config): real
    requires Sound(cfg)
  {
    cfg.windowMs as real / cfg.maxRequests as real
  }

  /** Tokens that flow back within `ms` milliseconds. */
  function Refill(cfg: Config, ms: int): real
    requires Sound(cfg)
  {
    RatePositive(cfg);
    ms as real / RefillRateMs(cfg)
  }

  lemma RatePositive(cfg: Config)
    requires Sound(cfg)
    ensures RefillRateMs(cfg) > 0.0
  {}

  function MinReal(a: real, b: real): real {
    if a <= b then a else b
  }

  function Ceil(x: real): int {
    -((-x).Floor)
  }

  /** What the bucket would hold if keys did not expire. */
  function RefilledLevel(cfg: Config, b: Bucket, now: nat): real
    requires Sound(cfg)
  {
    MinReal(cfg.burst as real, b.tokens + Refill(cfg, now - b.lastRefill))
  }

  /** Tokens at hand at `now`; a missing or expired key counts as a full bucket. */
  function Level(cfg: Config, b: Option<Bucket>, now: nat): real
    requires Sound(cfg)
  {
    if b.None? || now >= b.value.expiresAt then cfg.burst as real else RefilledLevel(cfg, b.value, now)
  }

  /** Whole milliseconds until that many tokens have flowed back. */
  function MsFor(cfg: Config, missing: real): int
    requires Sound(cfg)
  {
    Ceil(missing * RefillRateMs(cfg))
  }

  function Check(cfg: Config, b: Option<Bucket>, r: Request): Answer
    requires Sound(cfg)
  {
    var level := Level(cfg, b, r.time);
    if level >= r.tokens as real then
      Answer(true, (level - r.tokens as real).Floor, cfg.windowMs, cfg.burst, None)
    else
      Answer(false, level.Floor, cfg.windowMs, cfg.burst,
             Some(MsFor(cfg, r.tokens as real - level)))
  }

  function Store(cfg: Config, b: Option<Bucket>, r: Request): Bucket
    requires Sound(cfg)
  {
    var level := Level(cfg, b, r.time);
    Bucket(if level >= r.tokens as real then level - r.tokens as real else level, r.time, r.time + cfg.windowMs)
  }

  /** Buckets the limiter can have stored, looked at no earlier than then. */
  predicate Stored(cfg: Config, b: Option<Bucket>, now: nat) {
    b.Some? ==>
      && 0.0 <= b.value.tokens <= cfg.burst as real
      && b.value.expiresAt == b.value.lastRefill + cfg.windowMs
      && b.value.lastRefill <= now
  }

  // ---- Refill ------------------------------------------------------------------

  lemma RefillAdds(cfg: Config, a: int, b: int)
    requires Sound(cfg)
    ensures Refill(cfg, a + b) == Refill(cfg, a) + Refill(cfg, b)
  {
    RatePositive(cfg);
    var r := RefillRateMs(cfg);
    assert (a + b) as real / r == a as real / r + b as real / r;
  }

  lemma RefillGrows(cfg: Config, a: int, b: int)
    requires Sound(cfg) && a <= b
    ensures Refill(cfg, a) <= Refill(cfg, b)
    ensures 0 <= a ==> 0.0 <= Refill(cfg, a)
  {
    RatePositive(cfg);
    DivGrows(a as real, b as real, RefillRateMs(cfg));
    DivGrows(0.0, a as real, RefillRateMs(cfg));
  }

  lemma DivGrows(x: real, y: real, r: real)
    requires r > 0.0
    ensures x <= y <==> x / r <= y / r
    ensures 0.0 / r == 0.0
  {
    assert (x / r) * r == x && (y / r) * r == y;
  }

  lemma NoRefill(cfg: Config)
    requires Sound(cfg)
    ensures Refill(cfg, 0) == 0.0
  {
    RatePositive(cfg);
    DivGrows(0.0, 0.0, RefillRateMs(cfg));
  }

  /** A whole window refills `maxRequests` tokens. */
  lemma RefillWindow(cfg: Config)
    requires Sound(cfg)
    ensures Refill(cfg, cfg.windowMs) == cfg.maxRequests as real
  {
    RatePositive(cfg);
    var w, m := cfg.windowMs as real, cfg.maxRequests as real;
    assert m * (w / m) == w;
    assert w / (w / m) == m;
  }

  /** When the capacity does not exceed what a window refills, expiry makes no
      difference. */
  lemma LevelIsRefilled(cfg: Config, b: Option<Bucket>, now: nat)
    requires Sound(cfg) && cfg.burst <= cfg.maxRequests && Stored(cfg, b, now)
    ensures b.Some? ==> Level(cfg, b, now) == RefilledLevel(cfg, b.value, now)
  {
    if b.Some? && now >= b.value.expiresAt {
      RefillGrows(cfg, cfg.windowMs, now - b.value.lastRefill);
      RefillWindow(cfg);
    }
  }

  /** The expiry of the key cannot be told from refill, for any stored bucket at
      any later time, if and only if the capacity is at most `maxRequests`. */
  lemma ExpiryInvisible(cfg: Config)
    requires Sound(cfg)
    ensures (forall b: Bucket, now: nat :: Stored(cfg, Some(b), now) ==>
              Level(cfg, Some(b), now) == RefilledLevel(cfg, b, now))
      <==> cfg.burst <= cfg.maxRequests
  {
    if cfg.burst <= cfg.maxRequests {
      forall b: Bucket, now: nat | Stored(cfg, Some(b), now)
        ensures Level(cfg, Some(b), now) == RefilledLevel(cfg, b, now)
      {
        LevelIsRefilled(cfg, Some(b), now);
      }
    } else {
      var b := Bucket(0.0, 0, cfg.windowMs);
      RefillWindow(cfg);
      assert Stored(cfg, Some(b), cfg.windowMs);
      assert Level(cfg, Some(b), cfg.windowMs) != RefilledLevel(cfg, b, cfg.windowMs);
    }
  }

  lemma LevelBounds(cfg: Config, b: Option<Bucket>, now: nat)
    requires Sound(cfg) && Stored(cfg, b, now)
    ensures 0.0 <= Level(cfg, b, now) <= cfg.burst as real
  {
    if b.Some? { RefillGrows(cfg, 0, now - b.value.lastRefill); }
  }

  lemma StoreKeeps(cfg: Config, b: Option<Bucket>, r: Request, now: nat)
    requires Sound(cfg) && Stored(cfg, b, r.time) && r.time <= now
    ensures Stored(cfg, Some(Store(cfg, b, r)), now)
  {
    LevelBounds(cfg, b, r.time);
  }

  // ---- The bound -----------------------------------------------------------------

  predicate Ordered(run: seq<Request>) {
    forall i, j :: 0 <= i < j < |run| ==> run[i].time <= run[j].time
  }

  /** Tokens granted by the run to requests with `from <= time <= until`. */
  function GrantedIn(cfg: Config, b: Option<Bucket>, run: seq<Request>, from: nat, until: nat): nat
    requires Sound(cfg)
    decreases |run|
  {
    if run == [] then 0
    else
      (if from <= run[0].time <= until && Check(cfg, b, run[0]).allowed then run[0].tokens else 0) +
      GrantedIn(cfg, Some(Store(cfg, b, run[0])), run[1..], from, until)
  }

  lemma {:induction false} NothingLater(cfg: Config, b: Option<Bucket>, run: seq<Request>, from: nat, until: nat)
    requires Sound(cfg)
    requires forall i :: 0 <= i < |run| ==> run[i].time > until
    ensures GrantedIn(cfg, b, run, from, until) == 0
    decreases |run|
  {
    if run != [] {
      NothingLater(cfg, Some(Store(cfg, b, run[0])), run[1..], from, until);
    }
  }

  /** Level at a later time, after one request: what was left plus the refill. */
  lemma LevelAfter(cfg: Config, b: Option<Bucket>, r: Request, now: nat)
    requires Sound(cfg) && cfg.burst <= cfg.maxRequests
    requires Stored(cfg, b, r.time) && r.time <= now
    ensures Level(cfg, Some(Store(cfg, b, r)), now) <=
      Level(cfg, b, r.time) - (if Check(cfg, b, r).allowed then r.tokens as real else 0.0) + Refill(cfg, now - r.time)
  {
    StoreKeeps(cfg, b, r, now);
    LevelIsRefilled(cfg, Some(Store(cfg, b, r)), now);
  }

  /** From a first request inside the interval on: at most the level then plus
      the refill until the end of the interval. */
  lemma {:induction false} GrantedFrom(cfg: Config, b: Option<Bucket>, run: seq<Request>, from: nat, until: nat)
    requires Sound(cfg) && cfg.burst <= cfg.maxRequests && Ordered(run) && run != []
    requires from <= run[0].time <= until && Stored(cfg, b, run[0].time)
    ensures GrantedIn(cfg, b, run, from, until) as real <=
      Level(cfg, b, run[0].time) + Refill(cfg, until - run[0].time)
    decreases |run|
  {
    var r, rest := run[0], run[1..];
    var b' := Some(Store(cfg, b, r));
    LevelBounds(cfg, b, r.time);
    RefillGrows(cfg, 0, until - r.time);
    if rest == [] {
    } else if rest[0].time > until {
      forall i | 0 <= i < |rest| ensures rest[i].time > until {
        assert rest[i] == run[i + 1] && rest[0] == run[1];
      }
      NothingLater(cfg, b', rest, from, until);
    } else {
      var now := rest[0].time;
      assert run[0].time <= run[1].time;
      StoreKeeps(cfg, b, r, now);
      GrantedFrom(cfg, b', rest, from, until);
      LevelAfter(cfg, b, r, now);
      RefillAdds(cfg, now - r.time, until - now);
    }
  }

  lemma {:induction false} TokenBound(cfg: Config, b: Option<Bucket>, run: seq<Request>, from: nat, until: nat)
    requires Sound(cfg) && cfg.burst <= cfg.maxRequests && Ordered(run) && from <= until
    requires run != [] ==> Stored(cfg, b, run[0].time)
    ensures GrantedIn(cfg, b, run, from, until) as real <= cfg.burst as real + Refill(cfg, until - from)
    decreases |run|
  {
    RefillGrows(cfg, 0, until - from);
    if run == [] {
    } else if run[0].time < from {
      if |run| > 1 {
        assert run[0].time <= run[1].time;
        StoreKeeps(cfg, b, run[0], run[1].time);
      }
      TokenBound(cfg, Some(Store(cfg, b, run[0])), run[1..], from, until);
    } else if run[0].time > until {
      NothingLater(cfg, b, run, from, until);
    } else {
      GrantedFrom(cfg, b, run, from, until);
      LevelBounds(cfg, b, run[0].time);
      RefillGrows(cfg, until - run[0].time, until - from);
    }
  }

  predicate Bounded(cfg: Config, run: seq<Request>, from: nat, until: nat)
    requires Sound(cfg)
  {
    GrantedIn(cfg, None, run, from, until) as real <= cfg.burst as real + Refill(cfg, until - from)
  }

  /** Over every run with non-decreasing times and every interval, the tokens
      granted are at most the capacity plus the refill of the interval, if and
      only if the capacity is at most `maxRequests`. */
  lemma TokenBoundExact(cfg: Config)
    requires Sound(cfg)
    ensures (forall run: seq<Request>, from: nat, until: nat :: Ordered(run) && from <= until ==>
              Bounded(cfg, run, from, until))
      <==> cfg.burst <= cfg.maxRequests
  {
    if cfg.burst <= cfg.maxRequests {
      forall run: seq<Request>, from: nat, until: nat | Ordered(run) && from <= until
        ensures Bounded(cfg, run, from, until)
      {
        TokenBound(cfg, None, run, from, until);
      }
    } else {
      TwiceTheBurst(cfg);
      var run := [Request(0, cfg.burst), Request(cfg.windowMs, cfg.burst)];
      RefillWindow(cfg);
      assert Ordered(run) && !Bounded(cfg, run, 0, cfg.windowMs);
    }
  }

  /** The key expires after a window, and the bucket is full again. */
  lemma TwiceTheBurst(cfg: Config)
    requires Sound(cfg)
    ensures GrantedIn(cfg, None, [Request(0, cfg.burst), Request(cfg.windowMs, cfg.burst)], 0, cfg.windowMs)
      == 2 * cfg.burst || cfg.burst <= cfg.maxRequests
  {
    var first, second := Request(0, cfg.burst), Request(cfg.windowMs, cfg.burst);
    var b := Some(Store(cfg, None, first));
    assert [first, second][1..] == [second] && [second][1..] == [];
    assert Check(cfg, None, first).allowed && Check(cfg, b, second).allowed;
    assert GrantedIn(cfg, b, [second], 0, cfg.windowMs) == cfg.burst;
  }

  // ---- Retrying --------------------------------------------------------------------

  lemma CeilExact(x: real, n: int)
    ensures n as real >= x <==> n >= Ceil(x)
  {
    var f := (-x).Floor;
    assert f as real <= -x < f as real + 1.0;
  }

  /** A denied request takes nothing: until the key expires the bucket fills up
      from the level it had. */
  lemma LevelSinceDenial(cfg: Config, b: Option<Bucket>, r: Request, now: nat)
    requires Sound(cfg) && Stored(cfg, b, r.time) && r.time <= now && !Check(cfg, b, r).allowed
    ensures Level(cfg, Some(Store(cfg, b, r)), now) ==
      if now < r.time + cfg.windowMs
      then MinReal(cfg.burst as real, Level(cfg, b, r.time) + Refill(cfg, now - r.time))
      else cfg.burst as real
  {}

  /** When expiry is no different from refill, or comes before the next
      millisecond, the bucket is as if there had been no request. */
  lemma LevelAfterDenial(cfg: Config, b: Option<Bucket>, r: Request, now: nat)
    requires Sound(cfg) && Stored(cfg, b, r.time) && r.time <= now && !Check(cfg, b, r).allowed
    requires cfg.burst <= cfg.maxRequests || cfg.windowMs == 1
    ensures Level(cfg, Some(Store(cfg, b, r)), now) == Level(cfg, b, now)
  {
    LevelSinceDenial(cfg, b, r, now);
    LevelBounds(cfg, b, r.time);
    if cfg.burst <= cfg.maxRequests {
      StoreKeeps(cfg, b, r, now);
      LevelIsRefilled(cfg, Some(Store(cfg, b, r)), now);
      RefillGrows(cfg, 0, now - r.time);
      if b.Some? {
        LevelIsRefilled(cfg, b, r.time);
        LevelIsRefilled(cfg, b, now);
        RefillAdds(cfg, r.time - b.value.lastRefill, now - r.time);
      }
    } else if now == r.time {
      NoRefill(cfg);
    }
  }

  /** The same request again, `wait` milliseconds after it was denied. */
  predicate RetrySucceeds(cfg: Config, b: Option<Bucket>, r: Request, wait: nat)
    requires Sound(cfg)
  {
    Check(cfg, Some(Store(cfg, b, r)), Request(r.time + wait, r.tokens)).allowed
  }

  lemma MulGrows(x: real, y: real, r: real)
    requires r > 0.0
    ensures x <= y <==> x * r <= y * r
  {}

  lemma WaitForMissing(cfg: Config, missing: real, wait: int)
    requires Sound(cfg)
    ensures Refill(cfg, wait) >= missing <==> wait >= MsFor(cfg, missing)
  {
    RatePositive(cfg);
    CeilExact(missing * RefillRateMs(cfg), wait);
    assert Refill(cfg, wait) * RefillRateMs(cfg) == wait as real;
    MulGrows(missing, Refill(cfg, wait), RefillRateMs(cfg));
  }

  /** What the request lacked. */
  function Missing(cfg: Config, b: Option<Bucket>, r: Request): real
    requires Sound(cfg)
  {
    r.tokens as real - Level(cfg, b, r.time)
  }

  /** A request within the capacity succeeds once the advice has passed, or the
      window, after which the key is gone. */
  lemma RetryWithin(cfg: Config, b: Option<Bucket>, r: Request, wait: nat)
    requires Sound(cfg) && Stored(cfg, b, r.time) && !Check(cfg, b, r).allowed && r.tokens <= cfg.burst
    ensures RetrySucceeds(cfg, b, r, wait) <==> wait >= Check(cfg, b, r).retryAfter.value || wait >= cfg.windowMs
  {
    assert Check(cfg, b, r).retryAfter.value == MsFor(cfg, Missing(cfg, b, r));
    LevelSinceDenial(cfg, b, r, r.time + wait);
    WaitForMissing(cfg, Missing(cfg, b, r), wait);
  }

  lemma AdviceWithinWindow(cfg: Config, b: Option<Bucket>, r: Request)
    requires Sound(cfg) && !Check(cfg, b, r).allowed
    ensures Check(cfg, b, r).retryAfter.value <= cfg.windowMs <==> Missing(cfg, b, r) <= cfg.maxRequests as real
  {
    assert Check(cfg, b, r).retryAfter.value == MsFor(cfg, Missing(cfg, b, r));
    WaitForMissing(cfg, Missing(cfg, b, r), cfg.windowMs);
    RefillWindow(cfg);
  }

  lemma AdvicePositive(cfg: Config, b: Option<Bucket>, r: Request)
    requires Sound(cfg) && !Check(cfg, b, r).allowed
    ensures Check(cfg, b, r).retryAfter.value > 0
  {
    var missing := r.tokens as real - Level(cfg, b, r.time);
    assert Check(cfg, b, r).retryAfter.value == MsFor(cfg, missing);
    WaitForMissing(cfg, missing, 0);
    RatePositive(cfg);
    DivGrows(0.0, 0.0, RefillRateMs(cfg));
  }

  lemma NeverEnough(cfg: Config, b: Option<Bucket>, r: Request, wait: nat)
    requires Sound(cfg) && Stored(cfg, b, r.time) && r.tokens > cfg.burst
    ensures !RetrySucceeds(cfg, b, r, wait)
  {
    StoreKeeps(cfg, b, r, r.time + wait);
    LevelBounds(cfg, Some(Store(cfg, b, r)), r.time + wait);
  }

  /** `retryAfter` is exact, that is, whatever the wait the retry succeeds if and
      only if the wait is at least the advice, precisely for requests within the
      capacity that lack no more than flows back in a window. Beyond the capacity
      no retry ever succeeds. */
  lemma RetryAfterExact(cfg: Config, b: Option<Bucket>, r: Request)
    requires Sound(cfg) && Stored(cfg, b, r.time) && !Check(cfg, b, r).allowed
    ensures (forall wait: nat :: RetrySucceeds(cfg, b, r, wait) <==> wait >= Check(cfg, b, r).retryAfter.value)
      <==> r.tokens <= cfg.burst && Missing(cfg, b, r) <= cfg.maxRequests as real
    ensures r.tokens > cfg.burst ==> forall wait: nat :: !RetrySucceeds(cfg, b, r, wait)
  {
    var advice := Check(cfg, b, r).retryAfter.value;
    AdvicePositive(cfg, b, r);
    AdviceWithinWindow(cfg, b, r);
    if r.tokens <= cfg.burst {
      forall wait: nat ensures RetrySucceeds(cfg, b, r, wait) <==> wait >= advice || wait >= cfg.windowMs {
        RetryWithin(cfg, b, r, wait);
      }
      assert RetrySucceeds(cfg, b, r, cfg.windowMs);
    } else {
      forall wait: nat ensures !RetrySucceeds(cfg, b, r, wait) {
        NeverEnough(cfg, b, r, wait);
      }
      assert !RetrySucceeds(cfg, b, r, advice);
    }
  }

  // ---- Denials are invisible ---------------------------------------------------------

  /** Which requests of the run are granted. */
  function Decisions(cfg: Config, b: Option<Bucket>, run: seq<Request>): seq<bool>
    requires Sound(cfg)
    decreases |run|
  {
    if run == [] then []
    else [Check(cfg, b, run[0]).allowed] + Decisions(cfg, Some(Store(cfg, b, run[0])), run[1..])
  }

  /** The bucket a run leaves behind. */
  function AfterRun(cfg: Config, b: Option<Bucket>, run: seq<Request>): Option<Bucket>
    requires Sound(cfg)
    decreases |run|
  {
    if run == [] then b else AfterRun(cfg, Some(Store(cfg, b, run[0])), run[1..])
  }

  lemma {:induction false} DecisionsConcat(cfg: Config, b: Option<Bucket>, x: seq<Request>, y: seq<Request>)
    requires Sound(cfg)
    ensures Decisions(cfg, b, x + y) == Decisions(cfg, b, x) + Decisions(cfg, AfterRun(cfg, b, x), y)
    decreases |x|
  {
    if x == [] {
      assert x + y == y;
    } else {
      assert (x + y)[0] == x[0] && (x + y)[1..] == x[1..] + y;
      DecisionsConcat(cfg, Some(Store(cfg, b, x[0])), x[1..], y);
    }
  }

  lemma {:induction false} AfterRunStored(cfg: Config, b: Option<Bucket>, run: seq<Request>, now: nat)
    requires Sound(cfg) && Ordered(run)
    requires forall i :: 0 <= i < |run| ==> run[i].time <= now
    requires Stored(cfg, b, if run == [] then now else run[0].time)
    ensures Stored(cfg, AfterRun(cfg, b, run), now)
    decreases |run|
  {
    if run != [] {
      StoreKeeps(cfg, b, run[0], if |run| > 1 then run[1].time else now);
      AfterRunStored(cfg, Some(Store(cfg, b, run[0])), run[1..], now);
    }
  }

  lemma SameLevelSameDecisions(cfg: Config, b: Option<Bucket>, b': Option<Bucket>, run: seq<Request>)
    requires Sound(cfg)
    requires run != [] ==> Level(cfg, b, run[0].time) == Level(cfg, b', run[0].time)
    ensures Decisions(cfg, b, run) == Decisions(cfg, b', run)
  {}

  /** The run with the denied request in it decides as the run without it. */
  predicate Invisible(cfg: Config, before: seq<Request>, denied: Request, after: seq<Request>)
    requires Sound(cfg)
  {
    var start, rest := Decisions(cfg, None, before), Decisions(cfg, AfterRun(cfg, None, before), after);
    && Decisions(cfg, None, before + after) == start + rest
    && Decisions(cfg, None, before + [denied] + after) == start + [false] + rest
  }

  /** `denied` stands between `before` and `after` in time, and is denied. */
  predicate Denied(cfg: Config, before: seq<Request>, denied: Request, after: seq<Request>)
    requires Sound(cfg)
  {
    Ordered(before + [denied] + after) && !Check(cfg, AfterRun(cfg, None, before), denied).allowed
  }

  lemma DecisionsAround(cfg: Config, before: seq<Request>, denied: Request, after: seq<Request>)
    requires Sound(cfg) && Denied(cfg, before, denied, after)
    ensures Invisible(cfg, before, denied, after) <==>
      Decisions(cfg, Some(Store(cfg, AfterRun(cfg, None, before), denied)), after)
        == Decisions(cfg, AfterRun(cfg, None, before), after)
  {
    var b := AfterRun(cfg, None, before);
    DecisionsConcat(cfg, None, before, after);
    DecisionsConcat(cfg, None, before, [denied] + after);
    assert before + [denied] + after == before + ([denied] + after);
    assert ([denied] + after)[1..] == after;
    SameTail(Decisions(cfg, None, before), false, Decisions(cfg, Some(Store(cfg, b, denied)), after),
             Decisions(cfg, b, after));
  }

  lemma SameTail<T>(front: seq<T>, x: T, p: seq<T>, q: seq<T>)
    ensures front + ([x] + p) == front + [x] + q <==> p == q
  {
    assert (front + ([x] + p))[|front| + 1..] == p && (front + [x] + q)[|front| + 1..] == q;
  }

  /** Inserting a denied request anywhere in a run changes no other decision. */
  lemma DenialInvisible(cfg: Config, before: seq<Request>, denied: Request, after: seq<Request>)
    requires Sound(cfg) && (cfg.burst <= cfg.maxRequests || cfg.windowMs == 1)
    requires Denied(cfg, before, denied, after)
    ensures Invisible(cfg, before, denied, after)
  {
    var b := AfterRun(cfg, None, before);
    var run := before + [denied] + after;
    assert run[|before|] == denied;
    assert forall i :: 0 <= i < |before| ==> before[i] == run[i];
    AfterRunStored(cfg, None, before, denied.time);
    if after != [] {
      assert run[|before| + 1] == after[0];
      LevelAfterDenial(cfg, b, denied, after[0].time);
    }
    SameLevelSameDecisions(cfg, b, Some(Store(cfg, b, denied)), after);
    DecisionsAround(cfg, before, denied, after);
  }

  /** With a capacity above what a window refills, a denied request keeps the key
      alive, and so keeps the bucket from being full at the end of the window. */
  lemma DenialVisible(cfg: Config)
    requires Sound(cfg) && cfg.burst > cfg.maxRequests && cfg.windowMs > 1
    ensures
      var w := cfg.windowMs;
      var before, denied, after := [Request(0, cfg.burst)], Request(w - 1, cfg.burst), [Request(w, cfg.burst)];
      Denied(cfg, before, denied, after) && !Invisible(cfg, before, denied, after)
  {
    var w := cfg.windowMs;
    var before, denied, after := [Request(0, cfg.burst)], Request(w - 1, cfg.burst), [Request(w, cfg.burst)];
    assert before[1..] == [] && after[1..] == [];
    var b := Some(Store(cfg, None, before[0]));
    assert AfterRun(cfg, None, before) == b && b.value == Bucket(0.0, 0, w);
    RefillWindow(cfg);
    RefillGrows(cfg, w - 1, w);
    RefillAdds(cfg, w - 1, 1);
    assert !Check(cfg, b, denied).allowed;
    LevelSinceDenial(cfg, b, denied, w);
    assert Check(cfg, b, after[0]).allowed && !Check(cfg, Some(Store(cfg, b, denied)), after[0]).allowed;
    assert Decisions(cfg, b, after)[0] && !Decisions(cfg, Some(Store(cfg, b, denied)), after)[0];
    DecisionsAround(cfg, before, denied, after);
  }

  /** Denied requests are invisible in every run, if and only if the capacity is at
      most `maxRequests` or keys live for one millisecond only. */
  lemma DenialInvisibleExact(cfg: Config)
    requires Sound(cfg)
    ensures (forall before: seq<Request>, denied: Request, after: seq<Request> ::
              Denied(cfg, before, denied, after) ==> Invisible(cfg, before, denied, after))
      <==> cfg.burst <= cfg.maxRequests || cfg.windowMs == 1
  {
    if cfg.burst <= cfg.maxRequests || cfg.windowMs == 1 {
      forall before: seq<Request>, denied: Request, after: seq<Request> | Denied(cfg, before, denied, after)
        ensures Invisible(cfg, before, denied, after)
      {
        DenialInvisible(cfg, before, denied, after);
      }
    } else {
      DenialVisible(cfg);
    }
  }
}
