/** The rate limiter over its Redis keys, updated in place on every check. */
module RateLimiter {
  import opened Wrappers
  import Sequences
  import SlidingWindow
  import TokenBucket
  import BucketLaws

  type Key = string

  class RateLimiter {
    const maxRequestsPerConnection: nat
    const maxRequestsPerRoom: nat
    const windowMs: nat
    const burstAllowance: nat
    const keyPrefix: string

    var windows: map<Key, SlidingWindow.Window>
    var buckets: map<Key, TokenBucket.Bucket>
    /** Every attempt and every request ever made, by key; for specification. */
    ghost var logs: map<Key, seq<SlidingWindow.Attempt>>
    ghost var bucketLogs: map<Key, seq<TokenBucket.Request>>

    constructor (maxRequestsPerConnection: nat := 100, maxRequestsPerRoom: nat := 1000, windowMs: nat := 60000,
                 burstAllowance: nat := 10, keyPrefix: string := "ratelimit:")
      ensures Valid() && windows == map[] && buckets == map[] && logs == map[] && bucketLogs == map[]
      ensures this.maxRequestsPerConnection == maxRequestsPerConnection
      ensures this.maxRequestsPerRoom == maxRequestsPerRoom
      ensures this.windowMs == windowMs && this.burstAllowance == burstAllowance && this.keyPrefix == keyPrefix
    {
      this.maxRequestsPerConnection, this.maxRequestsPerRoom := maxRequestsPerConnection, maxRequestsPerRoom;
      this.windowMs, this.burstAllowance, this.keyPrefix := windowMs, burstAllowance, keyPrefix;
      windows, buckets, logs, bucketLogs := map[], map[], map[], map[];
    }

    ghost function Log(key: Key): seq<SlidingWindow.Attempt>
      reads this`logs
    {
      if key in logs then logs[key] else []
    }

    ghost function BucketLog(key: Key): seq<TokenBucket.Request>
      reads this`bucketLogs
    {
      if key in bucketLogs then bucketLogs[key] else []
    }

    /** Each key holds what its log leaves behind. */
    ghost predicate Valid()
      reads this`windows, this`logs, this`buckets, this`bucketLogs
    {
      && windows.Keys == logs.Keys
      && (forall key :: key in logs ==>
            logs[key] != [] && Some(windows[key]) == SlidingWindow.Stored(logs[key], windowMs))
      && buckets.Keys == bucketLogs.Keys
      && (TokenBucket.Sound(Config()) ==>
            forall key :: key in bucketLogs ==>
              Some(buckets[key]) == TokenBucket.AfterRun(Config(), None, bucketLogs[key]))
    }

    function FullKey(key: Key): Key {
      keyPrefix + key
    }

    /** One check against a sorted set: pruned, counted, extended, expiry renewed. */
    static method CheckSet(w: Option<SlidingWindow.Window>, maxRequests: nat, windowMs: nat, now: nat, nonce: string)
      returns (r: SlidingWindow.RateLimitResult, w': SlidingWindow.Window)
      ensures r == SlidingWindow.Check(w, SlidingWindow.Attempt(now, nonce), maxRequests, windowMs)
      ensures w' == SlidingWindow.Store(w, SlidingWindow.Attempt(now, nonce), windowMs)
    {
      var windowStart := now - windowMs;
      var entries := SlidingWindow.Pruned(SlidingWindow.Live(w, now), windowStart);
      var currentCount := |entries| + 1;
      w' := SlidingWindow.Window(entries + {SlidingWindow.Attempt(now, nonce)}, now + windowMs);
      var remaining := SlidingWindow.Max(0, maxRequests - currentCount);
      var allowed := currentCount <= maxRequests;
      var resetAfterMs := windowMs - (now - windowStart);
      r := SlidingWindow.RateLimitResult(allowed, remaining, resetAfterMs, maxRequests,
                                         if allowed then None else Some(resetAfterMs));
    }

    method Write(fullKey: Key, w: SlidingWindow.Window, ghost log: seq<SlidingWindow.Attempt>)
      requires Valid() && log != [] && Some(w) == SlidingWindow.Stored(log, windowMs)
      modifies this`windows, this`logs
      ensures Valid() && logs == old(logs)[fullKey := log]
    {
      windows := windows[fullKey := w];
      logs := logs[fullKey := log];
    }

    /** Check against the sliding window of `key`. The clock has not gone back
        since the last check, and the random suffix is new for its millisecond:
        then the attempt is allowed exactly when the window that ends now holds
        at most `maxRequests` attempts. */
    method CheckLimit(key: Key, maxRequests: nat, now: nat, nonce: string) returns (r: SlidingWindow.RateLimitResult)
      requires Valid()
      requires SlidingWindow.Proper(Log(FullKey(key)) + [SlidingWindow.Attempt(now, nonce)])
      modifies this`windows, this`logs
      ensures Valid()
      ensures logs == old(logs)[FullKey(key) := old(Log(FullKey(key))) + [SlidingWindow.Attempt(now, nonce)]]
      ensures r == SlidingWindow.LastAnswer(Log(FullKey(key)), maxRequests, windowMs)
      ensures r.allowed <==> SlidingWindow.InLastWindow(Log(FullKey(key)), windowMs) <= maxRequests
      ensures r.retryAfter == if r.allowed then None else Some(0)
    {
      var fullKey := FullKey(key);
      var stored := if fullKey in windows then Some(windows[fullKey]) else None;
      ghost var log := Log(fullKey);
      ghost var longer := log + [SlidingWindow.Attempt(now, nonce)];
      assert longer[..|longer| - 1] == log;
      assert stored == SlidingWindow.Stored(log, windowMs);
      var w;
      r, w := CheckSet(stored, maxRequests, windowMs, now, nonce);
      Write(fullKey, w, longer);
      SlidingWindow.LimiterRefinesLog(longer, maxRequests, windowMs);
    }

    method CheckConnectionLimit(connectionId: string, now: nat, nonce: string)
      returns (r: SlidingWindow.RateLimitResult)
      requires Valid()
      requires SlidingWindow.Proper(Log(FullKey("conn:" + connectionId)) + [SlidingWindow.Attempt(now, nonce)])
      modifies this`windows, this`logs
      ensures Valid()
      ensures logs == old(logs)[FullKey("conn:" + connectionId) :=
        old(Log(FullKey("conn:" + connectionId))) + [SlidingWindow.Attempt(now, nonce)]]
      ensures r.allowed <==>
        SlidingWindow.InLastWindow(Log(FullKey("conn:" + connectionId)), windowMs)
          <= maxRequestsPerConnection + burstAllowance
    {
      r := CheckLimit("conn:" + connectionId, maxRequestsPerConnection + burstAllowance, now, nonce);
    }

    method CheckRoomLimit(roomId: string, now: nat, nonce: string) returns (r: SlidingWindow.RateLimitResult)
      requires Valid()
      requires SlidingWindow.Proper(Log(FullKey("room:" + roomId)) + [SlidingWindow.Attempt(now, nonce)])
      modifies this`windows, this`logs
      ensures Valid()
      ensures logs == old(logs)[FullKey("room:" + roomId) :=
        old(Log(FullKey("room:" + roomId))) + [SlidingWindow.Attempt(now, nonce)]]
      ensures r.allowed <==>
        SlidingWindow.InLastWindow(Log(FullKey("room:" + roomId)), windowMs)
          <= maxRequestsPerRoom + burstAllowance
    {
      r := CheckLimit("room:" + roomId, maxRequestsPerRoom + burstAllowance, now, nonce);
    }

    function Config(): TokenBucket.Config {
      TokenBucket.Config(windowMs, maxRequestsPerConnection, burstAllowance)
    }

    /** One check against a bucket: refilled, charged if it suffices, written back. */
    static method CheckBucket(cfg: TokenBucket.Config, b: Option<TokenBucket.Bucket>, now: nat, tokensRequested: nat)
      returns (r: TokenBucket.Answer, b': TokenBucket.Bucket)
      requires TokenBucket.Sound(cfg)
      ensures r == TokenBucket.Check(cfg, b, TokenBucket.Request(now, tokensRequested))
      ensures b' == TokenBucket.Store(cfg, b, TokenBucket.Request(now, tokensRequested))
    {
      var bucketCapacity := cfg.burst;
      var tokens := bucketCapacity as real;
      var lastRefill := now;
      if b.Some? && now < b.value.expiresAt {
        tokens := b.value.tokens;
        lastRefill := b.value.lastRefill;
      }
      var tokensToAdd := TokenBucket.Refill(cfg, now - lastRefill);
      TokenBucket.NoRefill(cfg);
      tokens := TokenBucket.MinReal(bucketCapacity as real, tokens + tokensToAdd);
      assert tokens == TokenBucket.Level(cfg, b, now);
      if tokens >= tokensRequested as real {
        tokens := tokens - tokensRequested as real;
        b' := TokenBucket.Bucket(tokens, now, now + cfg.windowMs);
        r := TokenBucket.Answer(true, tokens.Floor, cfg.windowMs, bucketCapacity, None);
        return;
      }
      b' := TokenBucket.Bucket(tokens, now, now + cfg.windowMs);
      var retryAfter := TokenBucket.MsFor(cfg, tokensRequested as real - tokens);
      r := TokenBucket.Answer(false, tokens.Floor, cfg.windowMs, bucketCapacity, Some(retryAfter));
    }

    function BucketKey(connectionId: string): Key {
      FullKey("burst:conn:" + connectionId)
    }

    method WriteBucket(key: Key, b: TokenBucket.Bucket, ghost log: seq<TokenBucket.Request>)
      requires Valid() && TokenBucket.Sound(Config())
      requires Some(b) == TokenBucket.AfterRun(Config(), None, log)
      modifies this`buckets, this`bucketLogs
      ensures Valid() && buckets == old(buckets)[key := b] && bucketLogs == old(bucketLogs)[key := log]
    {
      buckets := buckets[key := b];
      bucketLogs := bucketLogs[key := log];
    }

    /** Check against the token bucket of a connection. If the clock has not gone back,
        the request is granted exactly when there is room for it after the requests
        granted to the connection before. */
    method CheckBurstTokens(connectionId: string, tokensRequested: nat := 1, now: nat)
      returns (r: TokenBucket.Answer)
      requires Valid() && TokenBucket.Sound(Config())
      modifies this`buckets, this`bucketLogs
      ensures Valid()
      ensures
        var key, request := BucketKey(connectionId), TokenBucket.Request(now, tokensRequested);
        bucketLogs == old(bucketLogs)[key := old(BucketLog(key)) + [request]]
      ensures
        var key, request := BucketKey(connectionId), TokenBucket.Request(now, tokensRequested);
        r == TokenBucket.Check(Config(), TokenBucket.AfterRun(Config(), None, old(BucketLog(key))), request)
      ensures RoomDecides(old(BucketLog(BucketKey(connectionId))), TokenBucket.Request(now, tokensRequested), r.allowed)
    {
      var key := BucketKey(connectionId);
      ghost var log, request := BucketLog(key), TokenBucket.Request(now, tokensRequested);
      var stored := if key in buckets then Some(buckets[key]) else None;
      assert stored == TokenBucket.AfterRun(Config(), None, log);
      var b;
      r, b := CheckBucket(Config(), stored, now, tokensRequested);
      BucketLaws.AfterRunLast(Config(), None, log, request);
      WriteBucket(key, b, log + [request]);
      ByRoom(log, request);
    }

    /** In time order, the request is granted exactly when there is room for it: under
        the limits of a connection and the burst allowance as capacity. */
    ghost predicate RoomDecides(log: seq<TokenBucket.Request>, request: TokenBucket.Request, allowed: bool)
      requires TokenBucket.Sound(Config())
    {
      TokenBucket.Ordered(log + [request]) ==>
        var cfg := TokenBucket.Config(windowMs, maxRequestsPerConnection, burstAllowance);
        && TokenBucket.Sound(cfg)
        && var granted := TokenBucket.Decisions(cfg, None, log);
        && |granted| == |log|
        && (allowed <==>
             BucketLaws.HasRoom(cfg, log, granted, request.time, request.tokens as real,
                                BucketLaws.AliveSince(log, windowMs, request.time)))
    }

    lemma ByRoom(log: seq<TokenBucket.Request>, request: TokenBucket.Request)
      requires TokenBucket.Sound(Config())
      ensures RoomDecides(log, request,
        TokenBucket.Check(Config(), TokenBucket.AfterRun(Config(), None, log), request).allowed)
    {
      if TokenBucket.Ordered(log + [request]) {
        BucketLaws.OrderedFront(log, request);
        BucketLaws.GrantedExactly(Config(), log, request);
      }
    }

    // ---- Keys ------------------------------------------------------------------------

    /** Connections, rooms and buckets share no key, and neither do two of a kind. */
    lemma KeysApart(x: string, y: string)
      ensures FullKey(x) == FullKey(y) <==> x == y
      ensures FullKey("conn:" + x) != FullKey("room:" + y)
      ensures FullKey("conn:" + x) != BucketKey(y) && FullKey("room:" + x) != BucketKey(y)
      ensures FullKey("conn:" + x) == FullKey("conn:" + y) <==> x == y
      ensures FullKey("room:" + x) == FullKey("room:" + y) <==> x == y
      ensures BucketKey(x) == BucketKey(y) <==> x == y
    {
      Sequences.SamePrefix(keyPrefix, x, y);
      Sequences.SamePrefix("conn:", x, y);
      Sequences.SamePrefix("room:", x, y);
      Sequences.SamePrefix("burst:conn:", x, y);
      FullKeyExact("conn:" + x, "room:" + y);
      FullKeyExact("conn:" + x, "burst:conn:" + y);
      FullKeyExact("room:" + x, "burst:conn:" + y);
      FullKeyExact("conn:" + x, "conn:" + y);
      FullKeyExact("room:" + x, "room:" + y);
      FullKeyExact("burst:conn:" + x, "burst:conn:" + y);
      assert ("conn:" + x)[0] == 'c' && ("room:" + y)[0] == 'r' && ("room:" + x)[0] == 'r';
      assert ("burst:conn:" + y)[0] == 'b';
    }

    lemma FullKeyExact(x: string, y: string)
      ensures FullKey(x) == FullKey(y) <==> x == y
    {
      Sequences.SamePrefix(keyPrefix, x, y);
    }
  }
}
