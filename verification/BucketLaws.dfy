/** Which requests the token bucket grants, said without a bucket: a request is granted
    if and only if it would not break the bound of capacity plus refill, counted from
    any time since the key came to life. */
module BucketLaws {
  import opened Wrappers
  import opened TokenBucket

  // ---- The reference ---------------------------------------------------------------------

  /** Tokens that the granted requests took from `from` on. */
  function GrantedSince(run: seq<Request>, granted: seq<bool>, from: nat): nat
    requires |granted| == |run|
    decreases |run|
  {
    if run == [] then 0
    else
      var n := |run| - 1;
      GrantedSince(run[..n], granted[..n], from) + if granted[n] && run[n].time >= from then run[n].tokens else 0
  }

  /** Since when requests, granted or denied, have kept the key alive at `now`. */
  function AliveSince(run: seq<Request>, windowMs: nat, now: nat): nat
    decreases |run|
  {
    if run == [] then now
    else
      var n := |run| - 1;
      if now - run[n].time >= windowMs then now else AliveSince(run[..n], windowMs, run[n].time)
  }

  /** Another `x` tokens at `now` are within capacity plus refill, from any time not
      before `start` on. */
  ghost predicate HasRoom(cfg: Config, run: seq<Request>, granted: seq<bool>, now: nat, x: real, start: nat)
    requires Sound(cfg) && |granted| == |run|
  {
    && x <= cfg.burst as real
    && forall from: nat :: start <= from <= now ==>
         GrantedSince(run, granted, from) as real + x <= cfg.burst as real + Refill(cfg, now - from)
  }

  /** The decisions that grant exactly the requests there is room for. */
  ghost predicate Grants(cfg: Config, run: seq<Request>, granted: seq<bool>)
    requires Sound(cfg)
  {
    && |granted| == |run|
    && forall i :: 0 <= i < |run| ==>
         (granted[i] <==>
           HasRoom(cfg, run[..i], granted[..i], run[i].time, run[i].tokens as real,
                   AliveSince(run[..i], cfg.windowMs, run[i].time)))
  }

  // ---- Runs one request longer --------------------------------------------------------------

  predicate Until(run: seq<Request>, now: nat) {
    forall i :: 0 <= i < |run| ==> run[i].time <= now
  }

  lemma {:induction false} AliveBefore(run: seq<Request>, windowMs: nat, now: nat)
    requires Ordered(run) && Until(run, now)
    ensures AliveSince(run, windowMs, now) <= now
    decreases |run|
  {
    if run != [] { AliveBefore(run[..|run| - 1], windowMs, run[|run| - 1].time); }
  }

  lemma {:induction false} NothingSince(run: seq<Request>, granted: seq<bool>, from: nat)
    requires |granted| == |run| && forall i :: 0 <= i < |run| ==> run[i].time < from
    ensures GrantedSince(run, granted, from) == 0
    decreases |run|
  {
    if run != [] { NothingSince(run[..|run| - 1], granted[..|run| - 1], from); }
  }

  lemma GrantedLast(run: seq<Request>, granted: seq<bool>, r: Request, yes: bool, from: nat)
    requires |granted| == |run|
    ensures GrantedSince(run + [r], granted + [yes], from)
      == GrantedSince(run, granted, from) + if yes && r.time >= from then r.tokens else 0
  {
    assert (run + [r])[..|run|] == run && (granted + [yes])[..|run|] == granted;
  }

  function Taken(r: Request, yes: bool): nat {
    if yes then r.tokens else 0
  }

  lemma BoundMoves(cfg: Config, run: seq<Request>, granted: seq<bool>, r: Request, yes: bool, now: nat, x: real,
                   from: nat)
    requires Sound(cfg) && |granted| == |run| && from <= r.time <= now
    ensures GrantedSince(run + [r], granted + [yes], from) as real + x <= cfg.burst as real + Refill(cfg, now - from)
      <==> GrantedSince(run, granted, from) as real + (x + Taken(r, yes) as real - Refill(cfg, now - r.time))
             <= cfg.burst as real + Refill(cfg, r.time - from)
  {
    GrantedLast(run, granted, r, yes, from);
    RefillAdds(cfg, now - r.time, r.time - from);
  }

  lemma RoomBefore(cfg: Config, run: seq<Request>, granted: seq<bool>, r: Request, yes: bool, now: nat, x: real,
                   start: nat)
    requires Sound(cfg) && |granted| == |run| && start <= r.time <= now
    requires HasRoom(cfg, run + [r], granted + [yes], now, x, start)
    ensures HasRoom(cfg, run, granted, r.time, x + Taken(r, yes) as real - Refill(cfg, now - r.time), start)
  {
    forall from: nat | start <= from <= r.time
      ensures GrantedSince(run, granted, from) as real + (x + Taken(r, yes) as real - Refill(cfg, now - r.time))
        <= cfg.burst as real + Refill(cfg, r.time - from)
    {
      BoundMoves(cfg, run, granted, r, yes, now, x, from);
    }
    NoRefill(cfg);
    BoundMoves(cfg, run, granted, r, yes, now, x, r.time);
  }

  lemma RoomAfter(cfg: Config, run: seq<Request>, granted: seq<bool>, r: Request, yes: bool, now: nat, x: real,
                  start: nat)
    requires Sound(cfg) && |granted| == |run| && start <= r.time <= now && Until(run, r.time)
    requires x <= cfg.burst as real
    requires HasRoom(cfg, run, granted, r.time, x + Taken(r, yes) as real - Refill(cfg, now - r.time), start)
    ensures HasRoom(cfg, run + [r], granted + [yes], now, x, start)
  {
    forall from: nat | start <= from <= now
      ensures GrantedSince(run + [r], granted + [yes], from) as real + x <= cfg.burst as real + Refill(cfg, now - from)
    {
      if from <= r.time {
        BoundMoves(cfg, run, granted, r, yes, now, x, from);
      } else {
        NothingSince(run + [r], granted + [yes], from);
        RefillGrows(cfg, 0, now - from);
      }
    }
  }

  lemma RoomMoves(cfg: Config, run: seq<Request>, granted: seq<bool>, r: Request, yes: bool, now: nat, x: real,
                  start: nat)
    requires Sound(cfg) && |granted| == |run| && start <= r.time <= now && Until(run, r.time)
    ensures HasRoom(cfg, run + [r], granted + [yes], now, x, start) <==>
      && x <= cfg.burst as real
      && HasRoom(cfg, run, granted, r.time, x + Taken(r, yes) as real - Refill(cfg, now - r.time), start)
  {
    var z := x + Taken(r, yes) as real - Refill(cfg, now - r.time);
    if HasRoom(cfg, run + [r], granted + [yes], now, x, start) {
      RoomBefore(cfg, run, granted, r, yes, now, x, start);
    }
    if x <= cfg.burst as real && HasRoom(cfg, run, granted, r.time, z, start) {
      RoomAfter(cfg, run, granted, r, yes, now, x, start);
    }
  }

  lemma DecisionsLast(cfg: Config, run: seq<Request>, r: Request)
    requires Sound(cfg)
    ensures Decisions(cfg, None, run + [r])
      == Decisions(cfg, None, run) + [Check(cfg, AfterRun(cfg, None, run), r).allowed]
  {
    DecisionsConcat(cfg, None, run, [r]);
    assert [r][1..] == [];
  }

  lemma {:induction false} AfterRunLast(cfg: Config, b: Option<Bucket>, run: seq<Request>, r: Request)
    requires Sound(cfg)
    ensures AfterRun(cfg, b, run + [r]) == Some(Store(cfg, AfterRun(cfg, b, run), r))
    decreases |run|
  {
    if run == [] {
      assert ([] + [r])[1..] == [] && run + [r] == [r];
    } else {
      assert (run + [r])[1..] == run[1..] + [r];
      AfterRunLast(cfg, Some(Store(cfg, b, run[0])), run[1..], r);
    }
  }

  lemma {:induction false} DecisionsLength(cfg: Config, b: Option<Bucket>, run: seq<Request>)
    requires Sound(cfg)
    ensures |Decisions(cfg, b, run)| == |run|
    decreases |run|
  {
    if run != [] { DecisionsLength(cfg, Some(Store(cfg, b, run[0])), run[1..]); }
  }

  // ---- What is left in the bucket -------------------------------------------------------------

  /** After one more request, while the key lives. */
  lemma LevelWhileAlive(cfg: Config, b: Option<Bucket>, r: Request, now: nat, x: real)
    requires Sound(cfg) && Stored(cfg, b, r.time) && r.time <= now
    requires now < r.time + cfg.windowMs || cfg.burst <= cfg.maxRequests
    ensures Level(cfg, Some(Store(cfg, b, r)), now) >= x <==>
      && x <= cfg.burst as real
      && Level(cfg, b, r.time) >= x + Taken(r, Check(cfg, b, r).allowed) as real - Refill(cfg, now - r.time)
  {
    StoreKeeps(cfg, b, r, now);
    if cfg.burst <= cfg.maxRequests { LevelIsRefilled(cfg, Some(Store(cfg, b, r)), now); }
  }

  /** Where to start counting; with a capacity of at most `maxRequests` it may be any
      time. */
  function Start(cfg: Config, run: seq<Request>, now: nat, always: bool): nat {
    if always then 0 else AliveSince(run, cfg.windowMs, now)
  }

  lemma LevelOfNothing(cfg: Config, now: nat, x: real, start: nat)
    requires Sound(cfg)
    ensures Level(cfg, None, now) >= x <==> HasRoom(cfg, [], [], now, x, start)
  {
    forall from: nat | start <= from <= now
      ensures x <= cfg.burst as real ==>
        GrantedSince([], [], from) as real + x <= cfg.burst as real + Refill(cfg, now - from)
    {
      RefillGrows(cfg, 0, now - from);
    }
  }

  lemma RoomAtOnce(cfg: Config, run: seq<Request>, granted: seq<bool>, now: nat, x: real)
    requires Sound(cfg) && |granted| == |run| && forall i :: 0 <= i < |run| ==> run[i].time < now
    ensures x <= cfg.burst as real <==> HasRoom(cfg, run, granted, now, x, now)
  {
    NoRefill(cfg);
    NothingSince(run, granted, now);
  }

  lemma LevelWhenExpired(cfg: Config, before: seq<Request>, r: Request, now: nat, x: real)
    requires Sound(cfg) && Ordered(before + [r]) && Until(before + [r], now) && now - r.time >= cfg.windowMs
    ensures |Decisions(cfg, None, before + [r])| == |before| + 1
    ensures Level(cfg, AfterRun(cfg, None, before + [r]), now) >= x <==>
      HasRoom(cfg, before + [r], Decisions(cfg, None, before + [r]), now, x, Start(cfg, before + [r], now, false))
  {
    var run := before + [r];
    DecisionsLength(cfg, None, run);
    AfterRunLast(cfg, None, before, r);
    forall i | 0 <= i < |run| ensures run[i].time < now { assert run[i].time <= run[|run| - 1].time; }
    RoomAtOnce(cfg, run, Decisions(cfg, None, run), now, x);
  }

  lemma {:induction false} LevelExact(cfg: Config, run: seq<Request>, now: nat, x: real, always: bool)
    requires Sound(cfg) && Ordered(run) && Until(run, now) && (always ==> cfg.burst <= cfg.maxRequests)
    ensures |Decisions(cfg, None, run)| == |run|
    ensures Level(cfg, AfterRun(cfg, None, run), now) >= x <==>
      HasRoom(cfg, run, Decisions(cfg, None, run), now, x, Start(cfg, run, now, always))
    decreases |run|, 0
  {
    DecisionsLength(cfg, None, run);
    if run == [] {
      LevelOfNothing(cfg, now, x, Start(cfg, run, now, always));
    } else {
      var n := |run| - 1;
      var before, r := run[..n], run[n];
      assert run == before + [r];
      if now - r.time >= cfg.windowMs && !always {
        LevelWhenExpired(cfg, before, r, now, x);
      } else {
        LevelOneMore(cfg, before, r, now, x, always);
      }
    }
  }

  lemma LevelOneMore(cfg: Config, before: seq<Request>, r: Request, now: nat, x: real, always: bool)
    requires Sound(cfg) && Ordered(before + [r]) && r.time <= now
    requires if always then cfg.burst <= cfg.maxRequests else now < r.time + cfg.windowMs
    ensures |Decisions(cfg, None, before + [r])| == |before| + 1
    ensures Level(cfg, AfterRun(cfg, None, before + [r]), now) >= x <==>
      HasRoom(cfg, before + [r], Decisions(cfg, None, before + [r]), now, x, Start(cfg, before + [r], now, always))
    decreases |before|, 1
  {
    var b, ds := AfterRun(cfg, None, before), Decisions(cfg, None, before);
    var yes := Check(cfg, b, r).allowed;
    var z := x + Taken(r, yes) as real - Refill(cfg, now - r.time);
    OrderedFront(before, r);
    AfterRunLast(cfg, None, before, r);
    AliveBefore(before, cfg.windowMs, r.time);
    AfterRunStored(cfg, None, before, r.time);
    DecisionsLength(cfg, None, before);
    DecisionsLast(cfg, before, r);
    LevelWhileAlive(cfg, b, r, now, x);
    LevelExact(cfg, before, r.time, z, always);
    RoomMoves(cfg, before, ds, r, yes, now, x, Start(cfg, before, r.time, always));
    StartStays(cfg, before, r, now, always);
  }

  lemma OrderedFront(before: seq<Request>, r: Request)
    requires Ordered(before + [r])
    ensures Ordered(before) && Until(before, r.time)
  {
    var run := before + [r];
    assert run[|before|] == r;
    assert forall i :: 0 <= i < |before| ==> before[i] == run[i];
  }

  lemma StartStays(cfg: Config, before: seq<Request>, r: Request, now: nat, always: bool)
    requires always || now < r.time + cfg.windowMs
    ensures Start(cfg, before + [r], now, always) == Start(cfg, before, r.time, always)
  {
    assert (before + [r])[..|before|] == before;
  }

  // ---- What is granted -----------------------------------------------------------------------

  /** One request after a run. */
  lemma GrantedExactly(cfg: Config, run: seq<Request>, r: Request)
    requires Sound(cfg) && Ordered(run) && Until(run, r.time)
    ensures |Decisions(cfg, None, run)| == |run|
    ensures Check(cfg, AfterRun(cfg, None, run), r).allowed <==>
      HasRoom(cfg, run, Decisions(cfg, None, run), r.time, r.tokens as real, AliveSince(run, cfg.windowMs, r.time))
    ensures cfg.burst <= cfg.maxRequests ==>
      (Check(cfg, AfterRun(cfg, None, run), r).allowed <==>
        HasRoom(cfg, run, Decisions(cfg, None, run), r.time, r.tokens as real, 0))
  {
    LevelExact(cfg, run, r.time, r.tokens as real, false);
    if cfg.burst <= cfg.maxRequests { LevelExact(cfg, run, r.time, r.tokens as real, true); }
  }

  lemma {:induction false} DecisionAt(cfg: Config, run: seq<Request>, i: nat)
    requires Sound(cfg) && i < |run|
    ensures |Decisions(cfg, None, run)| == |run|
    ensures Decisions(cfg, None, run)[..i] == Decisions(cfg, None, run[..i])
    ensures Decisions(cfg, None, run)[i] == Check(cfg, AfterRun(cfg, None, run[..i]), run[i]).allowed
    decreases |run|
  {
    var n := |run| - 1;
    DecisionsLength(cfg, None, run);
    DecisionsLength(cfg, None, run[..n]);
    DecisionsLast(cfg, run[..n], run[n]);
    assert run == run[..n] + [run[n]];
    if i < n {
      DecisionAt(cfg, run[..n], i);
      assert run[..n][..i] == run[..i];
      assert Decisions(cfg, None, run)[..i] == Decisions(cfg, None, run[..n])[..i];
    }
  }

  lemma DecisionsGrant(cfg: Config, run: seq<Request>)
    requires Sound(cfg) && Ordered(run)
    ensures Grants(cfg, run, Decisions(cfg, None, run))
  {
    var ds := Decisions(cfg, None, run);
    DecisionsLength(cfg, None, run);
    forall i | 0 <= i < |run|
      ensures ds[i] <==>
        HasRoom(cfg, run[..i], ds[..i], run[i].time, run[i].tokens as real,
                AliveSince(run[..i], cfg.windowMs, run[i].time))
    {
      DecisionAt(cfg, run, i);
      GrantedExactly(cfg, run[..i], run[i]);
    }
  }

  lemma {:induction false} GrantsUnique(cfg: Config, run: seq<Request>, x: seq<bool>, y: seq<bool>, n: nat)
    requires Sound(cfg) && Grants(cfg, run, x) && Grants(cfg, run, y) && n <= |run|
    ensures x[..n] == y[..n]
  {
    if n > 0 {
      GrantsUnique(cfg, run, x, y, n - 1);
      GrantsNext(cfg, run, x, y, n - 1);
      assert x[..n] == x[..n - 1] + [x[n - 1]] && y[..n] == y[..n - 1] + [y[n - 1]];
    }
  }

  lemma GrantsNext(cfg: Config, run: seq<Request>, x: seq<bool>, y: seq<bool>, i: nat)
    requires Sound(cfg) && Grants(cfg, run, x) && Grants(cfg, run, y) && i < |run| && x[..i] == y[..i]
    ensures x[i] == y[i]
  {}

  /** Over every run in time order, the limiter's decisions are those, and the only
      ones, that grant exactly the requests there is room for. For any configuration. */
  lemma BucketExact(cfg: Config, run: seq<Request>, granted: seq<bool>)
    requires Sound(cfg) && Ordered(run)
    ensures Grants(cfg, run, granted) <==> granted == Decisions(cfg, None, run)
  {
    var ds := Decisions(cfg, None, run);
    DecisionsGrant(cfg, run);
    if Grants(cfg, run, granted) {
      GrantsUnique(cfg, run, granted, ds, |run|);
      assert granted[..|run|] == granted && ds[..|run|] == ds;
    }
  }

  /** After every run in time order, a request is granted if and only if it breaks the
      bound from no time at all on. */
  ghost predicate ConverseHolds(cfg: Config)
    requires Sound(cfg)
  {
    forall run: seq<Request>, r: Request :: Ordered(run) && Until(run, r.time) ==>
      |Decisions(cfg, None, run)| == |run| &&
      (Check(cfg, AfterRun(cfg, None, run), r).allowed <==>
        HasRoom(cfg, run, Decisions(cfg, None, run), r.time, r.tokens as real, 0))
  }

  lemma OneRequest(cfg: Config, r: Request)
    requires Sound(cfg)
    ensures Decisions(cfg, None, [r]) == [Check(cfg, None, r).allowed] && |Decisions(cfg, None, [r])| == 1
    ensures AfterRun(cfg, None, [r]) == Some(Store(cfg, None, r))
    ensures GrantedSince([r], [true], r.time) == r.tokens
  {
    var none, no := [r][1..], [true][1..];
    assert [r] == none + [r] && [true] == no + [true];
    NoRequest(cfg, none, no, r.time);
    DecisionsLast(cfg, none, r);
    AfterRunLast(cfg, None, none, r);
    GrantedLast(none, no, r, true, r.time);
  }

  lemma NoRequest(cfg: Config, none: seq<Request>, no: seq<bool>, from: nat)
    requires Sound(cfg) && |none| == |no| == 0
    ensures |Decisions(cfg, None, none)| == 0 && AfterRun(cfg, None, none) == None
    ensures GrantedSince(none, no, from) == 0
  {}

  lemma FullTwice(cfg: Config)
    requires Sound(cfg)
    ensures
      var first := Request(0, cfg.burst);
      && Check(cfg, None, first).allowed
      && Check(cfg, Some(Store(cfg, None, first)), Request(cfg.windowMs, cfg.burst)).allowed
  {}

  /** Once the key has expired the whole capacity is granted again, more than what has
      flowed back. */
  lemma RefusedRoom(cfg: Config)
    requires Sound(cfg) && cfg.burst > cfg.maxRequests
    ensures !ConverseHolds(cfg)
  {
    var first, second := Request(0, cfg.burst), Request(cfg.windowMs, cfg.burst);
    OneRequest(cfg, first);
    FullTwice(cfg);
    RefillWindow(cfg);
    assert Ordered([first]) && Until([first], second.time);
    assert !HasRoom(cfg, [first], [true], second.time, cfg.burst as real, 0);
  }

  /** The bound on what is granted is exact, that is, nothing within it is refused and
      nothing beyond it granted, if and only if the capacity is at most `maxRequests`. */
  lemma ConverseExact(cfg: Config)
    requires Sound(cfg)
    ensures ConverseHolds(cfg) <==> cfg.burst <= cfg.maxRequests
  {
    if cfg.burst <= cfg.maxRequests {
      forall run: seq<Request>, r: Request | Ordered(run) && Until(run, r.time)
        ensures |Decisions(cfg, None, run)| == |run|
        ensures Check(cfg, AfterRun(cfg, None, run), r).allowed <==>
          HasRoom(cfg, run, Decisions(cfg, None, run), r.time, r.tokens as real, 0)
      {
        GrantedExactly(cfg, run, r);
      }
    } else {
      RefusedRoom(cfg);
    }
  }

  // ---- What the answer says ------------------------------------------------------------------

  /** `remaining` is what can be had at once, and after `resetAfterMs` without a request
      everything up to `limit` can be had. For any configuration. */
  lemma AnswerExact(cfg: Config, b: Option<Bucket>, r: Request, k: nat)
    requires Sound(cfg) && Stored(cfg, b, r.time)
    ensures
      var answer, b' := Check(cfg, b, r), Some(Store(cfg, b, r));
      && (Check(cfg, b', Request(r.time, k)).allowed <==> k <= answer.remaining)
      && (Check(cfg, b', Request(r.time + answer.resetAfterMs, k)).allowed <==> k <= answer.limit)
  {
    var b' := Store(cfg, b, r);
    LevelBounds(cfg, b, r.time);
    NoRefill(cfg);
    assert Level(cfg, Some(b'), r.time) == b'.tokens;
    FloorExact(b'.tokens, k);
  }

  lemma FloorExact(x: real, k: int)
    ensures x >= k as real <==> k <= x.Floor
  {}
}
