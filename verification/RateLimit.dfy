/**
 Per-peer token buckets in a bounded table (crates/lantern-core/src/ratelimit.rs).

 Tokens and seconds are real numbers. `Shared::allow` reads the clock before it takes the lock, so
 that successive calls see times that do not run backwards is an assumption of the run theorems
 (`ValidRun`). Which entry a full table gives up is the hash map's choice: every call carries it.
 */
module RateLimit {
  import opened ByteStrings
  import opened Results
  import Ranking

  type Peer = Bytes

  const MAX_TRACKED := 4096

  datatype Bucket = Bucket(tokens: real, last: real)

  type Buckets = map<Peer, Bucket>

  /** `rate` tokens per second, at most `burst` saved up; `Limiter::new` makes burst at least one. */
  datatype Config = Config(rate: real, burst: real)

  predicate ValidConfig(cfg: Config) {
    cfg.rate >= 0.0 && cfg.burst >= 1.0
  }

  function Max(a: real, b: real): real { if a >= b then a else b }

  function Min(a: real, b: real): real { if a <= b then a else b }

  /** saturating_duration_since */
  function Elapsed(now: real, last: real): real {
    Max(now - last, 0.0)
  }

  function Refill(cfg: Config, tokens: real, elapsed: real): real {
    Min(tokens + elapsed * cfg.rate, cfg.burst)
  }

  // ------------------------------------------------------------ one call, as a function

  /** `evicted` is the entry an overfull table gives up, if it has to. */
  datatype Call = Call(peer: Peer, now: real, evicted: Option<Peer>)

  /** Buckets that have refilled are dropped: they would start full again anyway. */
  function Unfilled(cfg: Config, buckets: Buckets, now: real): Buckets {
    map p | p in buckets && buckets[p].tokens + Elapsed(now, buckets[p].last) * cfg.rate < cfg.burst :: buckets[p]
  }

  predicate MakesRoom(buckets: Buckets, peer: Peer) {
    |buckets| >= MAX_TRACKED && peer !in buckets
  }

  predicate MustEvict(cfg: Config, buckets: Buckets, peer: Peer, now: real) {
    MakesRoom(buckets, peer) && |Unfilled(cfg, buckets, now)| >= MAX_TRACKED
  }

  /** Somebody is evicted exactly when forgetting refilled buckets left the table full. */
  predicate Legal(cfg: Config, buckets: Buckets, call: Call) {
    if MustEvict(cfg, buckets, call.peer, call.now)
    then call.evicted.Some? && call.evicted.value in Unfilled(cfg, buckets, call.now)
    else call.evicted.None?
  }

  function Forget(cfg: Config, buckets: Buckets, call: Call): Buckets {
    if MakesRoom(buckets, call.peer) then
      Unfilled(cfg, buckets, call.now) - (if call.evicted.Some? then {call.evicted.value} else {})
    else buckets
  }

  /** What `peer` can spend at `now`: a peer without a bucket starts full. */
  function Level(cfg: Config, buckets: Buckets, peer: Peer, now: real): real {
    if peer in buckets then Refill(cfg, buckets[peer].tokens, Elapsed(now, buckets[peer].last)) else cfg.burst
  }

  function Spend(cfg: Config, buckets: Buckets, peer: Peer, now: real): Buckets {
    var tokens := Level(cfg, buckets, peer, now);
    buckets[peer := Bucket(if tokens >= 1.0 then tokens - 1.0 else tokens, now)]
  }

  function Decision(cfg: Config, buckets: Buckets, call: Call): bool {
    Level(cfg, Forget(cfg, buckets, call), call.peer, call.now) >= 1.0
  }

  function After(cfg: Config, buckets: Buckets, call: Call): Buckets {
    Spend(cfg, Forget(cfg, buckets, call), call.peer, call.now)
  }

  // ------------------------------------------------------------ the limiter

  class Limiter {
    const cfg: Config
    var buckets: Buckets

    constructor (ratePerSec: real, burst: real)
      ensures cfg == Config(ratePerSec, Max(burst, 1.0)) && buckets == map[]
    {
      cfg := Config(ratePerSec, Max(burst, 1.0));
      buckets := map[];
    }

    method Allow(peer: Peer, now: real) returns (ok: bool, ghost evicted: Option<Peer>)
      requires ValidConfig(cfg)
      modifies this`buckets
      ensures var call := Call(peer, now, evicted);
        && Legal(cfg, old(buckets), call)
        && ok == Decision(cfg, old(buckets), call)
        && buckets == After(cfg, old(buckets), call)
    {
      evicted := None;
      if |buckets| >= MAX_TRACKED && peer !in buckets {
        evicted := ForgetFull(now);
      }
      var b := if peer in buckets then buckets[peer] else Bucket(cfg.burst, now);
      var elapsed := Elapsed(now, b.last);
      var tokens := Refill(cfg, b.tokens, elapsed);
      SpendIs(cfg, buckets, peer, now, b, tokens);
      ok := tokens >= 1.0;
      if ok { tokens := tokens - 1.0; }
      buckets := buckets[peer := Bucket(tokens, now)];
    }

    method ForgetFull(now: real) returns (ghost evicted: Option<Peer>)
      modifies this`buckets
      ensures var kept := Unfilled(cfg, old(buckets), now);
        if |kept| >= MAX_TRACKED
        then evicted.Some? && evicted.value in kept && buckets == kept - {evicted.value}
        else evicted.None? && buckets == kept
    {
      evicted := None;
      buckets := Unfilled(cfg, buckets, now);
      if |buckets| >= MAX_TRACKED {
        assert buckets.Keys != {} by { assert |buckets.Keys| == |buckets|; }
        var k :| k in buckets;
        buckets := buckets - {k};
        evicted := Some(k);
      }
    }
  }

  lemma StartsFull(cfg: Config, now: real)
    ensures Refill(cfg, cfg.burst, Elapsed(now, now)) == cfg.burst
  {
  }

  lemma SpendIs(cfg: Config, buckets: Buckets, peer: Peer, now: real, b: Bucket, tokens: real)
    requires b == if peer in buckets then buckets[peer] else Bucket(cfg.burst, now)
    requires tokens == Refill(cfg, b.tokens, Elapsed(now, b.last))
    ensures Level(cfg, buckets, peer, now) == tokens
    ensures Spend(cfg, buckets, peer, now) == buckets[peer := Bucket(if tokens >= 1.0 then tokens - 1.0 else tokens, now)]
  {
    StartsFull(cfg, now);
  }

  // ------------------------------------------------------------ levels

  /** Buckets as `allow` leaves them at or before `clock`. */
  ghost predicate Sane(cfg: Config, buckets: Buckets, clock: real) {
    forall p | p in buckets :: buckets[p].last <= clock && 0.0 <= buckets[p].tokens <= cfg.burst
  }

  lemma Distribute(rate: real, a: real, b: real)
    ensures (a + b) * rate == a * rate + b * rate
  {
  }

  lemma Product(rate: real, a: real)
    requires rate >= 0.0 && a >= 0.0
    ensures a * rate >= 0.0
  {
  }

  /** Refilling in two steps is refilling once. */
  lemma LevelDrifts(cfg: Config, buckets: Buckets, p: Peer, t1: real, t2: real)
    requires ValidConfig(cfg) && Sane(cfg, buckets, t1) && t1 <= t2
    ensures Level(cfg, buckets, p, t2) == Refill(cfg, Level(cfg, buckets, p, t1), t2 - t1)
    ensures 0.0 <= Level(cfg, buckets, p, t1) <= cfg.burst
  {
    Product(cfg.rate, t2 - t1);
    if p in buckets {
      Distribute(cfg.rate, t1 - buckets[p].last, t2 - t1);
      Product(cfg.rate, t1 - buckets[p].last);
      assert t2 - buckets[p].last == (t1 - buckets[p].last) + (t2 - t1);
    }
  }

  lemma LevelIsBounded(cfg: Config, buckets: Buckets, p: Peer, now: real)
    requires ValidConfig(cfg) && Sane(cfg, buckets, now)
    ensures 0.0 <= Level(cfg, buckets, p, now) <= cfg.burst
  {
    if p in buckets { Product(cfg.rate, Elapsed(now, buckets[p].last)); }
  }

  /** Dropping refilled buckets costs nobody anything; only an eviction changes a level. */
  lemma ForgetLevels(cfg: Config, buckets: Buckets, call: Call, p: Peer)
    requires ValidConfig(cfg) && Sane(cfg, buckets, call.now) && Legal(cfg, buckets, call)
    ensures Level(cfg, Forget(cfg, buckets, call), p, call.now) ==
      if call.evicted == Some(p) then cfg.burst else Level(cfg, buckets, p, call.now)
    ensures Sane(cfg, Forget(cfg, buckets, call), call.now)
  {
  }

  lemma SpendLevels(cfg: Config, buckets: Buckets, peer: Peer, now: real, p: Peer)
    requires ValidConfig(cfg) && Sane(cfg, buckets, now)
    ensures Level(cfg, Spend(cfg, buckets, peer, now), p, now) ==
      Level(cfg, buckets, p, now) - if p == peer && Level(cfg, buckets, peer, now) >= 1.0 then 1.0 else 0.0
    ensures Sane(cfg, Spend(cfg, buckets, peer, now), now)
  {
    LevelIsBounded(cfg, buckets, peer, now);
    assert Elapsed(now, now) * cfg.rate == 0.0;
  }

  /**
   What one call does to every peer's level: the caller pays for what is allowed, an evicted peer
   starts full again, and nobody else notices.
   */
  lemma CallLevels(cfg: Config, buckets: Buckets, call: Call, p: Peer)
    requires ValidConfig(cfg) && Sane(cfg, buckets, call.now) && Legal(cfg, buckets, call)
    ensures Decision(cfg, buckets, call) <==> Level(cfg, buckets, call.peer, call.now) >= 1.0
    ensures Level(cfg, After(cfg, buckets, call), p, call.now) ==
      if p == call.peer then
        Level(cfg, buckets, p, call.now) - (if Decision(cfg, buckets, call) then 1.0 else 0.0)
      else if call.evicted == Some(p) then cfg.burst
      else Level(cfg, buckets, p, call.now)
    ensures Sane(cfg, After(cfg, buckets, call), call.now)
  {
    ForgetLevels(cfg, buckets, call, p);
    ForgetLevels(cfg, buckets, call, call.peer);
    SpendLevels(cfg, Forget(cfg, buckets, call), call.peer, call.now, p);
  }

  lemma TrackedStaysBounded(cfg: Config, buckets: Buckets, call: Call)
    requires |buckets.Keys| <= MAX_TRACKED && Legal(cfg, buckets, call)
    ensures |After(cfg, buckets, call).Keys| <= MAX_TRACKED
  {
    var forgotten := Forget(cfg, buckets, call).Keys;
    assert After(cfg, buckets, call).Keys == forgotten + {call.peer};
    if MakesRoom(buckets, call.peer) {
      var kept := Unfilled(cfg, buckets, call.now).Keys;
      Ranking.SubsetSize(kept, buckets.Keys);
      if call.evicted.Some? { assert forgotten == kept - {call.evicted.value}; }
    } else if call.peer in buckets {
      assert forgotten + {call.peer} == buckets.Keys;
    }
  }

  // ------------------------------------------------------------ runs, beside a limiter that never forgets

  function Tracked(cfg: Config, calls: seq<Call>): Buckets {
    if calls == [] then map[] else After(cfg, Tracked(cfg, calls[..|calls| - 1]), calls[|calls| - 1])
  }

  function Unbounded(cfg: Config, calls: seq<Call>): Buckets {
    if calls == [] then map[]
    else Spend(cfg, Unbounded(cfg, calls[..|calls| - 1]), calls[|calls| - 1].peer, calls[|calls| - 1].now)
  }

  function Clock(calls: seq<Call>): real
    requires calls != []
  {
    calls[|calls| - 1].now
  }

  /** Times do not run backwards, and every eviction is one the table had to make. */
  ghost predicate ValidRun(cfg: Config, calls: seq<Call>) {
    calls == [] ||
      (var front, last := calls[..|calls| - 1], calls[|calls| - 1];
       ValidRun(cfg, front) && Legal(cfg, Tracked(cfg, front), last) && (front != [] ==> Clock(front) <= last.now))
  }

  predicate Allows(cfg: Config, calls: seq<Call>)
    requires calls != []
  {
    Decision(cfg, Tracked(cfg, calls[..|calls| - 1]), calls[|calls| - 1])
  }

  predicate UnboundedAllows(cfg: Config, calls: seq<Call>)
    requires calls != []
  {
    var last := calls[|calls| - 1];
    Level(cfg, Unbounded(cfg, calls[..|calls| - 1]), last.peer, last.now) >= 1.0
  }

  function Allowed(cfg: Config, calls: seq<Call>, p: Peer): nat {
    if calls == [] then 0
    else Allowed(cfg, calls[..|calls| - 1], p) + if calls[|calls| - 1].peer == p && Allows(cfg, calls) then 1 else 0
  }

  function UnboundedAllowed(cfg: Config, calls: seq<Call>, p: Peer): nat {
    if calls == [] then 0
    else
      UnboundedAllowed(cfg, calls[..|calls| - 1], p)
        + if calls[|calls| - 1].peer == p && UnboundedAllows(cfg, calls) then 1 else 0
  }

  lemma SaneLater(cfg: Config, buckets: Buckets, t1: real, t2: real)
    requires Sane(cfg, buckets, t1) && t1 <= t2
    ensures Sane(cfg, buckets, t2)
  {
  }

  lemma {:induction false} RunIsSane(cfg: Config, calls: seq<Call>, now: real)
    requires ValidConfig(cfg) && ValidRun(cfg, calls)
    requires calls != [] ==> Clock(calls) <= now
    ensures Sane(cfg, Tracked(cfg, calls), now) && Sane(cfg, Unbounded(cfg, calls), now)
  {
    if calls != [] {
      var front, last := calls[..|calls| - 1], calls[|calls| - 1];
      RunIsSane(cfg, front, last.now);
      CallLevels(cfg, Tracked(cfg, front), last, last.peer);
      SpendLevels(cfg, Unbounded(cfg, front), last.peer, last.now, last.peer);
      SaneLater(cfg, Tracked(cfg, calls), last.now, now);
      SaneLater(cfg, Unbounded(cfg, calls), last.now, now);
    }
  }

  /** The table never tracks more than 4096 peers. */
  lemma {:induction false} TrackedIsBounded(cfg: Config, calls: seq<Call>)
    requires ValidRun(cfg, calls)
    ensures |Tracked(cfg, calls)| <= 4096
  {
    if calls != [] {
      var front := calls[..|calls| - 1];
      TrackedIsBounded(cfg, front);
      TrackedStaysBounded(cfg, Tracked(cfg, front), calls[|calls| - 1]);
    }
    assert |Tracked(cfg, calls).Keys| == |Tracked(cfg, calls)|;
  }

  lemma RefillMonotone(cfg: Config, a: real, b: real, d: nat, elapsed: real)
    requires ValidConfig(cfg) && elapsed >= 0.0 && a + d as real >= b
    ensures Refill(cfg, a, elapsed) + d as real >= Refill(cfg, b, elapsed)
  {
  }

  /** Both limiters as the last call finds them, and what it does to them. */
  lemma LastCall(cfg: Config, calls: seq<Call>, p: Peer)
    requires ValidConfig(cfg) && calls != [] && ValidRun(cfg, calls)
    ensures var front, last := calls[..|calls| - 1], calls[|calls| - 1];
      && (Allows(cfg, calls) <==> Level(cfg, Tracked(cfg, front), last.peer, last.now) >= 1.0)
      && Level(cfg, Tracked(cfg, calls), p, last.now) ==
        (if p == last.peer then
          Level(cfg, Tracked(cfg, front), p, last.now) - (if Allows(cfg, calls) then 1.0 else 0.0)
        else if last.evicted == Some(p) then cfg.burst
        else Level(cfg, Tracked(cfg, front), p, last.now))
      && Level(cfg, Unbounded(cfg, calls), p, last.now) ==
        Level(cfg, Unbounded(cfg, front), p, last.now)
          - (if p == last.peer && UnboundedAllows(cfg, calls) then 1.0 else 0.0)
      && Sane(cfg, Tracked(cfg, calls), last.now) && Sane(cfg, Unbounded(cfg, calls), last.now)
  {
    var front, last := calls[..|calls| - 1], calls[|calls| - 1];
    RunIsSane(cfg, front, last.now);
    CallLevels(cfg, Tracked(cfg, front), last, p);
    SpendLevels(cfg, Unbounded(cfg, front), last.peer, last.now, p);
  }

  lemma {:induction false} BothDrift(cfg: Config, calls: seq<Call>, p: Peer, now: real)
    requires ValidConfig(cfg) && calls != [] && ValidRun(cfg, calls) && Clock(calls) <= now
    ensures Level(cfg, Tracked(cfg, calls), p, now) ==
      Refill(cfg, Level(cfg, Tracked(cfg, calls), p, Clock(calls)), now - Clock(calls))
    ensures Level(cfg, Unbounded(cfg, calls), p, now) ==
      Refill(cfg, Level(cfg, Unbounded(cfg, calls), p, Clock(calls)), now - Clock(calls))
    ensures Level(cfg, Unbounded(cfg, calls), p, Clock(calls)) <= cfg.burst
    ensures 0.0 <= Level(cfg, Tracked(cfg, calls), p, Clock(calls)) <= cfg.burst
  {
    RunIsSane(cfg, calls, Clock(calls));
    LevelDrifts(cfg, Tracked(cfg, calls), p, Clock(calls), now);
    LevelDrifts(cfg, Unbounded(cfg, calls), p, Clock(calls), now);
  }

  /**
   The bounded limiter never falls behind: at any time its peer has been allowed at least as many
   frames, and the surplus covers whatever it is short of.
   */
  lemma {:induction false} NeverBehind(cfg: Config, calls: seq<Call>, p: Peer, now: real)
    requires ValidConfig(cfg) && ValidRun(cfg, calls)
    requires calls != [] ==> Clock(calls) <= now
    ensures Allowed(cfg, calls, p) >= UnboundedAllowed(cfg, calls, p)
    ensures var surplus := Allowed(cfg, calls, p) - UnboundedAllowed(cfg, calls, p);
      Level(cfg, Tracked(cfg, calls), p, now) + surplus as real >= Level(cfg, Unbounded(cfg, calls), p, now)
  {
    if calls != [] {
      var front, last := calls[..|calls| - 1], calls[|calls| - 1];
      NeverBehind(cfg, front, p, last.now);
      RunIsSane(cfg, front, last.now);
      LevelIsBounded(cfg, Unbounded(cfg, front), p, last.now);
      LastCall(cfg, calls, p);
      var surplus := Allowed(cfg, calls, p) - UnboundedAllowed(cfg, calls, p);
      assert surplus >= 0
        && Level(cfg, Tracked(cfg, calls), p, last.now) + surplus as real >= Level(cfg, Unbounded(cfg, calls), p, last.now);
      BothDrift(cfg, calls, p, now);
      RefillMonotone(cfg, Level(cfg, Tracked(cfg, calls), p, last.now),
        Level(cfg, Unbounded(cfg, calls), p, last.now), surplus, now - last.now);
    }
  }

  ghost predicate NobodyEvicted(calls: seq<Call>) {
    forall i | 0 <= i < |calls| :: calls[i].evicted.None?
  }

  /** Until somebody is evicted the two limiters are in step: same levels, same counts. */
  lemma {:induction false} InStepUntilEviction(cfg: Config, calls: seq<Call>, p: Peer, now: real)
    requires ValidConfig(cfg) && ValidRun(cfg, calls) && NobodyEvicted(calls)
    requires calls != [] ==> Clock(calls) <= now
    ensures Allowed(cfg, calls, p) == UnboundedAllowed(cfg, calls, p)
    ensures Level(cfg, Tracked(cfg, calls), p, now) == Level(cfg, Unbounded(cfg, calls), p, now)
  {
    if calls != [] {
      var front, last := calls[..|calls| - 1], calls[|calls| - 1];
      InStepUntilEviction(cfg, front, p, last.now);
      InStepUntilEviction(cfg, front, last.peer, last.now);
      LastCall(cfg, calls, p);
      BothDrift(cfg, calls, p, now);
    }
  }

  /** Every decision up to and including the first call that evicts somebody is the unbounded one. */
  lemma {:induction false} SameDecisionUntilEviction(cfg: Config, calls: seq<Call>)
    requires ValidConfig(cfg) && calls != [] && ValidRun(cfg, calls)
    requires NobodyEvicted(calls[..|calls| - 1])
    ensures Allows(cfg, calls) <==> UnboundedAllows(cfg, calls)
  {
    var front, last := calls[..|calls| - 1], calls[|calls| - 1];
    InStepUntilEviction(cfg, front, last.peer, last.now);
    LastCall(cfg, calls, last.peer);
  }

  // ------------------------------------------------------------ the rate bound

  /** Frames of p allowed at times in [t1, t2]. */
  function AllowedWithin(cfg: Config, calls: seq<Call>, p: Peer, t1: real, t2: real): nat {
    if calls == [] then 0
    else
      var last := calls[|calls| - 1];
      AllowedWithin(cfg, calls[..|calls| - 1], p, t1, t2)
        + if last.peer == p && t1 <= last.now <= t2 && Allows(cfg, calls) then 1 else 0
  }

  /** How often p was evicted at times in [t1, t2]. */
  function EvictedWithin(calls: seq<Call>, p: Peer, t1: real, t2: real): nat {
    if calls == [] then 0
    else
      var last := calls[|calls| - 1];
      EvictedWithin(calls[..|calls| - 1], p, t1, t2)
        + if last.evicted == Some(p) && t1 <= last.now <= t2 then 1 else 0
  }

  lemma {:induction false} NothingBefore(cfg: Config, calls: seq<Call>, p: Peer, t1: real, t2: real)
    requires ValidRun(cfg, calls) && (calls != [] ==> Clock(calls) < t1)
    ensures AllowedWithin(cfg, calls, p, t1, t2) == 0 && EvictedWithin(calls, p, t1, t2) == 0
  {
    if calls != [] {
      NothingBefore(cfg, calls[..|calls| - 1], p, t1, t2);
    }
  }

  /** One burst to start with and one more per eviction. */
  function Bursts(cfg: Config, evictions: nat): real {
    if evictions == 0 then cfg.burst else Bursts(cfg, evictions - 1) + cfg.burst
  }

  lemma {:induction false} BurstsIsProduct(cfg: Config, k: nat)
    ensures Bursts(cfg, k) == (1 + k) as real * cfg.burst
  {
    if k > 0 {
      BurstsIsProduct(cfg, k - 1);
      Distribute(cfg.burst, k as real, 1.0);
    }
  }

  /** What trickles in between two times. */
  function Trickle(cfg: Config, from: real, to: real): real {
    (to - from) * cfg.rate
  }

  lemma TrickleAdds(cfg: Config, a: real, b: real, c: real)
    ensures Trickle(cfg, a, c) == Trickle(cfg, a, b) + Trickle(cfg, b, c)
  {
    Distribute(cfg.rate, b - a, c - b);
    assert (b - a) + (c - b) == c - a;
  }

  lemma {:induction false} LevelTrickles(cfg: Config, calls: seq<Call>, p: Peer, now: real)
    requires ValidConfig(cfg) && calls != [] && ValidRun(cfg, calls) && Clock(calls) <= now
    ensures Level(cfg, Tracked(cfg, calls), p, now)
      <= Level(cfg, Tracked(cfg, calls), p, Clock(calls)) + Trickle(cfg, Clock(calls), now)
  {
    BothDrift(cfg, calls, p, now);
  }

  /** One call, and the time after it, keep within a grant that grows by a burst when p is evicted. */
  lemma CallWithinGrant(cfg: Config, calls: seq<Call>, p: Peer, t1: real, t2: real, left: real, x: real, g: real, g': real)
    requires ValidConfig(cfg) && calls != [] && ValidRun(cfg, calls)
    requires t1 <= Clock(calls) <= t2
    requires var front := calls[..|calls| - 1];
      AllowedWithin(cfg, front, p, t1, t2) as real + Level(cfg, Tracked(cfg, front), p, Clock(calls)) <= g
    requires g' == g + if calls[|calls| - 1].evicted == Some(p) then cfg.burst else 0.0
    requires left <= Level(cfg, Tracked(cfg, calls), p, Clock(calls)) + x
    ensures AllowedWithin(cfg, calls, p, t1, t2) as real + left <= g' + x
  {
    var front, last := calls[..|calls| - 1], calls[|calls| - 1];
    RunIsSane(cfg, front, last.now);
    LevelIsBounded(cfg, Tracked(cfg, front), p, last.now);
    LastCall(cfg, calls, p);
  }

  lemma EvictedStep(cfg: Config, calls: seq<Call>, p: Peer, t1: real, t2: real)
    requires calls != [] && t1 <= Clock(calls) <= t2
    ensures Bursts(cfg, EvictedWithin(calls, p, t1, t2)) ==
      Bursts(cfg, EvictedWithin(calls[..|calls| - 1], p, t1, t2))
        + if calls[|calls| - 1].evicted == Some(p) then cfg.burst else 0.0
  {
  }

  lemma {:induction false} Join(cfg: Config, allowed: nat, left: real, k: nat, a: real, b: real, c: real)
    requires allowed as real + left <= Bursts(cfg, k) + Trickle(cfg, a, b) + Trickle(cfg, b, c)
    ensures allowed as real + left <= Bursts(cfg, k) + Trickle(cfg, a, c)
  {
    TrickleAdds(cfg, a, b, c);
  }

  /** What was allowed since t1 plus what is left to spend never exceeds what was ever granted. */
  lemma {:induction false} SpentAndLeft(cfg: Config, calls: seq<Call>, p: Peer, t1: real, t2: real, now: real)
    requires ValidConfig(cfg) && ValidRun(cfg, calls)
    requires (calls != [] ==> Clock(calls) <= now) && t1 <= now <= t2
    ensures AllowedWithin(cfg, calls, p, t1, t2) as real + Level(cfg, Tracked(cfg, calls), p, now)
      <= Bursts(cfg, EvictedWithin(calls, p, t1, t2)) + Trickle(cfg, t1, now)
  {
    if calls != [] && Clock(calls) >= t1 {
      var front, last := calls[..|calls| - 1], calls[|calls| - 1];
      SpentAndLeft(cfg, front, p, t1, t2, last.now);
      EvictedStep(cfg, calls, p, t1, t2);
      LevelTrickles(cfg, calls, p, now);
      var k := EvictedWithin(calls, p, t1, t2);
      CallWithinGrant(cfg, calls, p, t1, t2, Level(cfg, Tracked(cfg, calls), p, now), Trickle(cfg, last.now, now),
        Bursts(cfg, EvictedWithin(front, p, t1, t2)) + Trickle(cfg, t1, last.now),
        Bursts(cfg, k) + Trickle(cfg, t1, last.now));
      Join(cfg, AllowedWithin(cfg, calls, p, t1, t2), Level(cfg, Tracked(cfg, calls), p, now), k, t1, last.now, now);
    } else {
      NothingBefore(cfg, calls, p, t1, t2);
      RunIsSane(cfg, calls, now);
      LevelIsBounded(cfg, Tracked(cfg, calls), p, now);
      Start(cfg, Level(cfg, Tracked(cfg, calls), p, now), t1, now);
    }
  }

  lemma {:induction false} Start(cfg: Config, left: real, a: real, b: real)
    requires ValidConfig(cfg) && left <= cfg.burst && a <= b
    ensures 0 as real + left <= Bursts(cfg, 0) + Trickle(cfg, a, b)
  {
    assert Bursts(cfg, 0) == cfg.burst;
    assert Trickle(cfg, a, b) >= 0.0 by { Product(cfg.rate, b - a); }
  }

  lemma {:induction false} GrantBound(cfg: Config, calls: seq<Call>, p: Peer, t1: real, t2: real)
    requires ValidConfig(cfg) && ValidRun(cfg, calls) && t1 <= t2
    ensures AllowedWithin(cfg, calls, p, t1, t2) as real
      <= Bursts(cfg, EvictedWithin(calls, p, t1, t2)) + Trickle(cfg, t1, t2)
  {
    if calls != [] && Clock(calls) > t2 {
      GrantBound(cfg, calls[..|calls| - 1], p, t1, t2);
    } else {
      RunIsSane(cfg, calls, t2);
      LevelIsBounded(cfg, Tracked(cfg, calls), p, t2);
      SpentAndLeft(cfg, calls, p, t1, t2, t2);
    }
  }

  /** A burst to begin with and one for every eviction, and what the rate adds. */
  function Allowance(cfg: Config, evictions: nat, t1: real, t2: real): real {
    (1 + evictions) as real * cfg.burst + (t2 - t1) * cfg.rate
  }

  /**
   The rate bound: over any stretch of time a peer gets at most one burst, what trickles in, and
   one more burst for every time it was evicted in between.
   */
  lemma {:induction false} RateBound(cfg: Config, calls: seq<Call>, p: Peer, t1: real, t2: real)
    requires ValidConfig(cfg) && ValidRun(cfg, calls) && t1 <= t2
    ensures AllowedWithin(cfg, calls, p, t1, t2) as real <= Allowance(cfg, EvictedWithin(calls, p, t1, t2), t1, t2)
  {
    GrantBound(cfg, calls, p, t1, t2);
    GrantIsAllowance(cfg, EvictedWithin(calls, p, t1, t2), t1, t2);
  }

  lemma {:induction false} GrantIsAllowance(cfg: Config, evictions: nat, t1: real, t2: real)
    ensures Bursts(cfg, evictions) + Trickle(cfg, t1, t2) == Allowance(cfg, evictions, t1, t2)
  {
    BurstsIsProduct(cfg, evictions);
  }
}
