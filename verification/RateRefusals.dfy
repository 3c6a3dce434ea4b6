/**
 When the limiter refuses (crates/lantern-core/src/ratelimit.rs:44-62), said in allowed frames and
 times alone. The rate bound says that no more is allowed than trickled in; here nothing less is.
 */
module RateRefusals {
  import opened RateLimit
  import opened Results

  lemma {:induction false} AllowedGrows(cfg: Config, calls: seq<Call>, p: Peer, t: real, t1: real, t2: real)
    requires t1 <= t2
    ensures AllowedWithin(cfg, calls, p, t, t1) <= AllowedWithin(cfg, calls, p, t, t2)
  {
    if calls != [] { AllowedGrows(cfg, calls[..|calls| - 1], p, t, t1, t2); }
  }

  /** Since `t`, when p's bucket was full, everything that is missing has been spent. */
  ghost predicate FullAt(cfg: Config, calls: seq<Call>, p: Peer, now: real, t: real) {
    t <= now
    && AllowedWithin(cfg, calls, p, t, now) as real + Level(cfg, Tracked(cfg, calls), p, now)
      >= cfg.burst + Trickle(cfg, t, now)
  }

  lemma TrickleFromNow(cfg: Config, now: real)
    ensures Trickle(cfg, now, now) == 0.0
  {
    assert now - now == 0.0;
  }

  lemma {:induction false} FullNow(cfg: Config, calls: seq<Call>, p: Peer, now: real)
    requires Level(cfg, Tracked(cfg, calls), p, now) >= cfg.burst
    ensures FullAt(cfg, calls, p, now, now)
  {
    TrickleFromNow(cfg, now);
  }

  /** The last call spends what it allows, and an eviction fills the bucket. */
  lemma {:induction false} CallKeepsFullAt(cfg: Config, calls: seq<Call>, p: Peer, t: real)
    requires ValidConfig(cfg) && calls != [] && ValidRun(cfg, calls)
    requires FullAt(cfg, calls[..|calls| - 1], p, Clock(calls), t)
    ensures FullAt(cfg, calls, p, Clock(calls), t) || FullAt(cfg, calls, p, Clock(calls), Clock(calls))
  {
    LastCall(cfg, calls, p);
    if calls[|calls| - 1].evicted == Some(p) && p != calls[|calls| - 1].peer { FullNow(cfg, calls, p, Clock(calls)); }
  }

  /** Time adds what trickles in, until the bucket is full again. */
  lemma {:induction false} TimeKeepsFullAt(cfg: Config, calls: seq<Call>, p: Peer, t: real, now: real)
    requires ValidConfig(cfg) && calls != [] && ValidRun(cfg, calls) && Clock(calls) <= now
    requires FullAt(cfg, calls, p, Clock(calls), t)
    ensures FullAt(cfg, calls, p, now, t) || FullAt(cfg, calls, p, now, now)
  {
    BothDrift(cfg, calls, p, now);
    var level := Level(cfg, Tracked(cfg, calls), p, Clock(calls));
    RefillTrickles(cfg, level, Clock(calls), now);
    if level + Trickle(cfg, Clock(calls), now) >= cfg.burst {
      FullNow(cfg, calls, p, now);
    } else {
      AllowedGrows(cfg, calls, p, t, Clock(calls), now);
      TrickleAdds(cfg, t, Clock(calls), now);
    }
  }

  lemma RefillTrickles(cfg: Config, level: real, from: real, to: real)
    ensures Refill(cfg, level, to - from) == Min(level + Trickle(cfg, from, to), cfg.burst)
  {
  }

  /** There always was such a time. */
  lemma {:induction false} WasFull(cfg: Config, calls: seq<Call>, p: Peer, now: real) returns (t: real)
    requires ValidConfig(cfg) && ValidRun(cfg, calls)
    requires calls != [] ==> Clock(calls) <= now
    ensures FullAt(cfg, calls, p, now, t)
  {
    if calls == [] {
      t := now;
      FullNow(cfg, calls, p, now);
    } else {
      t := WasFull(cfg, calls[..|calls| - 1], p, Clock(calls));
      CallKeepsFullAt(cfg, calls, p, t);
      if !FullAt(cfg, calls, p, Clock(calls), t) { t := Clock(calls); }
      TimeKeepsFullAt(cfg, calls, p, t, now);
      if !FullAt(cfg, calls, p, now, t) { t := now; }
    }
  }

  /** With the last call, the stretch from `t` to it would see more than a burst and what the rate adds. */
  ghost predicate UsedUp(cfg: Config, calls: seq<Call>, t: real)
    requires calls != []
  {
    var before, last := calls[..|calls| - 1], calls[|calls| - 1];
    t <= last.now
    && AllowedWithin(cfg, before, last.peer, t, last.now) as real + 1.0 > cfg.burst + Trickle(cfg, t, last.now)
  }

  lemma {:induction false} EmptyIsUsedUp(cfg: Config, calls: seq<Call>, t: real)
    requires calls != []
    requires FullAt(cfg, calls[..|calls| - 1], calls[|calls| - 1].peer, Clock(calls), t)
    requires Level(cfg, Tracked(cfg, calls[..|calls| - 1]), calls[|calls| - 1].peer, Clock(calls)) < 1.0
    ensures UsedUp(cfg, calls, t)
  {
  }

  /**
   A call is refused only where some stretch of time up to it is used up: whoever keeps within a
   burst and the rate is always allowed.
   */
  lemma {:induction false} RefusedIsUsedUp(cfg: Config, calls: seq<Call>)
    requires ValidConfig(cfg) && calls != [] && ValidRun(cfg, calls) && !Allows(cfg, calls)
    ensures exists t :: UsedUp(cfg, calls, t)
  {
    var front, last := calls[..|calls| - 1], calls[|calls| - 1];
    assert Level(cfg, Tracked(cfg, front), last.peer, last.now) < 1.0 by { LastCall(cfg, calls, last.peer); }
    var t := WasFull(cfg, front, last.peer, last.now);
    EmptyIsUsedUp(cfg, calls, t);
  }

  ghost predicate NeverEvicted(calls: seq<Call>, p: Peer) {
    forall i | 0 <= i < |calls| :: calls[i].evicted != Some(p)
  }

  lemma {:induction false} NoEvictions(calls: seq<Call>, p: Peer, t1: real, t2: real)
    requires NeverEvicted(calls, p)
    ensures EvictedWithin(calls, p, t1, t2) == 0
  {
    if calls != [] { NoEvictions(calls[..|calls| - 1], p, t1, t2); }
  }

  lemma {:induction false} AllowedIsWithin(cfg: Config, calls: seq<Call>, t: real)
    requires ValidConfig(cfg) && calls != [] && ValidRun(cfg, calls) && Allows(cfg, calls)
    requires NeverEvicted(calls[..|calls| - 1], calls[|calls| - 1].peer)
    ensures !UsedUp(cfg, calls, t)
  {
    var front, last := calls[..|calls| - 1], calls[|calls| - 1];
    if t <= last.now {
      assert Level(cfg, Tracked(cfg, front), last.peer, last.now) >= 1.0 by { LastCall(cfg, calls, last.peer); }
      NoEvictions(front, last.peer, t, last.now);
      SpentAndLeft(cfg, front, last.peer, t, last.now, last.now);
      OneBurst(cfg);
    }
  }

  lemma {:induction false} OneBurst(cfg: Config)
    ensures Bursts(cfg, 0) == cfg.burst
  {
  }

  /**
   For a peer that was never evicted this is the whole rule: a call is allowed if and only if, with
   it, no stretch of time up to it sees more than a burst and what the rate adds.
   */
  lemma {:induction false} AllowedExactly(cfg: Config, calls: seq<Call>)
    requires ValidConfig(cfg) && calls != [] && ValidRun(cfg, calls)
    requires NeverEvicted(calls[..|calls| - 1], calls[|calls| - 1].peer)
    ensures Allows(cfg, calls) <==> forall t :: !UsedUp(cfg, calls, t)
  {
    if Allows(cfg, calls) {
      forall t ensures !UsedUp(cfg, calls, t) { AllowedIsWithin(cfg, calls, t); }
    } else {
      RefusedIsUsedUp(cfg, calls);
    }
  }

  /** The entries whose owners have something to lose: they could spend less than a burst. */
  ghost function Short(cfg: Config, buckets: Buckets, now: real): set<Peer> {
    set p | p in buckets && Level(cfg, buckets, p, now) < cfg.burst
  }

  /** Somebody is evicted only if 4096 peers are short of a burst, and is one of them. */
  lemma EvictionIsForced(cfg: Config, buckets: Buckets, call: Call)
    requires Legal(cfg, buckets, call) && call.evicted.Some?
    ensures |Short(cfg, buckets, call.now)| >= 4096 && call.evicted.value in Short(cfg, buckets, call.now)
    ensures call.peer !in buckets
  {
    UnfilledIsShort(cfg, buckets, call.now);
  }

  lemma UnfilledIsShort(cfg: Config, buckets: Buckets, now: real)
    ensures Unfilled(cfg, buckets, now).Keys == Short(cfg, buckets, now)
    ensures |Unfilled(cfg, buckets, now)| == |Short(cfg, buckets, now)|
  {
    var kept := Unfilled(cfg, buckets, now);
    forall p | p in buckets ensures p in kept <==> p in Short(cfg, buckets, now) { LevelIsShort(cfg, buckets[p], now); }
    assert kept.Keys == Short(cfg, buckets, now);
    assert |kept.Keys| == |kept|;
  }

  lemma LevelIsShort(cfg: Config, b: Bucket, now: real)
    ensures b.tokens + Elapsed(now, b.last) * cfg.rate < cfg.burst <==> Refill(cfg, b.tokens, Elapsed(now, b.last)) < cfg.burst
  {
  }
}
