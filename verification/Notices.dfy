/** The "you are being rate limited" throttle (crates/lantern-core/src/ratelimit.rs:83-125). */
module Notices {
  import opened RateLimit
  import opened Results

  const NOTICE_EVERY: real := 30.0

  type Warned = map<Peer, real>

  function Recent(warned: Warned, now: real): Warned {
    map p | p in warned && Elapsed(now, warned[p]) < NOTICE_EVERY :: warned[p]
  }

  function Tidied(warned: Warned, now: real): Warned {
    if |warned| >= MAX_TRACKED then Recent(warned, now) else warned
  }

  predicate Quiet(warned: Warned, peer: Peer, now: real) {
    peer in Tidied(warned, now) && Elapsed(now, Tidied(warned, now)[peer]) < NOTICE_EVERY
  }

  function Noted(warned: Warned, peer: Peer, now: real): Warned {
    if Quiet(warned, peer, now) then Tidied(warned, now) else Tidied(warned, now)[peer := now]
  }

  class Throttle {
    var warned: Warned

    constructor ()
      ensures warned == map[]
    {
      warned := map[];
    }

    method ShouldWarn(peer: Peer, now: real) returns (warn: bool)
      modifies this
      ensures warn == !Quiet(old(warned), peer, now)
      ensures warned == Noted(old(warned), peer, now)
    {
      if |warned| >= MAX_TRACKED { warned := Recent(warned, now); }
      if peer in warned && Elapsed(now, warned[peer]) < NOTICE_EVERY { return false; }
      warned := warned[peer := now];
      warn := true;
    }
  }

  datatype Ask = Ask(peer: Peer, now: real)

  function WarnedAfter(asks: seq<Ask>): Warned {
    if asks == [] then map[]
    else Noted(WarnedAfter(asks[..|asks| - 1]), asks[|asks| - 1].peer, asks[|asks| - 1].now)
  }

  /** When p was last given a notice. */
  function LastNotice(asks: seq<Ask>, p: Peer): Option<real> {
    if asks == [] then None
    else
      var front, last := asks[..|asks| - 1], asks[|asks| - 1];
      if last.peer == p && !Quiet(WarnedAfter(front), p, last.now) then Some(last.now) else LastNotice(front, p)
  }

  ghost predicate InOrder(asks: seq<Ask>) {
    asks == [] ||
      (InOrder(asks[..|asks| - 1]) && (|asks| > 1 ==> asks[|asks| - 2].now <= asks[|asks| - 1].now))
  }

  /** The table may forget a notice, but only one that no longer silences anything. */
  lemma {:induction false} TableRemembers(asks: seq<Ask>, p: Peer, now: real)
    requires InOrder(asks) && (asks != [] ==> asks[|asks| - 1].now <= now)
    ensures LastNotice(asks, p).Some? ==> LastNotice(asks, p).value <= now
    ensures p in WarnedAfter(asks) ==> LastNotice(asks, p) == Some(WarnedAfter(asks)[p])
    ensures p !in WarnedAfter(asks) && LastNotice(asks, p).Some? ==> now - LastNotice(asks, p).value >= NOTICE_EVERY
  {
    if asks != [] {
      TableRemembers(asks[..|asks| - 1], p, asks[|asks| - 1].now);
    }
  }

  /** A peer gets a notice exactly when its last one is at least thirty seconds old, however full the table. */
  lemma {:induction false} NoticesAreSpaced(asks: seq<Ask>, p: Peer, now: real)
    requires InOrder(asks) && (asks != [] ==> asks[|asks| - 1].now <= now)
    ensures !Quiet(WarnedAfter(asks), p, now) <==>
      LastNotice(asks, p).None? || now - LastNotice(asks, p).value >= 30.0
  {
    TableRemembers(asks, p, now);
  }
}
