/**
 Draining two queues by turns (crates/lantern-core/src/node.rs:1314-1330). The history queue
 hands out its events in one order of its own; here it is that order. Nothing arrives during a poll.
 */
module Poll {
  /** The events one poll takes, the first from the history queue if it is its turn. */
  function Polled<E>(history: seq<E>, events: seq<E>, historyFirst: bool, max: nat): seq<E>
    decreases max
  {
    if max == 0 || (history == [] && events == []) then []
    else if history != [] && (historyFirst || events == []) then
      [history[0]] + Polled(history[1..], events, !historyFirst, max - 1)
    else [events[0]] + Polled(history, events[1..], !historyFirst, max - 1)
  }

  /** How many of them come from the history queue, given only how long the queues are. */
  function FromHistory(history: nat, events: nat, historyFirst: bool, max: nat): (n: nat)
    ensures n <= history && n <= max
    decreases max
  {
    if max == 0 || (history == 0 && events == 0) then 0
    else if history != 0 && (historyFirst || events == 0) then 1 + FromHistory(history - 1, events, !historyFirst, max - 1)
    else FromHistory(history, events - 1, !historyFirst, max - 1)
  }

  function FromEvents(history: nat, events: nat, historyFirst: bool, max: nat): (n: nat)
    ensures n <= events && n <= max
    decreases max
  {
    if max == 0 || (history == 0 && events == 0) then 0
    else if history != 0 && (historyFirst || events == 0) then FromEvents(history - 1, events, !historyFirst, max - 1)
    else 1 + FromEvents(history, events - 1, !historyFirst, max - 1)
  }

  class Queues<E> {
    var history: seq<E>
    var events: seq<E>
    var historyTurn: bool

    constructor (history: seq<E>, events: seq<E>)
      ensures this.history == history && this.events == events && !historyTurn
    {
      this.history, this.events, historyTurn := history, events, false;
    }

    method Poll(max: nat) returns (out: seq<E>)
      modifies this
      ensures out == Polled(old(history), old(events), old(historyTurn), max)
      ensures history == old(history)[FromHistory(|old(history)|, |old(events)|, old(historyTurn), max)..]
      ensures events == old(events)[FromEvents(|old(history)|, |old(events)|, old(historyTurn), max)..]
      ensures historyTurn == !old(historyTurn)
    {
      out := [];
      var historyFirst := historyTurn;
      historyTurn := !historyTurn;
      while |out| < max
        invariant historyTurn == !old(historyTurn)
        invariant Drained(history, events, historyFirst, max, out)
          == Drained(old(history), old(events), old(historyTurn), max, [])
      {
        if history == [] && events == [] { break; }
        if history != [] && (historyFirst || events == []) {
          out := out + [history[0]];
          history := history[1..];
        } else {
          out := out + [events[0]];
          events := events[1..];
        }
        historyFirst := !historyFirst;
      }
      DrainedIs(old(history), old(events), old(historyTurn), max);
    }
  }

  datatype Drain<E> = Drain(out: seq<E>, history: seq<E>, events: seq<E>)

  /** Where the loop ends from here. */
  function Drained<E>(history: seq<E>, events: seq<E>, historyFirst: bool, max: nat, out: seq<E>): Drain<E>
    decreases max - |out|
  {
    if |out| >= max || (history == [] && events == []) then Drain(out, history, events)
    else if history != [] && (historyFirst || events == []) then
      Drained(history[1..], events, !historyFirst, max, out + [history[0]])
    else Drained(history, events[1..], !historyFirst, max, out + [events[0]])
  }

  lemma {:induction false} DrainedOut<E>(history: seq<E>, events: seq<E>, historyFirst: bool, max: nat, out: seq<E>,
    left: nat)
    requires |out| + left == max
    ensures Drained(history, events, historyFirst, max, out).out == out + Polled(history, events, historyFirst, left)
    decreases left
  {
    if left == 0 || (history == [] && events == []) {
      assert out + [] == out;
    } else if history != [] && (historyFirst || events == []) {
      DrainedOut(history[1..], events, !historyFirst, max, out + [history[0]], left - 1);
      Regroup(out, history[0], Polled(history[1..], events, !historyFirst, left - 1));
    } else {
      DrainedOut(history, events[1..], !historyFirst, max, out + [events[0]], left - 1);
      Regroup(out, events[0], Polled(history, events[1..], !historyFirst, left - 1));
    }
  }

  lemma {:induction false} DrainedHistory<E>(history: seq<E>, events: seq<E>, historyFirst: bool, max: nat, out: seq<E>,
    left: nat)
    requires |out| + left == max
    ensures Drained(history, events, historyFirst, max, out).history ==
      history[FromHistory(|history|, |events|, historyFirst, left)..]
    decreases left
  {
    if left == 0 || (history == [] && events == []) {
    } else if history != [] && (historyFirst || events == []) {
      DrainedHistory(history[1..], events, !historyFirst, max, out + [history[0]], left - 1);
    } else {
      DrainedHistory(history, events[1..], !historyFirst, max, out + [events[0]], left - 1);
    }
  }

  lemma {:induction false} DrainedEvents<E>(history: seq<E>, events: seq<E>, historyFirst: bool, max: nat, out: seq<E>,
    left: nat)
    requires |out| + left == max
    ensures Drained(history, events, historyFirst, max, out).events ==
      events[FromEvents(|history|, |events|, historyFirst, left)..]
    decreases left
  {
    if left == 0 || (history == [] && events == []) {
    } else if history != [] && (historyFirst || events == []) {
      DrainedEvents(history[1..], events, !historyFirst, max, out + [history[0]], left - 1);
    } else {
      DrainedEvents(history, events[1..], !historyFirst, max, out + [events[0]], left - 1);
    }
  }

  lemma Regroup<E>(out: seq<E>, next: E, rest: seq<E>)
    ensures (out + [next]) + rest == out + ([next] + rest)
  {
  }

  lemma {:induction false} DrainedIs<E>(history: seq<E>, events: seq<E>, historyFirst: bool, max: nat)
    ensures var d := Drained(history, events, historyFirst, max, []);
      && d.out == Polled(history, events, historyFirst, max)
      && d.history == history[FromHistory(|history|, |events|, historyFirst, max)..]
      && d.events == events[FromEvents(|history|, |events|, historyFirst, max)..]
  {
    DrainedOut(history, events, historyFirst, max, [], max);
    DrainedHistory(history, events, historyFirst, max, [], max);
    DrainedEvents(history, events, historyFirst, max, [], max);
  }

  // ------------------------------------------------------------ exact, merged, fair

  lemma {:induction false} PollTakesExactly<E>(history: seq<E>, events: seq<E>, historyFirst: bool, max: nat)
    ensures |Polled(history, events, historyFirst, max)| ==
      if max <= |history| + |events| then max else |history| + |events|
    ensures FromHistory(|history|, |events|, historyFirst, max) + FromEvents(|history|, |events|, historyFirst, max)
      == |Polled(history, events, historyFirst, max)|
    decreases max
  {
    if max > 0 && !(history == [] && events == []) {
      if history != [] && (historyFirst || events == []) {
        PollTakesExactly(history[1..], events, !historyFirst, max - 1);
      } else {
        PollTakesExactly(history, events[1..], !historyFirst, max - 1);
      }
    }
  }

  /** `out` interleaves `a` and `b`, each in its own order. */
  ghost predicate Merges<E>(out: seq<E>, a: seq<E>, b: seq<E>)
    decreases |out|
  {
    if out == [] then a == [] && b == []
    else
      || (a != [] && a[0] == out[0] && Merges(out[1..], a[1..], b))
      || (b != [] && b[0] == out[0] && Merges(out[1..], a, b[1..]))
  }

  lemma {:induction false} MergeLeft<E>(x: E, out: seq<E>, a: seq<E>, b: seq<E>)
    requires Merges(out, a, b)
    ensures Merges([x] + out, [x] + a, b)
  {
    assert ([x] + out)[1..] == out && ([x] + a)[1..] == a;
  }

  lemma {:induction false} MergeRight<E>(x: E, out: seq<E>, a: seq<E>, b: seq<E>)
    requires Merges(out, a, b)
    ensures Merges([x] + out, a, [x] + b)
  {
    assert ([x] + out)[1..] == out && ([x] + b)[1..] == b;
  }

  /** What a poll returns is an order-preserving merge of what it takes off the front of each queue. */
  lemma {:induction false} PollMerges<E>(history: seq<E>, events: seq<E>, historyFirst: bool, max: nat)
    ensures Merges(Polled(history, events, historyFirst, max),
      history[..FromHistory(|history|, |events|, historyFirst, max)],
      events[..FromEvents(|history|, |events|, historyFirst, max)])
    decreases max
  {
    if max > 0 && !(history == [] && events == []) {
      var h, e := FromHistory(|history|, |events|, historyFirst, max), FromEvents(|history|, |events|, historyFirst, max);
      if history != [] && (historyFirst || events == []) {
        PollMerges(history[1..], events, !historyFirst, max - 1);
        MergeLeft(history[0], Polled(history[1..], events, !historyFirst, max - 1), history[1..][..h - 1], events[..e]);
        assert [history[0]] + history[1..][..h - 1] == history[..h];
      } else {
        PollMerges(history, events[1..], !historyFirst, max - 1);
        MergeRight(events[0], Polled(history, events[1..], !historyFirst, max - 1), history[..h], events[1..][..e - 1]);
        assert [events[0]] + events[1..][..e - 1] == events[..e];
      }
    }
  }

  /** While neither queue has run dry, the counts taken differ by at most one, in favour of the side that went first. */
  lemma {:induction false} PollIsFair(history: nat, events: nat, historyFirst: bool, max: nat)
    ensures var h, e := FromHistory(history, events, historyFirst, max), FromEvents(history, events, historyFirst, max);
      h < history && e < events ==> if historyFirst then e <= h <= e + 1 else h <= e <= h + 1
    decreases max
  {
    if max > 0 && !(history == 0 && events == 0) {
      if history != 0 && (historyFirst || events == 0) {
        PollIsFair(history - 1, events, !historyFirst, max - 1);
      } else {
        PollIsFair(history, events - 1, !historyFirst, max - 1);
      }
    }
  }

  /** A smaller poll takes the first events of a larger one, so the above holds at every point of it. */
  lemma {:induction false} PollIsPrefix<E>(history: seq<E>, events: seq<E>, historyFirst: bool, max: nat, less: nat)
    requires less <= max
    ensures Polled(history, events, historyFirst, less) <= Polled(history, events, historyFirst, max)
    decreases max
  {
    if less > 0 && !(history == [] && events == []) {
      if history != [] && (historyFirst || events == []) {
        PollIsPrefix(history[1..], events, !historyFirst, max - 1, less - 1);
      } else {
        PollIsPrefix(history, events[1..], !historyFirst, max - 1, less - 1);
      }
    }
  }

  /** Whose turn a poll of a single event serves. */
  predicate ServesHistory<E>(history: seq<E>, events: seq<E>, historyTurn: bool) {
    history != [] && (historyTurn || events == [])
  }

  /** A poll of one event: what it returns and what it leaves. */
  lemma {:induction false} SinglePoll<E>(history: seq<E>, events: seq<E>, historyTurn: bool)
    ensures Polled(history, events, historyTurn, 1) ==
      if history == [] && events == [] then []
      else if ServesHistory(history, events, historyTurn) then [history[0]] else [events[0]]
    ensures FromHistory(|history|, |events|, historyTurn, 1) == if ServesHistory(history, events, historyTurn) then 1 else 0
    ensures FromEvents(|history|, |events|, historyTurn, 1) ==
      if events != [] && !ServesHistory(history, events, historyTurn) then 1 else 0
  {
  }

  /** What `n` polls of one event each return. */
  function Ones<E>(history: seq<E>, events: seq<E>, historyTurn: bool, n: nat): seq<E>
    decreases n
  {
    if n == 0 then []
    else
      Polled(history, events, historyTurn, 1)
      + Ones(history[FromHistory(|history|, |events|, historyTurn, 1)..],
             events[FromEvents(|history|, |events|, historyTurn, 1)..], !historyTurn, n - 1)
  }

  /** The turn carries over: polling one at a time alternates just as one large poll does. */
  lemma {:induction false} OnesAlternate<E>(history: seq<E>, events: seq<E>, historyTurn: bool, n: nat)
    ensures Ones(history, events, historyTurn, n) == Polled(history, events, historyTurn, n)
    decreases n
  {
    if n > 0 {
      SinglePoll(history, events, historyTurn);
      if history == [] && events == [] {
        OnesAlternate(history[0..], events[0..], !historyTurn, n - 1);
      } else if ServesHistory(history, events, historyTurn) {
        OnesAlternate(history[1..], events[0..], !historyTurn, n - 1);
        assert events[0..] == events;
      } else {
        OnesAlternate(history[0..], events[1..], !historyTurn, n - 1);
        assert history[0..] == history;
      }
    }
  }
}
