/**
 The bounded table of channel history (crates/lantern-core/src/store.rs:272-337).

 A table is the set of its rows; the primary key makes (room, signature) unique. Every SQL
 statement is one function below. The main result: pruning after every insert leaves exactly what
 one pruning of the whole insertion log would leave.
 */
module HistoryStore {
  import opened ByteStrings
  import opened Results
  import opened Ranking
  import opened ChannelHistory

  const RETENTION_MS := 24 * 60 * 60 * 1000
  const MAX_STORED := 8192

  datatype Row = Row(room: Bytes, signature: Bytes, encoded: Bytes, receivedAt: int)

  /** ORDER BY received_at DESC, signature DESC */
  predicate Newer(a: Row, b: Row) {
    a.receivedAt > b.receivedAt || (a.receivedAt == b.receivedAt && LexLess(b.signature, a.signature))
  }

  lemma NewerIsStrict()
    ensures StrictOrder(Newer)
  {
    LexOrder();
  }

  /** No signature occurs twice; then (received_at, signature) leaves no ties. */
  ghost predicate Identified(rows: set<Row>) {
    forall x, y | x in rows && y in rows :: x.signature == y.signature ==> x == y
  }

  lemma IdentifiedIsTotal(rows: set<Row>)
    requires Identified(rows)
    ensures TotalOn(Newer, rows)
  {
    forall x, y | x in rows && y in rows && x != y
      ensures Newer(x, y) || Newer(y, x)
    {
      LexTotal(x.signature, y.signature);
    }
  }

  // ------------------------------------------------------------ statements

  predicate HasKey(rows: set<Row>, room: Bytes, signature: Bytes) {
    exists r | r in rows :: r.room == room && r.signature == signature
  }

  /** INSERT OR IGNORE */
  function InsertOrIgnore(rows: set<Row>, row: Row): set<Row> {
    if HasKey(rows, row.room, row.signature) then rows else rows + {row}
  }

  /** DELETE ... WHERE received_at < cutoff */
  function Expire(rows: set<Row>, cutoff: int): set<Row> {
    set r | r in rows && r.receivedAt >= cutoff
  }

  function InRoom(rows: set<Row>, room: Bytes): set<Row> {
    set r | r in rows && r.room == room
  }

  /** DELETE ... WHERE room = ? AND rowid NOT IN (the newest 256 of the room) */
  function CapRoom(rows: set<Row>, room: Bytes): set<Row> {
    set r | r in rows && (r.room != room || r in Top(InRoom(rows, room), Newer, MAX_RECORDS))
  }

  /** DELETE ... WHERE rowid IN (all but the newest 8192) */
  function CapAll(rows: set<Row>): set<Row> {
    Top(rows, Newer, MAX_STORED)
  }

  // ------------------------------------------------------------ the one-shot cut

  /** The newest 256 of each room. */
  function RoomTops(rows: set<Row>): set<Row> {
    set r | r in rows && r in Top(InRoom(rows, r.room), Newer, MAX_RECORDS)
  }

  function Cut(rows: set<Row>): set<Row> {
    Top(RoomTops(rows), Newer, MAX_STORED)
  }

  /** What a log of insertions leaves at a given time when it is pruned just once. */
  function OneShot(log: set<Row>, now: int): set<Row> {
    Cut(Expire(log, now - RETENTION_MS))
  }

  lemma SubsetIsIdentified(s: set<Row>, t: set<Row>)
    requires Identified(s) && t <= s
    ensures Identified(t) && TotalOn(Newer, t)
  {
    IdentifiedIsTotal(t);
  }

  /** A row outside its room's newest 256 has 256 newer ones of its room among the kept. */
  lemma CrowdedOut(s: set<Row>, y: Row) returns (full: set<Row>)
    requires Identified(s) && y in s && y !in RoomTops(s)
    ensures full == Top(InRoom(s, y.room), Newer, MAX_RECORDS) && full <= RoomTops(s)
    ensures |full| == MAX_RECORDS && forall f | f in full :: f.room == y.room && Newer(f, y)
  {
    var peers := InRoom(s, y.room);
    full := Top(peers, Newer, MAX_RECORDS);
    SubsetIsIdentified(s, peers);
    NewerIsStrict();
    TopSize(peers, Newer, MAX_RECORDS);
    assert y in peers - full;
    SubsetSize(Better(peers, Newer, y), peers);
    assert |peers| >= MAX_RECORDS;
  }

  /** A kept row outside the newest 8192 has exactly the whole cut ahead of it. */
  lemma PushedOut(s: set<Row>, y: Row)
    requires Identified(s) && y in RoomTops(s) && y !in Cut(s)
    ensures |Cut(s)| == MAX_STORED && forall f | f in Cut(s) :: Newer(f, y)
  {
    SubsetIsIdentified(s, RoomTops(s));
    NewerIsStrict();
    TopSize(RoomTops(s), Newer, MAX_STORED);
    SubsetSize(Better(RoomTops(s), Newer, y), RoomTops(s));
  }

  lemma RoomTopsGrow(s: set<Row>, t: set<Row>, x: Row)
    requires t <= s && x in t && x in RoomTops(s)
    ensures x in RoomTops(t)
  {
    BetterGrows(InRoom(t, x.room), InRoom(s, x.room), Newer, x);
  }

  /** More than n rows ahead of y in s keep it out of the best n. */
  lemma OutOfTop(s: set<Row>, ahead: set<Row>, y: Row, n: nat)
    requires ahead <= s && |ahead| >= n && forall f | f in ahead :: Newer(f, y)
    ensures y !in Top(s, Newer, n)
  {
    SubsetSize(ahead, Better(s, Newer, y));
  }

  /** Every row the cut keeps stays kept when only rows it does not keep are forgotten. */
  lemma CutSurvives(s: set<Row>, t: set<Row>, x: Row)
    requires Identified(s) && Cut(s) <= t <= s && x in Cut(s)
    ensures x in Cut(t)
  {
    NewerIsStrict();
    RoomTopsGrow(s, t, x);
    forall z | z in Better(RoomTops(t), Newer, x)
      ensures z in Better(RoomTops(s), Newer, x)
    {
      if z !in RoomTops(s) {
        var full := CrowdedOut(s, z);
        forall f | f in full ensures f in InRoom(t, z.room) {
          TopIsUpward(RoomTops(s), Newer, MAX_STORED, x, f);
        }
        OutOfTop(InRoom(t, z.room), full, z, MAX_RECORDS);
        assert false;
      }
    }
    SubsetSize(Better(RoomTops(t), Newer, x), Better(RoomTops(s), Newer, x));
  }

  lemma CutStable(s: set<Row>, t: set<Row>)
    requires Identified(s) && Cut(s) <= t <= s
    ensures Cut(t) == Cut(s)
  {
    NewerIsStrict();
    forall x | x in Cut(s) ensures x in Cut(t) && x in RoomTops(t) {
      CutSurvives(s, t, x);
    }
    forall x | x in t && x !in Cut(s)
      ensures x !in Cut(t)
    {
      if x in RoomTops(s) {
        PushedOut(s, x);
        OutOfTop(RoomTops(t), Cut(s), x, MAX_STORED);
      } else {
        var full := CrowdedOut(s, x);
        if full <= t {
          OutOfTop(InRoom(t, x.room), full, x, MAX_RECORDS);
        } else {
          var w :| w in full && w !in t;
          PushedOut(s, w);
          OutOfTop(RoomTops(t), Cut(s), x, MAX_STORED);
        }
      }
    }
  }

  lemma RanksDiffer(rows: set<Row>, z1: Row, z2: Row)
    requires z1 in rows && z2 in rows && Newer(z1, z2)
    ensures |Better(rows, Newer, z1)| < |Better(rows, Newer, z2)|
  {
    NewerIsStrict();
    var ahead := Better(rows, Newer, z1) + {z1};
    assert ahead <= Better(rows, Newer, z2);
    SubsetSize(ahead, Better(rows, Newer, z2));
  }

  /** A newcomer of a room ranks no lower than the row it passes. */
  lemma NewcomerIsIn(s: set<Row>, x: Row, z: Row)
    requires Newer(x, z) && z.room == x.room && |Better(InRoom(s, x.room), Newer, z)| < MAX_RECORDS
    ensures x in RoomTops(s + {x})
  {
    NewerIsStrict();
    var before := Better(InRoom(s + {x}, x.room), Newer, x);
    assert before <= Better(InRoom(s, x.room), Newer, z);
    SubsetSize(before, Better(InRoom(s, x.room), Newer, z));
  }

  /** At most one kept row of a room can be crowded out by one newcomer: the last of a full 256. */
  lemma AtMostOneDisplaced(s: set<Row>, x: Row, z1: Row, z2: Row)
    requires Identified(s + {x}) && x !in s
    requires z1 in RoomTops(s) - RoomTops(s + {x}) && z2 in RoomTops(s) - RoomTops(s + {x})
    ensures z1 == z2 && z1.room == x.room && Newer(x, z1) && x in RoomTops(s + {x})
  {
    IdentifiedIsTotal(s + {x});
    Displaced(s, x, z1);
    Displaced(s, x, z2);
    var peers := InRoom(s, x.room);
    if Newer(z1, z2) { RanksDiffer(peers, z1, z2); }
    if Newer(z2, z1) { RanksDiffer(peers, z2, z1); }
    NewcomerIsIn(s, x, z1);
  }

  lemma Displaced(s: set<Row>, x: Row, z: Row)
    requires x !in s && z in RoomTops(s) - RoomTops(s + {x})
    ensures z.room == x.room && Newer(x, z) && |Better(InRoom(s, x.room), Newer, z)| == MAX_RECORDS - 1
  {
    var before, after := Better(InRoom(s, z.room), Newer, z), Better(InRoom(s + {x}, z.room), Newer, z);
    assert after == if z.room == x.room && Newer(x, z) then before + {x} else before;
  }

  /** Pruning before an insertion changes nothing that pruning after it would keep. */
  lemma CutStreams(s: set<Row>, x: Row)
    requires Identified(s + {x})
    ensures Cut(Cut(s) + {x}) == Cut(s + {x})
  {
    if x in s {
      assert s + {x} == s;
      CutStable(s, Cut(s) + {x});
    } else {
      forall y | y in Cut(s + {x}) && y != x
        ensures y in Cut(s)
      {
        if y !in Cut(s) { StaysOut(s, x, y); }
      }
      CutStable(s + {x}, Cut(s) + {x});
    }
  }

  lemma StaysOut(s: set<Row>, x: Row, y: Row)
    requires Identified(s + {x}) && x !in s && y in s && y !in Cut(s)
    ensures y !in Cut(s + {x})
  {
    NewerIsStrict();
    var t := s + {x};
    SubsetIsIdentified(t, s);
    if y !in RoomTops(s) {
      BetterGrows(InRoom(s, y.room), InRoom(t, y.room), Newer, y);
    } else {
      PushedOut(s, y);
      if Cut(s) <= RoomTops(t) {
        OutOfTop(RoomTops(t), Cut(s), y, MAX_STORED);
      } else {
        var z :| z in Cut(s) && z !in RoomTops(t);
        StillFull(s, x, y, z);
      }
    }
  }

  /** With `z` displaced by the newcomer, as many as before are ahead of `y`. */
  lemma StillFull(s: set<Row>, x: Row, y: Row, z: Row)
    requires Identified(s + {x}) && x !in s && z in Cut(s) && z !in RoomTops(s + {x})
    requires |Cut(s)| == MAX_STORED && forall f | f in Cut(s) :: Newer(f, y)
    ensures y !in Cut(s + {x})
  {
    NewerIsStrict();
    OneSteppedAside(s, x, z);
    var ahead := Cut(s) - {z} + {x};
    assert |ahead| == MAX_STORED;
    OutOfTop(RoomTops(s + {x}), ahead, y, MAX_STORED);
  }

  /** If the newcomer displaces `z`, everything else stays and the newcomer is in. */
  lemma OneSteppedAside(s: set<Row>, x: Row, z: Row)
    requires Identified(s + {x}) && x !in s && z in Cut(s) && z !in RoomTops(s + {x})
    ensures Newer(x, z) && x in RoomTops(s + {x}) && Cut(s) - {z} <= RoomTops(s + {x})
  {
    AtMostOneDisplaced(s, x, z, z);
    forall w | w in Cut(s) && w != z ensures w in RoomTops(s + {x}) {
      if w !in RoomTops(s + {x}) { AtMostOneDisplaced(s, x, z, w); }
    }
  }

  /** Expiry removes the oldest, so it commutes with keeping the newest. */
  lemma CutExpires(s: set<Row>, cutoff: int)
    ensures Cut(Expire(s, cutoff)) == Expire(Cut(s), cutoff)
  {
    var e := Expire(s, cutoff);
    forall x | x in e
      ensures x in RoomTops(e) <==> x in RoomTops(s)
    {
      assert Better(InRoom(e, x.room), Newer, x) == Better(InRoom(s, x.room), Newer, x);
    }
    forall x | x in RoomTops(e)
      ensures x in Cut(e) <==> x in Cut(s)
    {
      assert Better(RoomTops(e), Newer, x) == Better(RoomTops(s), Newer, x);
    }
  }

  // ------------------------------------------------------------ operations and runs

  /** Which room and bytes are a verified record, and with which signature. */
  type Check = (Bytes, Bytes) -> Option<Bytes>

  function Checked(c: Crypto): Check {
    (room, encoded) => match Verify(c, room, encoded) case None => None case Some(r) => Some(r.signature)
  }

  datatype Event = Put(room: Bytes, encoded: Bytes, at: int) | Prune(at: int) | Clear(room: Bytes)

  predicate Accepted(check: Check, e: Event) {
    match e
    case Put(room, encoded, at) => at >= 0 && check(room, encoded).Some?
    case Prune(at) => at >= 0
    case Clear(_) => true
  }

  function RowOf(check: Check, e: Event): Row
    requires e.Put? && Accepted(check, e)
  {
    Row(e.room, check(e.room, e.encoded).value, e.encoded, e.at)
  }

  /** The four statements of one insertion, in one transaction. */
  function PutRow(rows: set<Row>, row: Row): set<Row> {
    CapAll(CapRoom(Expire(InsertOrIgnore(rows, row), row.receivedAt - RETENTION_MS), row.room))
  }

  /** channel_history_insert, channel_history_prune and channel_history_clear on the table. */
  function Apply(check: Check, rows: set<Row>, e: Event): set<Row> {
    if !Accepted(check, e) then rows
    else
      match e
      case Put(_, _, _) => PutRow(rows, RowOf(check, e))
      case Prune(at) => Expire(rows, at - RETENTION_MS)
      case Clear(room) => rows - InRoom(rows, room)
  }

  predicate Inserts(check: Check, rows: set<Row>, e: Event) {
    e.Put? && Accepted(check, e) && !HasKey(rows, e.room, check(e.room, e.encoded).value)
  }

  /**
   What has been inserted so far: the latest insertion of each record. Clearing a room also
   gives up what other rooms lost to the caps, so the log restarts at the rows that are left.
   */
  datatype State = State(rows: set<Row>, log: set<Row>, clock: int)

  function Logged(log: set<Row>, row: Row): set<Row> {
    (set r | r in log && r.signature != row.signature) + {row}
  }

  function Step(check: Check, s: State, e: Event): State {
    var rows := Apply(check, s.rows, e);
    var log :=
      if Inserts(check, s.rows, e) then Logged(s.log, RowOf(check, e))
      else if e.Clear? then rows
      else s.log;
    State(rows, log, if Accepted(check, e) && !e.Clear? then e.at else s.clock)
  }

  function Run(check: Check, events: seq<Event>): State {
    if events == [] then State({}, {}, 0)
    else Step(check, Run(check, events[..|events| - 1]), events[|events| - 1])
  }

  /** Receipt times do not run backwards. */
  ghost predicate Timely(check: Check, events: seq<Event>) {
    forall i | 0 <= i < |events| && Accepted(check, events[i]) && !events[i].Clear? ::
      Run(check, events[..i]).clock <= events[i].at
  }

  /** A signature stands for one room and one byte string. */
  ghost predicate Identifying(check: Check, events: seq<Event>) {
    forall i, j | 0 <= i < |events| && 0 <= j < |events| ::
      && events[i].Put? && Accepted(check, events[i]) && events[j].Put? && Accepted(check, events[j])
      && RowOf(check, events[i]).signature == RowOf(check, events[j]).signature ==>
        events[i].room == events[j].room && events[i].encoded == events[j].encoded
  }

  ghost predicate Inv(s: State) {
    && s.rows == OneShot(s.log, s.clock) && Identified(s.log)
    && forall r | r in s.log :: r.receivedAt <= s.clock
  }

  /** Within the caps, nothing less is pruned. */
  lemma CappedSubset(rows: set<Row>, t: set<Row>)
    requires rows == Cut(rows) && t <= rows
    ensures RoomTops(t) == t && Cut(t) == t
  {
    assert RoomTops(rows) == rows;
    assert RoomTops(t) == t by {
      forall x | x in t ensures x in RoomTops(t) { RoomTopsGrow(rows, t, x); }
    }
    assert Top(rows, Newer, MAX_STORED) == rows;
    forall x | x in t ensures x in Top(t, Newer, MAX_STORED) { BetterGrows(t, rows, Newer, x); }
  }

  lemma CappedIsKept(rows: set<Row>, room: Bytes)
    requires rows == Cut(rows)
    ensures CapAll(CapRoom(rows, room)) == rows
  {
    CappedSubset(rows, rows);
    forall x | x in rows && x.room == room
      ensures x in Top(InRoom(rows, room), Newer, MAX_RECORDS)
    {
      assert x in RoomTops(rows);
    }
    assert CapRoom(rows, room) == rows;
  }

  lemma CutIsCapped(s: set<Row>)
    requires Identified(s)
    ensures Cut(Cut(s)) == Cut(s)
  {
    CutStable(s, Cut(s));
  }

  /** The statements prune one room and then everything; the other rooms are within their caps already. */
  lemma StatementsCut(rows: set<Row>, row: Row)
    requires Cut(rows) == rows
    ensures CapAll(CapRoom(rows + {row}, row.room)) == Cut(rows + {row})
  {
    var t := rows + {row};
    CappedSubset(rows, rows);
    forall x | x in t
      ensures x in CapRoom(t, row.room) <==> x in RoomTops(t)
    {
      if x.room != row.room {
        assert InRoom(t, x.room) == InRoom(rows, x.room);
        assert x in RoomTops(rows);
      }
    }
    assert CapRoom(t, row.room) == RoomTops(t);
  }

  lemma ExpireAgain(log: set<Row>, clock: int, at: int)
    requires clock <= at
    ensures Expire(OneShot(log, clock), at - RETENTION_MS) == OneShot(log, at)
  {
    var s := Expire(log, clock - RETENTION_MS);
    assert Expire(s, at - RETENTION_MS) == Expire(log, at - RETENTION_MS);
    CutExpires(s, at - RETENTION_MS);
  }

  /** The statements one after another. */
  lemma PutInTurn(rows: set<Row>, row: Row, inserted: set<Row>, live: set<Row>, kept: set<Row>)
    requires inserted == InsertOrIgnore(rows, row) && live == Expire(inserted, row.receivedAt - RETENTION_MS)
    requires kept == CapAll(CapRoom(live, row.room))
    ensures PutRow(rows, row) == kept
  {
  }

  lemma InsertIsOneShot(rows: set<Row>, log: set<Row>, clock: int, row: Row)
    requires rows == OneShot(log, clock) && Identified(log) && clock <= row.receivedAt
    requires !HasKey(rows, row.room, row.signature)
    requires forall r | r in log && r.signature == row.signature :: r.room == row.room
    ensures PutRow(rows, row) == OneShot(Logged(log, row), row.receivedAt)
    ensures Identified(Logged(log, row))
  {
    var cutoff := row.receivedAt - RETENTION_MS;
    var live := Expire(log, cutoff);
    var others := set r | r in live && r.signature != row.signature;
    ExpireAgain(log, clock, row.receivedAt);
    SubsetIsIdentified(log, live);
    assert Cut(live) == Expire(rows, cutoff);
    forall r | r in Cut(live) ensures r in others {
      assert r in rows && r in log;
    }
    CutStable(live, others);
    CutStreams(others, row);
    CutIsCapped(live);
    StatementsCut(Cut(live), row);
    assert Expire(rows + {row}, cutoff) == Cut(live) + {row};
    assert Expire(Logged(log, row), cutoff) == others + {row};
    PutInTurn(rows, row, rows + {row}, Cut(live) + {row}, Cut(Cut(live) + {row}));
  }

  lemma OneShotIsCapped(log: set<Row>, now: int)
    requires Identified(log)
    ensures Cut(OneShot(log, now)) == OneShot(log, now)
    ensures forall r | r in OneShot(log, now) :: r in log && r.receivedAt >= now - RETENTION_MS
  {
    SubsetIsIdentified(log, Expire(log, now - RETENTION_MS));
    CutIsCapped(Expire(log, now - RETENTION_MS));
  }

  lemma ClearIsOneShot(rows: set<Row>, room: Bytes, clock: int)
    requires rows == Cut(rows) && forall r | r in rows :: r.receivedAt >= clock - RETENTION_MS
    ensures var left := rows - InRoom(rows, room); left == OneShot(left, clock)
  {
    var left := rows - InRoom(rows, room);
    assert Expire(left, clock - RETENTION_MS) == left;
    CappedSubset(rows, left);
  }

  lemma RepeatIsIgnored(rows: set<Row>, row: Row)
    requires HasKey(rows, row.room, row.signature)
    ensures InsertOrIgnore(rows, row) == rows
  {
  }

  lemma DuplicateIsOneShot(rows: set<Row>, log: set<Row>, clock: int, row: Row)
    requires rows == OneShot(log, clock) && Identified(log) && clock <= row.receivedAt
    requires HasKey(rows, row.room, row.signature)
    ensures PutRow(rows, row) == OneShot(log, row.receivedAt)
  {
    ExpireAgain(log, clock, row.receivedAt);
    OneShotIsCapped(log, row.receivedAt);
    RepeatIsIgnored(rows, row);
    var kept := OneShot(log, row.receivedAt);
    CappedIsKept(kept, row.room);
    PutInTurn(rows, row, rows, kept, kept);
  }

  lemma StepKeepsInv(check: Check, s: State, e: Event)
    requires Inv(s)
    requires Accepted(check, e) && !e.Clear? ==> s.clock <= e.at
    requires e.Put? && Accepted(check, e) ==>
      forall r | r in s.log && r.signature == RowOf(check, e).signature :: r.room == e.room
    ensures Inv(Step(check, s, e))
  {
    if Accepted(check, e) {
      match e
      case Clear(room) =>
        OneShotIsCapped(s.log, s.clock);
        ClearIsOneShot(s.rows, room, s.clock);
      case Prune(at) =>
        ExpireAgain(s.log, s.clock, at);
      case Put(room, encoded, at) =>
        var row := RowOf(check, e);
        if HasKey(s.rows, row.room, row.signature) {
          DuplicateIsOneShot(s.rows, s.log, s.clock, row);
        } else {
          InsertIsOneShot(s.rows, s.log, s.clock, row);
        }
    }
  }

  /** Every logged row was put, with its own signature. */
  ghost predicate FromEvents(check: Check, log: set<Row>, events: seq<Event>) {
    forall r | r in log ::
      exists i | 0 <= i < |events| :: events[i].Put? && Accepted(check, events[i]) && r == RowOf(check, events[i])
  }

  /**
   Incremental pruning equals one-shot pruning: after any timely run of inserts, prunings and
   clears, the table is the newest 256 per room and then the newest 8192 overall of the unexpired
   log. A record that returns after having been pruned counts from its return.
   */
  lemma {:induction false} RunIsOneShot(check: Check, events: seq<Event>)
    requires Timely(check, events) && Identifying(check, events)
    ensures Inv(Run(check, events))
    ensures FromEvents(check, Run(check, events).log, events)
  {
    if events != [] {
      var before, e := events[..|events| - 1], events[|events| - 1];
      assert forall i | 0 <= i < |before| :: before[i] == events[i] && before[..i] == events[..i];
      RunIsOneShot(check, before);
      var s := Run(check, before);
      StepKeepsInv(check, s, e);
      forall r | r in Run(check, events).log
        ensures exists i | 0 <= i < |events| ::
          events[i].Put? && Accepted(check, events[i]) && r == RowOf(check, events[i])
      {
        if r in s.log {
          var i :| 0 <= i < |before| && before[i].Put? && Accepted(check, before[i]) && r == RowOf(check, before[i]);
          assert events[i] == before[i];
        } else {
          assert events[|events| - 1] == e;
        }
      }
    }
  }

  // ------------------------------------------------------------ first insertions

  /** The first accepted insertion of each record, a function of the events alone. */
  function FirstRows(check: Check, events: seq<Event>): set<Row> {
    if events == [] then {}
    else
      var before, e := FirstRows(check, events[..|events| - 1]), events[|events| - 1];
      if e.Put? && Accepted(check, e) && !HasKey(before, e.room, RowOf(check, e).signature)
      then before + {RowOf(check, e)} else before
  }

  /** Nothing is cleared, and no record is inserted again after it was pruned. */
  ghost predicate NothingReturns(check: Check, events: seq<Event>) {
    && (forall i | 0 <= i < |events| :: !events[i].Clear?)
    && forall i | 0 <= i < |events| && Inserts(check, Run(check, events[..i]).rows, events[i]) ::
      forall r | r in Run(check, events[..i]).log :: r.signature != RowOf(check, events[i]).signature
  }

  lemma {:induction false} LogIsFirstRows(check: Check, events: seq<Event>)
    requires Timely(check, events) && Identifying(check, events) && NothingReturns(check, events)
    ensures Run(check, events).log == FirstRows(check, events)
  {
    if events != [] {
      var before, e := events[..|events| - 1], events[|events| - 1];
      assert forall i | 0 <= i < |before| :: before[i] == events[i] && before[..i] == events[..i];
      LogIsFirstRows(check, before);
      RunIsOneShot(check, before);
      var s := Run(check, before);
      OneShotIsCapped(s.log, s.clock);
      if e.Put? && Accepted(check, e) {
        var row := RowOf(check, e);
        if HasKey(s.rows, row.room, row.signature) {
          assert HasKey(s.log, row.room, row.signature);
        } else {
          assert Inserts(check, s.rows, e);
          assert Logged(s.log, row) == s.log + {row};
        }
      }
    }
  }

  /** When nothing returns, the log is simply the first insertion of every record. */
  lemma {:induction false} RunKeepsFirstInsertions(check: Check, events: seq<Event>)
    requires Timely(check, events) && Identifying(check, events) && NothingReturns(check, events)
    ensures Run(check, events).rows == OneShot(FirstRows(check, events), Run(check, events).clock)
  {
    LogIsFirstRows(check, events);
    RunIsOneShot(check, events);
  }
}
