/**
 What the history table loses, and nothing else (crates/lantern-core/src/store.rs:272-337): cleared
 rooms, rows older than a day, and rows that 256 of their room or 8192 overall have overtaken.
 */
module HistoryLosses {
  import opened ByteStrings
  import opened Results
  import opened Ranking
  import opened ChannelHistory
  import opened HistoryStore
  import opened HistoryTies

  /** Clearing takes exactly the room's rows. */
  lemma ClearTakesTheRoom(check: Check, rows: set<Row>, room: Bytes, r: Row)
    ensures r in Apply(check, rows, Clear(room)) <==> r in rows && r.room != room
  {
  }

  lemma PutAddsOne(rows: set<Row>, row: Row)
    ensures PutRow(rows, row) <= rows + {row}
  {
    var inserted := InsertOrIgnore(rows, row);
    var live := Expire(inserted, row.receivedAt - RETENTION_MS);
    assert CapAll(CapRoom(live, row.room)) <= live <= inserted <= rows + {row};
    PutInTurn(rows, row, inserted, live, CapAll(CapRoom(live, row.room)));
  }

  /** The row was put by one of these events. */
  ghost predicate PutBy(check: Check, events: seq<Event>, r: Row) {
    exists i :: 0 <= i < |events| && events[i].Put? && Accepted(check, events[i]) && r == RowOf(check, events[i])
  }

  lemma {:induction false} NothingJustAfterClearing(check: Check, before: seq<Event>, room: Bytes)
    ensures forall r | r in Run(check, before + [Clear(room)]).rows :: r.room != room
  {
    var events := before + [Clear(room)];
    assert events[..|events| - 1] == before && events[|events| - 1] == Clear(room);
  }

  /** After a room is cleared, only what is put into it later is in it, in every run. */
  lemma {:induction false} ClearedRoomStartsAnew(check: Check, before: seq<Event>, room: Bytes, later: seq<Event>, r: Row)
    requires r.room == room && r in Run(check, before + [Clear(room)] + later).rows
    ensures PutBy(check, later, r)
  {
    var events := before + [Clear(room)] + later;
    NothingJustAfterClearing(check, before, room);
    assert later == [] ==> events == before + [Clear(room)];
    if later != [] {
      var front, last := events[..|events| - 1], events[|events| - 1];
      var fewer := later[..|later| - 1];
      assert front == before + [Clear(room)] + fewer && last == later[|later| - 1];
      StepAddsOne(check, Run(check, front).rows, last, r);
      if r in Run(check, front).rows {
        ClearedRoomStartsAnew(check, before, room, fewer, r);
        var i :| 0 <= i < |fewer| && fewer[i].Put? && Accepted(check, fewer[i]) && r == RowOf(check, fewer[i]);
        assert later[i] == fewer[i];
      }
    }
  }

  lemma StepAddsOne(check: Check, rows: set<Row>, e: Event, r: Row)
    requires r in Apply(check, rows, e)
    ensures r in rows || (e.Put? && Accepted(check, e) && r == RowOf(check, e))
  {
    if e.Put? && Accepted(check, e) { PutAddsOne(rows, RowOf(check, e)); }
  }

  lemma TopIsSmall(s: set<Row>, n: nat)
    requires Identified(s)
    ensures |Top(s, Newer, n)| <= n
  {
    NewerIsStrict();
    IdentifiedIsTotal(s);
    TopSize(s, Newer, n);
  }

  lemma CutIsSmall(s: set<Row>, room: Bytes)
    requires Identified(s)
    ensures |Cut(s)| <= 8192 && |InRoom(Cut(s), room)| <= 256
  {
    SubsetIsIdentified(s, RoomTops(s));
    SubsetIsIdentified(s, InRoom(s, room));
    TopIsSmall(RoomTops(s), MAX_STORED);
    TopIsSmall(InRoom(s, room), MAX_RECORDS);
    forall r | r in InRoom(Cut(s), room) ensures r in Top(InRoom(s, room), Newer, MAX_RECORDS) {
      assert r in RoomTops(s);
    }
    SubsetSize(InRoom(Cut(s), room), Top(InRoom(s, room), Newer, MAX_RECORDS));
  }

  /** After every timely run: at most 256 rows of a room, at most 8192 in all, none older than a day. */
  lemma {:induction false} TableIsBounded(check: Check, events: seq<Event>, room: Bytes)
    requires Timely(check, events) && Identifying(check, events)
    ensures var s := Run(check, events);
      && |s.rows| <= 8192 && |InRoom(s.rows, room)| <= 256
      && forall r | r in s.rows :: r.receivedAt >= s.clock - 86400000
  {
    RunIsOneShot(check, events);
    var s := Run(check, events);
    OneShotIsBounded(s.log, s.clock, room);
  }

  lemma OneShotIsBounded(log: set<Row>, now: int, room: Bytes)
    requires Identified(log)
    ensures |OneShot(log, now)| <= 8192 && |InRoom(OneShot(log, now), room)| <= 256
    ensures forall r | r in OneShot(log, now) :: r.receivedAt >= now - 86400000
  {
    var live := Expire(log, now - RETENTION_MS);
    SubsetIsIdentified(log, live);
    CutIsSmall(live, room);
    OneShotIsCapped(log, now);
  }

  /** 256 rows of the log, of the same room and received no earlier. */
  ghost predicate Overtaken(log: set<Row>, full: set<Row>, r: Row) {
    full <= log && |full| == 256 && forall f | f in full :: f.room == r.room && f.receivedAt >= r.receivedAt
  }

  /** The table is full of rows received no earlier. */
  ghost predicate Crowded(rows: set<Row>, r: Row) {
    |rows| == 8192 && forall f | f in rows :: f.receivedAt >= r.receivedAt
  }

  lemma CutLoses(s: set<Row>, r: Row) returns (full: set<Row>)
    requires Identified(s) && r in s && r !in Cut(s)
    ensures Overtaken(s, full, r) || Crowded(Cut(s), r)
  {
    full := {};
    if r in RoomTops(s) {
      PushedOut(s, r);
    } else {
      full := CrowdedOut(s, r);
    }
  }

  /** No row of the log that is less than a day old is lost otherwise, in any timely run. */
  lemma {:induction false} LostRowWasOvertaken(check: Check, events: seq<Event>, r: Row)
    requires Timely(check, events) && Identifying(check, events)
    requires r in Run(check, events).log && r !in Run(check, events).rows
    requires r.receivedAt >= Run(check, events).clock - 86400000
    ensures var s := Run(check, events);
      (exists full :: Overtaken(s.log, full, r)) || Crowded(s.rows, r)
  {
    RunIsOneShot(check, events);
    var s := Run(check, events);
    var live := Expire(s.log, s.clock - RETENTION_MS);
    SubsetIsIdentified(s.log, live);
    var full := CutLoses(live, r);
    assert Overtaken(live, full, r) ==> Overtaken(s.log, full, r);
  }

  /** A verified record that is not there yet, received later than all others, is in the table after its call. */
  lemma {:induction false} NewRecordIsStored(c: Crypto, before: seq<Event>, room: Bytes, encoded: Bytes, at: int)
    requires Timely(Checked(c), before + [Put(room, encoded, at)])
    requires Identifying(Checked(c), before + [Put(room, encoded, at)])
    requires at >= 0 && Verify(c, room, encoded).Some? && Run(Checked(c), before).clock < at
    requires forall r | r in Run(Checked(c), before).rows ::
      r.room != room || r.signature != Verify(c, room, encoded).value.signature
    ensures Row(room, Verify(c, room, encoded).value.signature, encoded, at) in
      Run(Checked(c), before + [Put(room, encoded, at)]).rows
  {
    var check, e, events := Checked(c), Put(room, encoded, at), before + [Put(room, encoded, at)];
    var s, row := Run(check, before), Row(room, Verify(c, room, encoded).value.signature, encoded, at);
    FrontIsAdmissible(check, before, e);
    RunIsOneShot(check, before);
    OneShotIsCapped(s.log, s.clock);
    InsertedRowIsKept(check, before, e);
    assert RowOf(check, e) == row;
    assert TiesAhead(s.rows, row) == {} && TiesAhead(InRoom(s.rows, room), row) == {};
  }

  lemma {:induction false} FrontIsAdmissible(check: Check, before: seq<Event>, e: Event)
    requires Timely(check, before + [e]) && Identifying(check, before + [e])
    ensures Timely(check, before) && Identifying(check, before)
  {
    var events := before + [e];
    assert forall i | 0 <= i < |before| :: before[i] == events[i] && before[..i] == events[..i];
  }

  /** A record that is there already is not renewed: its row stays as it was while it is less than a day old, and goes then. */
  lemma RepeatDoesNotRenew(rows: set<Row>, row: Row)
    requires HasKey(rows, row.room, row.signature)
    ensures forall r | r in PutRow(rows, row) :: r in rows && r.receivedAt >= row.receivedAt - 86400000
  {
    var cutoff := row.receivedAt - RETENTION_MS;
    RepeatIsIgnored(rows, row);
    var live := Expire(rows, cutoff);
    assert CapAll(CapRoom(live, row.room)) <= live;
    PutInTurn(rows, row, rows, live, CapAll(CapRoom(live, row.room)));
  }
}
