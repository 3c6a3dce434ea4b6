/**
 The history operations of `Store` (crates/lantern-core/src/store.rs:272-337) as methods on the
 table they change, and what a reader of the table gets.
 */
module HistoryTables {
  import opened ByteStrings
  import opened Results
  import opened Ranking
  import opened ChannelHistory
  import opened HistoryStore
  import opened Snapshots

  /** WHERE room = ? AND received_at >= ? AND length(encoded) BETWEEN ? AND ? */
  function Selectable(rows: set<Row>, room: Bytes, now: int): set<Row> {
    set r | r in rows && r.room == room && r.receivedAt >= now - RETENTION_MS
      && HEADER + SIGNATURE <= |r.encoded| <= MAX_RECORD_BYTES
  }

  function Encoded(listing: seq<Row>): (raws: seq<Bytes>)
    ensures |raws| == |listing| && forall i | 0 <= i < |listing| :: raws[i] == listing[i].encoded
  {
    seq(|listing|, i requires 0 <= i < |listing| => listing[i].encoded)
  }

  /** PRIMARY KEY (room, signature) */
  ghost predicate KeysUnique(rows: set<Row>) {
    forall x, y | x in rows && y in rows :: x.room == y.room && x.signature == y.signature ==> x == y
  }

  class Table {
    var rows: set<Row>
    const crypto: Crypto

    constructor (crypto: Crypto)
      ensures this.crypto == crypto && rows == {}
    {
      this.crypto := crypto;
      rows := {};
    }

    method Insert(room: Bytes, encoded: Bytes, receivedAt: int) returns (r: Result<bool>)
      modifies this`rows
      ensures var e := Put(room, encoded, receivedAt);
        && rows == Apply(Checked(crypto), old(rows), e)
        && r == if Accepted(Checked(crypto), e) then Ok(Inserts(Checked(crypto), old(rows), e)) else Err(BadArgument)
    {
      if receivedAt < 0 { return Err(BadArgument); }
      var record := Verify(crypto, room, encoded);
      if record.None? { return Err(BadArgument); }
      var inserted := InsertRow(Row(room, record.value.signature, record.value.encoded, receivedAt));
      r := Ok(inserted);
    }

    /** The transaction: INSERT OR IGNORE, then the three deletions. */
    method InsertRow(row: Row) returns (inserted: bool)
      modifies this`rows
      ensures rows == PutRow(old(rows), row) && inserted == !HasKey(old(rows), row.room, row.signature)
    {
      inserted := !HasKey(rows, row.room, row.signature);
      if inserted { rows := rows + {row}; }
      rows := Expire(rows, row.receivedAt - RETENTION_MS);
      rows := CapRoom(rows, row.room);
      rows := CapAll(rows);
    }

    method PruneExpired(now: int) returns (r: Result<nat>)
      modifies this`rows
      ensures rows == Apply(Checked(crypto), old(rows), Prune(now))
      ensures r == if now < 0 then Err(BadArgument) else Ok(|old(rows) - rows|)
    {
      if now < 0 { return Err(BadArgument); }
      var kept := Expire(rows, now - RETENTION_MS);
      r := Ok(|rows - kept|);
      rows := kept;
    }

    method ClearRoom(room: Bytes)
      modifies this`rows
      ensures rows == Apply(Checked(crypto), old(rows), Clear(room))
    {
      rows := rows - InRoom(rows, room);
    }

    /** ORDER BY received_at DESC, signature DESC LIMIT 256 */
    method Query(room: Bytes, now: int) returns (listing: seq<Row>)
      requires KeysUnique(rows)
      ensures Ascending(listing, Newer)
      ensures Elements(listing) == Top(Selectable(rows, room, now), Newer, MAX_RECORDS)
    {
      var rest := Top(Selectable(rows, room, now), Newer, MAX_RECORDS);
      ghost var top := rest;
      SelectableIsTotal(rows, room, now);
      listing := [];
      while rest != {}
        invariant Listed(listing, rest, top)
        decreases |rest|
      {
        ghost var first := Best(rest);
        var next :| next in rest && forall x | x in rest :: x == next || Newer(next, x);
        ListNext(listing, rest, top, next);
        listing := listing + [next];
        rest := rest - {next};
      }
    }

    /** Reverifies every row, so edited database bytes cannot become authenticated lines. */
    method Read(room: Bytes, now: int) returns (r: Result<seq<HistoryRecord>>, ghost listing: seq<Row>)
      requires KeysUnique(rows)
      ensures now < 0 ==> r == Err(BadArgument)
      ensures now >= 0 ==>
        && Ascending(listing, Newer)
        && Elements(listing) == Top(Selectable(rows, room, now), Newer, MAX_RECORDS)
        && r == Ok(Kept(Reader(crypto, room), Encoded(listing)))
    {
      listing := [];
      if now < 0 { return Err(BadArgument), []; }
      var selected := Query(room, now);
      var raws := Encoded(selected);
      var records := Collect(Reader(crypto, room), raws);
      listing := selected;
      r := Ok(Sort(records, RecordLess));
    }
  }

  lemma SelectableIsTotal(rows: set<Row>, room: Bytes, now: int)
    requires KeysUnique(rows)
    ensures StrictOrder(Newer) && TotalOn(Newer, Selectable(rows, room, now))
  {
    IdentifiedIsTotal(Selectable(rows, room, now));
    NewerIsStrict();
  }

  /** The best of `top` are listed in order, `rest` is still to come. */
  ghost predicate Listed(listing: seq<Row>, rest: set<Row>, top: set<Row>) {
    && rest <= top && TotalOn(Newer, rest) && StrictOrder(Newer)
    && Elements(listing) == top - rest && Ascending(listing, Newer)
    && forall i, y | 0 <= i < |listing| && y in rest :: Newer(listing[i], y)
  }

  lemma ListNext(listing: seq<Row>, rest: set<Row>, top: set<Row>, next: Row)
    requires Listed(listing, rest, top) && next in rest
    requires forall x | x in rest :: x == next || Newer(next, x)
    ensures Listed(listing + [next], rest - {next}, top)
  {
    assert Elements(listing + [next]) == Elements(listing) + {next};
  }

  lemma {:induction false} Best(s: set<Row>) returns (b: Row)
    requires s != {} && StrictOrder(Newer) && TotalOn(Newer, s)
    ensures b in s && forall x | x in s :: x == b || Newer(b, x)
    decreases |s|
  {
    var first :| first in s;
    var rest := s - {first};
    b := first;
    if rest != {} {
      var other := Best(rest);
      if Newer(other, first) { b := other; }
    }
    assert forall x | x in s :: x == first || x in rest;
  }

  // ------------------------------------------------------------ what a reader gets

  /** Every row of a run carries the signature its bytes verify with. */
  ghost predicate Authentic(c: Crypto, rows: set<Row>) {
    forall r | r in rows :: Checked(c)(r.room, r.encoded) == Some(r.signature)
  }

  lemma {:induction false} RunIsAuthentic(c: Crypto, events: seq<Event>)
    requires Timely(Checked(c), events) && Identifying(Checked(c), events)
    ensures var s := Run(Checked(c), events); Authentic(c, s.log) && s.rows <= s.log && KeysUnique(s.rows)
  {
    var s := Run(Checked(c), events);
    RunIsOneShot(Checked(c), events);
    OneShotIsCapped(s.log, s.clock);
    forall r | r in s.log
      ensures Checked(c)(r.room, r.encoded) == Some(r.signature)
    {
      var i :| 0 <= i < |events| && events[i].Put? && Accepted(Checked(c), events[i]) && r == RowOf(Checked(c), events[i]);
    }
  }

  /** The query loses nothing of a pruned table: the room holds at most 256 unexpired rows. */
  lemma QueryIsOneShot(c: Crypto, s: State, room: Bytes, now: int)
    requires Inv(s) && Authentic(c, s.rows) && s.clock <= now
    ensures Top(Selectable(s.rows, room, now), Newer, MAX_RECORDS) == InRoom(OneShot(s.log, now), room)
  {
    var kept := OneShot(s.log, now);
    ExpireAgain(s.log, s.clock, now);
    OneShotIsCapped(s.log, now);
    CappedSubset(kept, kept);
    forall r | r in s.rows
      ensures HEADER + SIGNATURE <= |r.encoded| <= MAX_RECORD_BYTES
    {
      assert Checked(c)(r.room, r.encoded).Some?;
    }
    assert Selectable(s.rows, room, now) == InRoom(kept, room);
    forall r | r in InRoom(kept, room)
      ensures r in Top(InRoom(kept, room), Newer, MAX_RECORDS)
    {
      assert r in RoomTops(kept);
    }
  }

  lemma ListedRecords(c: Crypto, rows: set<Row>, room: Bytes, listing: seq<Row>, r: HistoryRecord)
    requires Authentic(c, rows) && KeysUnique(rows) && Elements(listing) == InRoom(rows, room)
    ensures r in Elements(Kept(Reader(c, room), Encoded(listing))) <==>
      exists row | row in InRoom(rows, room) :: Verify(c, room, row.encoded) == Some(r)
  {
    var read, raws := Reader(c, room), Encoded(listing);
    assert forall i | 0 <= i < |raws| :: listing[i] in Elements(listing) && raws[i] == listing[i].encoded;
    forall a, b | a in Elements(raws) && b in Elements(raws) && read(a).Some? && read(b).Some?
      ensures read(a).value.signature == read(b).value.signature ==> a == b
    {
      var i :| 0 <= i < |raws| && raws[i] == a;
      var j :| 0 <= j < |raws| && raws[j] == b;
      assert Checked(c)(room, a) == Some(listing[i].signature) && Checked(c)(room, b) == Some(listing[j].signature);
    }
    KeptElements(read, raws, r);
    if r.encoded in raws && read(r.encoded) == Some(r) {
      var i :| 0 <= i < |raws| && raws[i] == r.encoded;
      assert listing[i] in InRoom(rows, room);
    }
    if exists row | row in InRoom(rows, room) :: Verify(c, room, row.encoded) == Some(r) {
      var row :| row in InRoom(rows, room) && Verify(c, room, row.encoded) == Some(r);
      assert row in Elements(listing);
      var i :| 0 <= i < |listing| && listing[i] == row;
      assert raws[i] == row.encoded;
    }
  }

  /**
   What is read back after any timely run: in ascending order and without repeats, exactly the
   records of the one-shot cut of the log at the time of reading.
   */
  lemma {:induction false} ReadIsOneShot(c: Crypto, events: seq<Event>, room: Bytes, now: int, listing: seq<Row>)
    requires Timely(Checked(c), events) && Identifying(Checked(c), events)
    requires Run(Checked(c), events).clock <= now
    requires Elements(listing) == Top(Selectable(Run(Checked(c), events).rows, room, now), Newer, MAX_RECORDS)
    ensures var records := Kept(Reader(c, room), Encoded(listing));
      && Ascending(records, RecordLess) && SignaturesDiffer(records)
      && forall r :: r in Elements(records) <==>
        exists row | row in InRoom(OneShot(Run(Checked(c), events).log, now), room) ::
          Verify(c, room, row.encoded) == Some(r)
  {
    var s := Run(Checked(c), events);
    var kept := OneShot(s.log, now);
    RunIsOneShot(Checked(c), events);
    RunIsAuthentic(c, events);
    QueryIsOneShot(c, s, room, now);
    ExpireAgain(s.log, s.clock, now);
    assert kept <= s.rows;
    KeptIsCanonical(Reader(c, room), Encoded(listing));
    forall r
      ensures r in Elements(Kept(Reader(c, room), Encoded(listing))) <==>
        exists row | row in InRoom(kept, room) :: Verify(c, room, row.encoded) == Some(r)
    {
      ListedRecords(c, kept, room, listing, r);
    }
  }
}
