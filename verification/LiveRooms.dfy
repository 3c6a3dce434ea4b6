/**
 The live receive path of channel records (crates/lantern-core/src/node.rs:765-777, 857-871): a
 decoded packet's record is stored only after its author is compared with the packet's signer.
 */
module LiveRooms {
  import opened ByteStrings
  import opened Results
  import opened Proto
  import ChannelHistory
  import opened HistoryStore
  import opened HistoryTables

  type Record = ChannelHistory.HistoryRecord

  /** A packet as gossip hands it over; `admits` are the checks of blocks, rate limits and author rooms. */
  datatype Arrival = Arrival(topic: Bytes, packet: Bytes, admits: Bytes -> bool, now: int)

  /** The record the path goes on to store. */
  function Admitted(c: Crypto, p: Postcard, a: Arrival): Option<Record> {
    match Decode(c, p, a.packet)
    case None => None
    case Some((from, frame)) =>
      if !a.admits(from) || !frame.HistoryRecord? then None
      else ChannelHistory.VerifySender(c, a.topic, from, frame.encoded)
  }

  function Stored(c: Crypto, p: Postcard, rows: set<Row>, a: Arrival): set<Row> {
    match Admitted(c, p, a)
    case None => rows
    case Some(record) => Apply(Checked(c), rows, Put(a.topic, record.encoded, a.now))
  }

  method Receive(p: Postcard, a: Arrival, table: Table) returns (shown: Option<Record>)
    modifies table`rows
    ensures table.rows == Stored(table.crypto, p, old(table.rows), a)
    ensures shown.Some? ==> shown == Admitted(table.crypto, p, a)
    ensures shown.Some? <==>
      && Admitted(table.crypto, p, a).Some?
      && Inserts(Checked(table.crypto), old(table.rows), Put(a.topic, Admitted(table.crypto, p, a).value.encoded, a.now))
  {
    var decoded := Decode(table.crypto, p, a.packet);
    if decoded.None? { return None; }
    var (from, frame) := decoded.value;
    if !a.admits(from) || !frame.HistoryRecord? { return None; }
    var record := ChannelHistory.VerifySender(table.crypto, a.topic, from, frame.encoded);
    if record.None? { return None; }
    var stored := table.Insert(a.topic, frame.encoded, a.now);
    shown := if stored == Ok(true) then record else None;
  }

  function Run(c: Crypto, p: Postcard, arrivals: seq<Arrival>): set<Row> {
    if arrivals == [] then {} else Stored(c, p, Run(c, p, arrivals[..|arrivals| - 1]), arrivals[|arrivals| - 1])
  }

  /** The packet's signer wrote the record in this row for this room, and signed both. */
  ghost predicate Vouches(c: Crypto, p: Postcard, a: Arrival, row: Row) {
    var e := Open(c, p, a.packet);
    var r := ChannelHistory.Verify(c, row.room, row.encoded);
    && e.Some? && r.Some? && row.room == a.topic
    && ChannelHistory.Genuine(c, r.value) && r.value.author == e.value.from
    && c.verifies(e.value.from, e.value.body, e.value.sig)
    && row.signature == r.value.signature && row.receivedAt == a.now
  }

  lemma StoredRowIsVouchedFor(c: Crypto, p: Postcard, rows: set<Row>, a: Arrival, row: Row)
    requires row in Stored(c, p, rows, a) && row !in rows
    ensures Vouches(c, p, a, row)
  {
    var record := Admitted(c, p, a).value;
    ChannelHistory.VerifyIsGenuine(c, a.topic, record.encoded);
  }

  /** Nothing is stored on this path, in any run, that the signer of one of the packets did not author. */
  lemma {:induction false} EveryRowIsVouchedFor(c: Crypto, p: Postcard, arrivals: seq<Arrival>, row: Row)
    requires row in Run(c, p, arrivals)
    ensures exists i :: 0 <= i < |arrivals| && Vouches(c, p, arrivals[i], row)
  {
    var front, last := arrivals[..|arrivals| - 1], arrivals[|arrivals| - 1];
    if row in Run(c, p, front) {
      EveryRowIsVouchedFor(c, p, front, row);
      var i :| 0 <= i < |front| && Vouches(c, p, front[i], row);
      assert arrivals[i] == front[i];
    } else {
      StoredRowIsVouchedFor(c, p, Run(c, p, front), last, row);
    }
  }
}
