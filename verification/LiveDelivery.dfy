/**
 A member's record reaches the table and the screen of whoever admits it
 (crates/lantern-core/src/node.rs:765-777, 857-871 with crates/lantern-core/src/proto.rs:154-224).
 */
module LiveDelivery {
  import opened ByteStrings
  import opened Results
  import opened Proto
  import ChannelHistory
  import opened HistoryStore
  import opened LiveRooms

  /** The packet made of one's own record, where its signer is admitted, is admitted as that record. */
  lemma OwnRecordIsAdmitted(c: Crypto, p: Postcard, secret: Bytes, room: Bytes, record: Record, a: Arrival)
    requires ChannelHistory.Sound(c) && Lawful(p)
    requires ChannelHistory.VerifySender(c, room, c.publicKey(secret), record.encoded) == Some(record)
    requires a.topic == room && a.packet == LivePacket(c, p, secret, record) && a.admits(c.publicKey(secret))
    ensures Admitted(c, p, a) == Some(record)
  {
    LiveRecordsMeanTheSame(c, p, secret, room, record);
  }

  /** What the table does with it: the record is put, with its own signature and the time of arrival. */
  lemma OwnRecordIsStored(c: Crypto, p: Postcard, secret: Bytes, room: Bytes, record: Record, rows: set<Row>, a: Arrival)
    requires ChannelHistory.Sound(c) && Lawful(p) && a.now >= 0
    requires ChannelHistory.VerifySender(c, room, c.publicKey(secret), record.encoded) == Some(record)
    requires a.topic == room && a.packet == LivePacket(c, p, secret, record) && a.admits(c.publicKey(secret))
    ensures Stored(c, p, rows, a) == PutRow(rows, Row(room, record.signature, record.encoded, a.now))
  {
    OwnRecordIsAdmitted(c, p, secret, room, record, a);
  }

  /** A packet whose signer is not admitted, or that is no record of this room by its signer, changes nothing. */
  lemma OthersAreDropped(c: Crypto, p: Postcard, rows: set<Row>, a: Arrival)
    requires match Decode(c, p, a.packet)
      case None => true
      case Some((from, frame)) =>
        !a.admits(from) || !frame.HistoryRecord? || ChannelHistory.VerifySender(c, a.topic, from, frame.encoded).None?
    ensures Stored(c, p, rows, a) == rows && Admitted(c, p, a) == None
  {
  }
}
