/**
 Packets inside a room (crates/lantern-core/src/proto.rs) and what the live receive path stores
 (crates/lantern-core/src/node.rs:765-872).

 postcard is not modelled: `Postcard` carries its functions, and `Lawful` is the one law used of
 them, that reading what was written gives the value back and leaves what follows untouched.
 Deserializing an envelope includes the check that its sender is a valid public key.
 */
module Proto {
  import opened ByteStrings
  import opened Results
  import ChannelHistory
  import Utf8

  type Crypto = ChannelHistory.Crypto

  datatype Frame =
    | App(data: Bytes)
    | Presence(data: Bytes)
    | BlobOffer(hash: Bytes, size: nat, name: seq<Utf8.Scalar>)
    | BlobUnoffer(hash: Bytes)
    | Hello(data: Bytes)
    | HistoryRecord(encoded: Bytes)
    | HistoryRequest(topic: Bytes, nonce: Bytes, attempt: byte)
    | HistoryOffer(topic: Bytes, to: Bytes, nonce: Bytes, attempt: byte, hash: Bytes, size: nat, provider: Bytes)
    | SealedBlobOffer(hash: Bytes, size: nat, encryptedSize: nat, name: seq<Utf8.Scalar>)

  datatype Envelope = Envelope(version: nat, from: Bytes, body: Bytes, sig: Bytes)

  datatype Postcard = Postcard(
    frame: Frame -> Bytes, takeFrame: Bytes -> Option<(Frame, Bytes)>,
    envelope: Envelope -> Bytes, takeEnvelope: Bytes -> Option<(Envelope, Bytes)>)

  ghost predicate Lawful(p: Postcard) {
    && (forall f, tail {:trigger p.takeFrame(p.frame(f) + tail)} :: p.takeFrame(p.frame(f) + tail) == Some((f, tail)))
    && (forall e, tail {:trigger p.takeEnvelope(p.envelope(e) + tail)} ::
          p.takeEnvelope(p.envelope(e) + tail) == Some((e, tail)))
  }

  const PROTOCOL_VERSION := 1
  const LIVE_HISTORY_MAGIC: Bytes := Ascii("LTHLIVE1")
  const FILE_NONCE_MAGIC: Bytes := Ascii("LTFNON01")
  const SIGNATURE := 64

  predicate StartsWith(b: Bytes, prefix: Bytes) {
    |prefix| <= |b| && b[..|prefix|] == prefix
  }

  // ------------------------------------------------------------ writing

  function Signed(c: Crypto, p: Postcard, secret: Bytes, body: Bytes): Bytes {
    p.envelope(Envelope(PROTOCOL_VERSION, c.publicKey(secret), body, c.sign(secret, body)))
  }

  /** The text an old reader shows for a record. */
  function Shown(record: ChannelHistory.HistoryRecord): Frame {
    App(Utf8.Encode(record.text))
  }

  method EncodeBody(c: Crypto, p: Postcard, secret: Bytes, body: Bytes) returns (packet: Bytes)
    ensures packet == Signed(c, p, secret, body)
  {
    var sig := c.sign(secret, body);
    packet := p.envelope(Envelope(PROTOCOL_VERSION, c.publicKey(secret), body, sig));
  }

  method Encode(c: Crypto, p: Postcard, secret: Bytes, frame: Frame) returns (packet: Bytes)
    ensures packet == Signed(c, p, secret, p.frame(frame))
  {
    packet := EncodeBody(c, p, secret, p.frame(frame));
  }

  /** `nonce` is None where the operating system has no randomness to give. */
  method EncodeFileOffer(c: Crypto, p: Postcard, secret: Bytes, frame: Frame, nonce: Option<Bytes>)
    returns (packet: Option<Bytes>)
    ensures packet == if nonce.None? then None
                      else Some(Signed(c, p, secret, p.frame(frame) + (FILE_NONCE_MAGIC + nonce.value)))
  {
    if nonce.None? { return None; }
    var body := p.frame(frame);
    body := body + FILE_NONCE_MAGIC;
    body := body + nonce.value;
    assert body == p.frame(frame) + (FILE_NONCE_MAGIC + nonce.value);
    var signed := EncodeBody(c, p, secret, body);
    packet := Some(signed);
  }

  method EncodeHistory(c: Crypto, p: Postcard, secret: Bytes, room: Bytes, encoded: Bytes)
    returns (packet: Option<Bytes>)
    ensures packet == match ChannelHistory.VerifySender(c, room, c.publicKey(secret), encoded)
                      case None => None
                      case Some(record) => Some(LivePacket(c, p, secret, record))
  {
    var record := ChannelHistory.VerifySender(c, room, c.publicKey(secret), encoded);
    if record.None? { return None; }
    var body := p.frame(App(Utf8.Encode(record.value.text)));
    body := body + LIVE_HISTORY_MAGIC;
    body := body + encoded;
    assert body == p.frame(Shown(record.value)) + (LIVE_HISTORY_MAGIC + encoded);
    var signed := EncodeBody(c, p, secret, body);
    packet := Some(signed);
  }

  function LivePacket(c: Crypto, p: Postcard, secret: Bytes, record: ChannelHistory.HistoryRecord): Bytes {
    Signed(c, p, secret, p.frame(Shown(record)) + (LIVE_HISTORY_MAGIC + record.encoded))
  }

  // ------------------------------------------------------------ reading

  /** The envelope, if its version is ours and its sender signed its body. */
  function Open(c: Crypto, p: Postcard, packet: Bytes): Option<Envelope> {
    match p.takeEnvelope(packet)
    case None => None
    case Some((e, _)) =>
      if e.version != PROTOCOL_VERSION || |e.sig| != SIGNATURE || !c.verifies(e.from, e.body, e.sig) then None else Some(e)
  }

  /** A reader from before live records: it takes the frame and ignores what follows. */
  function DecodeLegacy(c: Crypto, p: Postcard, packet: Bytes): Option<(Bytes, Frame)> {
    match Open(c, p, packet)
    case None => None
    case Some(e) =>
      match p.takeFrame(e.body)
      case None => None
      case Some((frame, _)) => Some((e.from, frame))
  }

  /** The record in a tail, if it is its sender's and says what the frame says. */
  function TailRecord(c: Crypto, from: Bytes, text: Bytes, encoded: Bytes): Option<Frame> {
    if |encoded| < 72 then None
    else
      match ChannelHistory.VerifySender(c, encoded[40..72], from, encoded)
      case None => None
      case Some(record) => if Utf8.Encode(record.text) != text then None else Some(HistoryRecord(encoded))
  }

  function DecodeBody(c: Crypto, from: Bytes, frame: Frame, tail: Bytes): Option<(Bytes, Frame)> {
    if frame.App? && StartsWith(tail, LIVE_HISTORY_MAGIC) then
      match TailRecord(c, from, frame.data, tail[|LIVE_HISTORY_MAGIC|..])
      case None => None
      case Some(record) => Some((from, record))
    else Some((from, frame))
  }

  function Decode(c: Crypto, p: Postcard, packet: Bytes): Option<(Bytes, Frame)> {
    match Open(c, p, packet)
    case None => None
    case Some(e) =>
      match p.takeFrame(e.body)
      case None => None
      case Some((frame, tail)) => DecodeBody(c, e.from, frame, tail)
  }

  // ------------------------------------------------------------ round trips

  lemma OpenOfSigned(c: Crypto, p: Postcard, secret: Bytes, body: Bytes)
    requires ChannelHistory.Sound(c) && Lawful(p)
    ensures Open(c, p, Signed(c, p, secret, body)) ==
      Some(Envelope(PROTOCOL_VERSION, c.publicKey(secret), body, c.sign(secret, body)))
  {
    var packet := Signed(c, p, secret, body);
    assert packet + [] == packet;
  }

  /** Every frame round-trips, for old and new readers alike. */
  lemma FramesRoundTrip(c: Crypto, p: Postcard, secret: Bytes, frame: Frame)
    requires ChannelHistory.Sound(c) && Lawful(p)
    ensures Decode(c, p, Signed(c, p, secret, p.frame(frame))) == Some((c.publicKey(secret), frame))
    ensures DecodeLegacy(c, p, Signed(c, p, secret, p.frame(frame))) == Some((c.publicKey(secret), frame))
  {
    OpenOfSigned(c, p, secret, p.frame(frame));
    assert p.frame(frame) + [] == p.frame(frame);
  }

  lemma MagicsDiffer(tail: Bytes)
    ensures !StartsWith(FILE_NONCE_MAGIC + tail, LIVE_HISTORY_MAGIC)
  {
    var b := FILE_NONCE_MAGIC + tail;
    assert b[..8][2] == FILE_NONCE_MAGIC[2] == 'F' as int;
    assert LIVE_HISTORY_MAGIC[2] == 'H' as int;
  }

  /** Trailing entropy changes nothing for any reader, whatever the frame and the nonce. */
  lemma FileOffersRoundTrip(c: Crypto, p: Postcard, secret: Bytes, frame: Frame, nonce: Bytes)
    requires ChannelHistory.Sound(c) && Lawful(p)
    ensures var packet := Signed(c, p, secret, p.frame(frame) + (FILE_NONCE_MAGIC + nonce));
      && Decode(c, p, packet) == Some((c.publicKey(secret), frame))
      && DecodeLegacy(c, p, packet) == Some((c.publicKey(secret), frame))
  {
    OpenOfSigned(c, p, secret, p.frame(frame) + (FILE_NONCE_MAGIC + nonce));
    MagicsDiffer(nonce);
  }

  /** A live record packet means the record to a new reader and its plain text to an old one. */
  lemma LiveRecordsMeanTheSame(c: Crypto, p: Postcard, secret: Bytes, room: Bytes, record: ChannelHistory.HistoryRecord)
    requires ChannelHistory.Sound(c) && Lawful(p)
    requires ChannelHistory.VerifySender(c, room, c.publicKey(secret), record.encoded) == Some(record)
    ensures var packet := LivePacket(c, p, secret, record);
      && Decode(c, p, packet) == Some((c.publicKey(secret), HistoryRecord(record.encoded)))
      && DecodeLegacy(c, p, packet) == Some((c.publicKey(secret), App(Utf8.Encode(record.text))))
  {
    var tail := LIVE_HISTORY_MAGIC + record.encoded;
    OpenOfSigned(c, p, secret, p.frame(Shown(record)) + tail);
    assert tail[|LIVE_HISTORY_MAGIC|..] == record.encoded && StartsWith(tail, LIVE_HISTORY_MAGIC);
    assert record.encoded[40..72] == room;
  }

  /**
   On any packet at all: what a new reader accepts, an old reader accepts from the same sender; and
   they see the same frame, or else the old one sees the text of a record that the sender authored.
   */
  lemma ReadersAgree(c: Crypto, p: Postcard, packet: Bytes)
    requires Decode(c, p, packet).Some?
    ensures DecodeLegacy(c, p, packet).Some?
    ensures var (from, frame) := Decode(c, p, packet).value;
      var (oldFrom, oldFrame) := DecodeLegacy(c, p, packet).value;
      && from == oldFrom
      && (frame != oldFrame ==>
            && frame.HistoryRecord? && |frame.encoded| >= 72
            && var record := ChannelHistory.VerifySender(c, frame.encoded[40..72], from, frame.encoded);
            record.Some? && record.value.author == from && oldFrame == Shown(record.value))
  {
  }
}
