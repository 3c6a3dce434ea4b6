/**
 Signed channel records and snapshots (crates/lantern-core/src/channel_history.rs).

 Ed25519 is not modelled: `Crypto` carries uninterpreted functions, and the lemmas name the
 laws they need of them.
 */
module ChannelHistory {
  import opened ByteStrings
  import opened Results
  import Utf8

  const MAGIC: Bytes := Ascii("LTHREC01")
  const SNAPSHOT_MAGIC: Bytes := Ascii("LTHSNAP1")
  const DOMAIN: Bytes := Ascii("XivLantern channel history v1\0")
  const HEADER := 98
  const SIGNATURE := 64
  const SNAPSHOT_HEADER := 42
  const MAX_TEXT := 2048
  const MAX_RECORD_BYTES := HEADER + MAX_TEXT + SIGNATURE
  const MAX_RECORDS := 256
  const MAX_SNAPSHOT_BYTES := SNAPSHOT_HEADER + MAX_RECORDS * (2 + MAX_RECORD_BYTES)

  datatype Crypto = Crypto(
    publicKey: Bytes -> Bytes,
    sign: (Bytes, Bytes) -> Bytes,
    validKey: Bytes -> bool,
    verifies: (Bytes, Bytes, Bytes) -> bool)

  /** Section 5.1 of RFC 8032, as far as it is used: an honest signature has 64 bytes and verifies. */
  ghost predicate Sound(c: Crypto) {
    forall secret, message {:trigger c.sign(secret, message)} ::
      && |c.publicKey(secret)| == 32 && c.validKey(c.publicKey(secret))
      && |c.sign(secret, message)| == SIGNATURE
      && c.verifies(c.publicKey(secret), message, c.sign(secret, message))
  }

  datatype HistoryRecord = HistoryRecord(
    author: Bytes, room: Bytes, id: Bytes, sentAt: int, text: seq<Utf8.Scalar>, signature: Bytes, encoded: Bytes)

  predicate ValidText(text: seq<Utf8.Scalar>) {
    text != [] && |Utf8.Encode(text)| <= MAX_TEXT && !Utf8.HasControl(text)
  }

  function Body(author: Bytes, room: Bytes, id: Bytes, sentAt: nat, text: Bytes): Bytes
    requires |text| < 0x1_0000
  {
    MAGIC + author + room + id + BigEndian(sentAt, 8) + U16(|text|) + text
  }

  function Sign(c: Crypto, secret: Bytes, room: Bytes, id: Bytes, sentAt: int, text: seq<Utf8.Scalar>): Result<Bytes> {
    if !ValidText(text) || sentAt < 0 then Err(BadArgument)
    else
      var body := Body(c.publicKey(secret), room, id, sentAt, Utf8.Encode(text));
      Ok(body + c.sign(secret, DOMAIN + body))
  }

  /** Every check of `verify`, in its order. No trailing bytes are accepted. */
  function Verify(c: Crypto, room: Bytes, b: Bytes): (r: Option<HistoryRecord>)
    ensures r.Some? ==> r.value.encoded == b && HEADER + SIGNATURE <= |b| <= MAX_RECORD_BYTES
  {
    if |b| < HEADER + SIGNATURE || |b| > MAX_RECORD_BYTES || b[..8] != MAGIC then None
    else if b[40..72] != room then None
    else
      var end := HEADER + U16At(b, 96);
      if |b| != end + SIGNATURE then None
      else
        var sentAt := SignedNumber(b[88..96]);
        var text := Utf8.Decode(b[HEADER..end]);
        if text.None? || sentAt < 0 || !ValidText(text.value) then None
        else if !c.validKey(b[8..40]) || !c.verifies(b[8..40], DOMAIN + b[..end], b[end..]) then None
        else Some(HistoryRecord(b[8..40], room, b[72..88], sentAt, text.value, b[end..], b))
  }

  /** The check of one room, as a function of the bytes alone. */
  function Reader(c: Crypto, room: Bytes): Reading {
    b => Verify(c, room, b)
  }

  /** A reader hands back the bytes it was given, and only bytes of an admissible length. */
  ghost predicate Faithful(read: Bytes -> Option<HistoryRecord>) {
    forall b :: read(b).Some? ==> read(b).value.encoded == b && HEADER + SIGNATURE <= |b| <= MAX_RECORD_BYTES
  }

  type Reading = read: Bytes -> Option<HistoryRecord> | Faithful(read) witness b => None

  /** The live envelope's sender must be the record's author. */
  function VerifySender(c: Crypto, room: Bytes, sender: Bytes, b: Bytes): Option<HistoryRecord> {
    match Verify(c, room, b)
    case None => None
    case Some(record) => if record.author == sender then Some(record) else None
  }

  // ------------------------------------------------------------ bytes and fields

  /** A record whose bytes spell exactly its fields, and whose author signed them. */
  ghost predicate Genuine(c: Crypto, r: HistoryRecord) {
    && |r.author| == 32 && |r.room| == 32 && |r.id| == 16 && |r.signature| == SIGNATURE
    && 0 <= r.sentAt < I64_LIMIT
    && ValidText(r.text)
    && c.validKey(r.author)
    && var body := Body(r.author, r.room, r.id, r.sentAt, Utf8.Encode(r.text));
    && r.encoded == body + r.signature
    && c.verifies(r.author, DOMAIN + body, r.signature)
  }

  lemma {:induction false} BodyFields(author: Bytes, room: Bytes, id: Bytes, sentAt: nat, text: Bytes, b: Bytes)
    requires |author| == 32 && |room| == 32 && |id| == 16 && |b| >= HEADER && |text| < 0x1_0000
    ensures b[..HEADER] + text == Body(author, room, id, sentAt, text) <==>
      && b[..8] == MAGIC && b[8..40] == author && b[40..72] == room && b[72..88] == id
      && b[88..96] == BigEndian(sentAt, 8) && b[96..98] == U16(|text|)
  {
    var body := Body(author, room, id, sentAt, text);
    assert body[..8] == MAGIC && body[8..40] == author && body[40..72] == room && body[72..88] == id;
    assert body[88..96] == BigEndian(sentAt, 8) && body[96..98] == U16(|text|) && body[98..] == text;
    assert b[..HEADER] == b[..8] + b[8..40] + b[40..72] + b[72..88] + b[88..96] + b[96..98];
    if b[..HEADER] + text == body {
      var h := b[..HEADER] + text;
      assert h[..8] == b[..8] && h[8..40] == b[8..40] && h[40..72] == b[40..72] && h[72..88] == b[72..88];
      assert h[88..96] == b[88..96] && h[96..98] == b[96..98];
    }
  }

  lemma {:induction false} SignedNumberOfBigEndian(n: nat)
    requires n < I64_LIMIT
    ensures SignedNumber(BigEndian(n, 8)) == n
  {
    Powers();
    NumberOfBigEndian(n, 8);
  }

  lemma BigEndianOfSignedNumber(b: Bytes)
    requires |b| == 8 && SignedNumber(b) >= 0
    ensures BigEndian(SignedNumber(b), 8) == b
  {
    BigEndianOfNumber(b);
  }

  lemma VerifiedBody(c: Crypto, room: Bytes, b: Bytes)
    requires Verify(c, room, b).Some?
    ensures var r, end := Verify(c, room, b).value, |b| - SIGNATURE;
      |b[HEADER..end]| < 0x1_0000 && b[..end] == Body(r.author, room, r.id, r.sentAt, b[HEADER..end])
  {
    var r, end := Verify(c, room, b).value, |b| - SIGNATURE;
    var raw := b[HEADER..end];
    U16OfRead(b, 96);
    BigEndianOfSignedNumber(b[88..96]);
    BodyFields(r.author, room, r.id, r.sentAt, raw, b);
    assert b[..end] == b[..HEADER] + raw;
  }

  lemma VerifiedFields(c: Crypto, room: Bytes, b: Bytes)
    requires Verify(c, room, b).Some?
    ensures var r, end := Verify(c, room, b).value, |b| - SIGNATURE;
      && |r.author| == 32 && r.room == room && |room| == 32 && |r.id| == 16 && r.signature == b[end..]
      && ValidText(r.text) && c.validKey(r.author) && c.verifies(r.author, DOMAIN + b[..end], b[end..])
      && Utf8.Encode(r.text) == b[HEADER..end]
  {
    Utf8.EncodeOfDecode(b[HEADER..|b| - SIGNATURE]);
  }

  lemma VerifyIsGenuine(c: Crypto, room: Bytes, b: Bytes)
    requires Verify(c, room, b).Some?
    ensures Genuine(c, Verify(c, room, b).value) && Verify(c, room, b).value.room == room
  {
    var end := |b| - SIGNATURE;
    VerifiedFields(c, room, b);
    VerifiedBody(c, room, b);
    assert b == b[..end] + b[end..];
  }

  lemma GenuineVerifies(c: Crypto, r: HistoryRecord)
    requires Genuine(c, r)
    ensures Verify(c, r.room, r.encoded) == Some(r)
  {
    var b, raw := r.encoded, Utf8.Encode(r.text);
    var body := Body(r.author, r.room, r.id, r.sentAt, raw);
    var end := |body|;
    assert b[..end] == body && b[end..] == r.signature;
    assert b[HEADER..end] == body[HEADER..] == raw;
    assert b[..HEADER] + raw == body;
    BodyFields(r.author, r.room, r.id, r.sentAt, raw, b);
    Powers();
    SignedNumberOfBigEndian(r.sentAt);
    Utf8.DecodeOfEncode(r.text);
    assert raw != [] by { assert |Utf8.EncodeOne(r.text[0])| > 0; }
  }

  /** Bytes and fields determine each other: `verify` accepts exactly the layouts of signed records. */
  lemma VerifyExactly(c: Crypto, room: Bytes, b: Bytes, r: HistoryRecord)
    ensures Verify(c, room, b) == Some(r) <==> Genuine(c, r) && r.encoded == b && r.room == room
  {
    if Verify(c, room, b) == Some(r) { VerifyIsGenuine(c, room, b); }
    if Genuine(c, r) { GenuineVerifies(c, r); }
  }

  /** What `sign` writes, `verify` reads back field by field. */
  lemma VerifyInvertsSign(c: Crypto, secret: Bytes, room: Bytes, id: Bytes, sentAt: int, text: seq<Utf8.Scalar>)
    requires Sound(c) && |room| == 32 && |id| == 16 && sentAt < I64_LIMIT
    ensures var signed := Sign(c, secret, room, id, sentAt, text);
      if ValidText(text) && sentAt >= 0 then
        && signed.Ok?
        && var r := Verify(c, room, signed.value);
        && r.Some? && r.value.author == c.publicKey(secret) && r.value.room == room && r.value.id == id
        && r.value.sentAt == sentAt && r.value.text == text && r.value.encoded == signed.value
      else signed == Err(BadArgument)
  {
    if ValidText(text) && sentAt >= 0 {
      var body := Body(c.publicKey(secret), room, id, sentAt, Utf8.Encode(text));
      var signature := c.sign(secret, DOMAIN + body);
      GenuineVerifies(c, HistoryRecord(c.publicKey(secret), room, id, sentAt, text, signature, body + signature));
    }
  }
}
