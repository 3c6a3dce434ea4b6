/**
 The managed parser of record bytes (bindings/csharp/Lantern/ChannelRecord.cs:17-34): structure
 only, no cryptography. It must agree with the native parser on everything that one accepts.
 */
module ChannelRecords {
  import opened ByteStrings
  import opened HexText
  import opened Results
  import opened Utf8
  import opened ChannelHistory

  datatype EventKind = LiveRecord | OldRecord | OtherEvent

  datatype ChannelRecord = ChannelRecord(
    author: Text, room: Text, id: Text, claimedAt: int, text: Text, signature: Text, historical: bool)

  function Digit(d: nat): int
    requires d < 16
  {
    if d < 10 then '0' as int + d else 'a' as int + d - 10
  }

  /** Convert.ToHexStringLower */
  function Hex(b: Bytes): (t: Text)
    ensures |t| == 2 * |b|
  {
    if b == [] then [] else [Digit(b[0] / 16), Digit(b[0] % 16)] + Hex(b[1..])
  }

  function FromNativeEvent(kind: EventKind, peer: Bytes, raw: Bytes): Option<ChannelRecord> {
    if kind.OtherEvent? then None
    else if |peer| != 32 || |raw| < 163 || |raw| > 2210 || raw[..8] != MAGIC then None
    else if raw[8..40] != peer then None
    else
      var length := U16At(raw, 96);
      var time := SignedNumber(raw[88..96]);
      if length == 0 || length > 2048 || |raw| != 98 + length + 64 || time < 0 then None
      else
        match Decode(raw[98..98 + length])
        case None => None
        case Some(scalars) =>
          var text := Utf16(scalars);
          if HasControl(text) then None
          else
            Some(ChannelRecord(Hex(raw[8..40]), Hex(raw[40..72]), Hex(raw[72..88]), time, text,
                               Hex(raw[|raw| - 64..]), kind.OldRecord?))
  }

  /** What a native record looks like to the managed side. */
  function Managed(r: HistoryRecord, historical: bool): ChannelRecord {
    ChannelRecord(Hex(r.author), Hex(r.room), Hex(r.id), r.sentAt, Utf16(r.text), Hex(r.signature), historical)
  }

  lemma {:induction false} DecodedIsEmpty(raw: Bytes)
    requires Decode(raw).Some?
    ensures Decode(raw).value == [] <==> raw == []
    ensures Encode(Decode(raw).value) == raw
  {
    EncodeOfDecode(raw);
  }

  /**
   The managed parser is the native one without the cryptography: with the event's peer set to the
   bytes' author, it returns the same fields exactly when those bytes pass every structural check,
   and what is left for the native side to decide is the room, the key and the signature.
   */
  lemma ParsersAgree(c: Crypto, room: Bytes, raw: Bytes, kind: EventKind)
    requires !kind.OtherEvent? && |raw| >= HEADER + SIGNATURE
    ensures Verify(c, room, raw).Some? <==>
      && FromNativeEvent(kind, raw[8..40], raw).Some? && raw[40..72] == room && c.validKey(raw[8..40])
      && c.verifies(raw[8..40], DOMAIN + raw[..|raw| - SIGNATURE], raw[|raw| - SIGNATURE..])
    ensures Verify(c, room, raw).Some? ==>
      FromNativeEvent(kind, raw[8..40], raw) == Some(Managed(Verify(c, room, raw).value, kind.OldRecord?))
  {
    var length := U16At(raw, 96);
    if |raw| == HEADER + length + SIGNATURE {
      var text := Decode(raw[HEADER..HEADER + length]);
      if text.Some? {
        DecodedIsEmpty(raw[HEADER..HEADER + length]);
        Utf16KeepsControls(text.value);
      }
    }
  }

  /** For every accepted record and either event, both sides hold the same record. */
  lemma AcceptedRecordsArrive(c: Crypto, room: Bytes, r: HistoryRecord, kind: EventKind)
    requires Verify(c, room, r.encoded) == Some(r) && !kind.OtherEvent?
    ensures FromNativeEvent(kind, r.author, r.encoded) == Some(Managed(r, kind.OldRecord?))
  {
    ParsersAgree(c, room, r.encoded, kind);
  }

  // ------------------------------------------------------------ the same order on both sides

  lemma DigitKeepsOrder(a: nat, b: nat)
    requires a < 16 && b < 16
    ensures Digit(a) < Digit(b) <==> a < b
  {
  }

  /** Comparing hexadecimal texts by ordinal is comparing the bytes. */
  lemma {:induction false} HexKeepsOrder(a: Bytes, b: Bytes)
    ensures LexLess(Hex(a), Hex(b)) <==> LexLess(a, b)
    ensures Hex(a) == Hex(b) <==> a == b
  {
    if a != [] && b != [] {
      HexKeepsOrder(a[1..], b[1..]);
      HexHeads(a, b);
      assert a == [a[0]] + a[1..] && b == [b[0]] + b[1..];
    }
  }

  lemma {:induction false} HexHeads(a: Bytes, b: Bytes)
    requires a != [] && b != []
    ensures LexLess(Hex(a), Hex(b)) <==> a[0] < b[0] || (a[0] == b[0] && LexLess(Hex(a[1..]), Hex(b[1..])))
    ensures Hex(a) == Hex(b) <==> a[0] == b[0] && Hex(a[1..]) == Hex(b[1..])
  {
    var x, y := Hex(a), Hex(b);
    assert x[1..][1..] == Hex(a[1..]) && y[1..][1..] == Hex(b[1..]);
    assert x == [x[0], x[1]] + Hex(a[1..]) && y == [y[0], y[1]] + Hex(b[1..]);
    assert x[1..][0] == x[1] && y[1..][0] == y[1];
    DigitKeepsOrder(a[0] / 16, b[0] / 16);
    DigitKeepsOrder(b[0] / 16, a[0] / 16);
    DigitKeepsOrder(a[0] % 16, b[0] % 16);
    DigitKeepsOrder(b[0] % 16, a[0] % 16);
    assert a[0] == 16 * (a[0] / 16) + a[0] % 16 && b[0] == 16 * (b[0] / 16) + b[0] % 16;
  }
}
