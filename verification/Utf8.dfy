/** UTF-8 as section 3 of RFC 3629 defines it, and the UTF-16 form the managed side holds. */
module Utf8 {
  import opened ByteStrings
  import opened Results

  type Scalar = n: int | 0 <= n < 0xD800 || 0xE000 <= n <= 0x10FFFF

  function EncodeOne(c: Scalar): (b: Bytes)
    ensures 1 <= |b| <= 4
  {
    if c < 0x80 then [c]
    else if c < 0x800 then [0xC0 + c / 64, 0x80 + c % 64]
    else if c < 0x10000 then [0xE0 + c / 64 / 64, 0x80 + c / 64 % 64, 0x80 + c % 64]
    else [0xF0 + c / 64 / 64 / 64, 0x80 + c / 64 / 64 % 64, 0x80 + c / 64 % 64, 0x80 + c % 64]
  }

  function Encode(text: seq<Scalar>): Bytes {
    if text == [] then [] else EncodeOne(text[0]) + Encode(text[1..])
  }

  predicate Continuation(b: byte) {
    0x80 <= b < 0xC0
  }

  datatype Head = Head(scalar: Scalar, size: nat)

  /** Appends six payload bits to a partly decoded scalar. */
  function Shift(high: int, low: int): int {
    high * 64 + (low - 0x80)
  }

  /** The first scalar and its length; None for a stray, truncated, overlong, surrogate or out-of-range form. */
  function DecodeOne(b: Bytes): (r: Option<Head>)
    requires b != []
    ensures r.Some? ==> 1 <= r.value.size <= |b|
  {
    var lead: int := b[0];
    if lead < 0x80 then Some(Head(lead, 1))
    else if 0xC2 <= lead <= 0xDF && |b| >= 2 && Continuation(b[1]) then
      Some(Head(Shift(lead - 0xC0, b[1]), 2))
    else if 0xE0 <= lead <= 0xEF && |b| >= 3 && Continuation(b[1]) && Continuation(b[2]) then
      var c := Shift(Shift(lead - 0xE0, b[1]), b[2]);
      if c < 0x800 || 0xD800 <= c < 0xE000 then None else Some(Head(c, 3))
    else if 0xF0 <= lead <= 0xF4 && |b| >= 4 && Continuation(b[1]) && Continuation(b[2]) && Continuation(b[3]) then
      var c := Shift(Shift(Shift(lead - 0xF0, b[1]), b[2]), b[3]);
      if c < 0x10000 || c > 0x10FFFF then None else Some(Head(c, 4))
    else None
  }

  function Decode(b: Bytes): Option<seq<Scalar>> {
    if b == [] then Some([])
    else
      match DecodeOne(b)
      case None => None
      case Some(head) =>
        match Decode(b[head.size..])
        case None => None
        case Some(rest) => Some([head.scalar] + rest)
  }

  lemma DecodeOneOfEncodeOne(c: Scalar, tail: Bytes)
    ensures DecodeOne(EncodeOne(c) + tail) == Some(Head(c, |EncodeOne(c)|))
  {
    var b := EncodeOne(c) + tail;
    assert forall i | 0 <= i < |EncodeOne(c)| :: b[i] == EncodeOne(c)[i];
  }

  lemma Unshift(high: nat, low: byte)
    requires Continuation(low)
    ensures Shift(high, low) / 64 == high && Shift(high, low) % 64 == low - 0x80
  {
  }

  lemma EncodeOneOfDecodeOne(b: Bytes)
    requires b != [] && DecodeOne(b).Some?
    ensures EncodeOne(DecodeOne(b).value.scalar) == b[..DecodeOne(b).value.size]
  {
    var size := DecodeOne(b).value.size;
    if size == 2 {
      Unshift(b[0] - 0xC0, b[1]);
    } else if size == 3 {
      Unshift(b[0] - 0xE0, b[1]);
      Unshift(Shift(b[0] - 0xE0, b[1]), b[2]);
    } else if size == 4 {
      Unshift(b[0] - 0xF0, b[1]);
      Unshift(Shift(b[0] - 0xF0, b[1]), b[2]);
      Unshift(Shift(Shift(b[0] - 0xF0, b[1]), b[2]), b[3]);
    }
  }

  lemma {:induction false} DecodeOfEncode(text: seq<Scalar>)
    ensures Decode(Encode(text)) == Some(text)
  {
    if text != [] {
      var one := EncodeOne(text[0]);
      DecodeOneOfEncodeOne(text[0], Encode(text[1..]));
      assert Encode(text)[|one|..] == Encode(text[1..]);
      DecodeOfEncode(text[1..]);
      assert text == [text[0]] + text[1..];
    }
  }

  lemma {:induction false} EncodeStep(b: Bytes, head: Head, rest: seq<Scalar>)
    requires b != [] && DecodeOne(b) == Some(head) && Encode(rest) == b[head.size..]
    ensures Encode([head.scalar] + rest) == b
  {
    EncodeOneOfDecodeOne(b);
    assert ([head.scalar] + rest)[1..] == rest;
    assert b == b[..head.size] + b[head.size..];
  }

  /** Only one byte string spells a text: the strict decoder accepts nothing but the encoder's output. */
  lemma {:induction false} EncodeOfDecode(b: Bytes)
    requires Decode(b).Some?
    ensures Encode(Decode(b).value) == b
  {
    if b != [] {
      var head := DecodeOne(b).value;
      EncodeOfDecode(b[head.size..]);
      EncodeStep(b, head, Decode(b[head.size..]).value);
    }
  }

  /** char::is_control and char.IsControl: the Cc category, on a scalar or on a UTF-16 unit. */
  predicate IsControl(c: int) {
    0 <= c < 0x20 || 0x7F <= c < 0xA0
  }

  const NEWLINE: int := 10

  predicate HasControl(units: seq<int>) {
    exists i :: 0 <= i < |units| && IsControl(units[i]) && units[i] != NEWLINE
  }

  function Utf16One(c: Scalar): (units: seq<int>) {
    if c < 0x10000 then [c]
    else [0xD800 + (c - 0x10000) / 0x400, 0xDC00 + (c - 0x10000) % 0x400]
  }

  function Utf16(text: seq<Scalar>): seq<int> {
    if text == [] then [] else Utf16One(text[0]) + Utf16(text[1..])
  }

  lemma HasControlOfConcat(a: seq<int>, b: seq<int>)
    ensures HasControl(a + b) <==> HasControl(a) || HasControl(b)
  {
    if HasControl(a) {
      var i :| 0 <= i < |a| && IsControl(a[i]) && a[i] != NEWLINE;
      assert (a + b)[i] == a[i];
    }
    if HasControl(b) {
      var i :| 0 <= i < |b| && IsControl(b[i]) && b[i] != NEWLINE;
      assert (a + b)[|a| + i] == b[i];
    }
  }

  /** A control character is never spelled with surrogates, so both runtimes screen the same texts. */
  lemma {:induction false} Utf16KeepsControls(text: seq<Scalar>)
    ensures HasControl(Utf16(text)) <==> HasControl(text)
  {
    if text != [] {
      Utf16KeepsControls(text[1..]);
      HasControlOfConcat(Utf16One(text[0]), Utf16(text[1..]));
      HasControlOfConcat([text[0]], text[1..]);
      assert text == [text[0]] + text[1..];
      var units, one := Utf16One(text[0]), [text[0]];
      assert HasControl(units) <==> HasControl(one) by {
        assert text[0] < 0x10000 ==> units == one;
        assert one[0] == text[0];
      }
    }
  }
}
