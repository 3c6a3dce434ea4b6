/** Byte strings: fixed-width big-endian numbers and the ordering used by memcmp. */
module ByteStrings {

  type byte = x: int | 0 <= x < 256
  type Bytes = seq<byte>

  /** An ASCII literal such as b"LTHREC01". */
  function Ascii(s: string): (b: Bytes)
    requires forall i | 0 <= i < |s| :: s[i] < 128 as char
    ensures |b| == |s|
  {
    seq(|s|, i requires 0 <= i < |s| => s[i] as int)
  }

  function Pow256(width: nat): (p: nat)
    ensures p > 0
  {
    if width == 0 then 1 else 256 * Pow256(width - 1)
  }

  /** The number as `width` bytes, most significant first. */
  function BigEndian(n: nat, width: nat): (b: Bytes)
    ensures |b| == width
  {
    if width == 0 then [] else BigEndian(n / 256, width - 1) + [n % 256]
  }

  function Number(b: Bytes): (n: nat)
    ensures n < Pow256(|b|)
  {
    if b == [] then 0 else Number(b[..|b| - 1]) * 256 + b[|b| - 1]
  }

  lemma {:induction false} NumberOfBigEndian(n: nat, width: nat)
    requires n < Pow256(width)
    ensures Number(BigEndian(n, width)) == n
  {
    if width > 0 {
      NumberOfBigEndian(n / 256, width - 1);
      var b := BigEndian(n, width);
      assert b[..width - 1] == BigEndian(n / 256, width - 1);
    }
  }

  lemma {:induction false} BigEndianOfNumber(b: Bytes)
    ensures BigEndian(Number(b), |b|) == b
  {
    if b != [] {
      BigEndianOfNumber(b[..|b| - 1]);
      assert b == b[..|b| - 1] + [b[|b| - 1]];
    }
  }

  /** u16::to_be_bytes and its inverse, the latter at a position of a longer string. */
  function U16(n: nat): (b: Bytes)
    requires n < 0x1_0000
    ensures |b| == 2 && U16At(b, 0) == n
  {
    [n / 256, n % 256]
  }

  function U16At(b: Bytes, pos: nat): (n: nat)
    requires pos + 2 <= |b|
    ensures n < 0x1_0000
  {
    (b[pos] as int) * 256 + b[pos + 1]
  }

  lemma U16OfRead(b: Bytes, pos: nat)
    requires pos + 2 <= |b|
    ensures U16(U16At(b, pos)) == b[pos..pos + 2]
  {
    assert U16At(b, pos) / 256 == b[pos];
  }

  /** ReadUInt32BigEndian at a position. */
  function U32At(b: Bytes, pos: nat): (n: nat)
    requires pos + 4 <= |b|
    ensures n < 0x1_0000_0000
  {
    U16At(b, pos) * 0x1_0000 + U16At(b, pos + 2)
  }

  /** Both read what big-endian digits say. */
  lemma WidthsAreBigEndian(b: Bytes, pos: nat)
    ensures pos + 2 <= |b| ==> U16At(b, pos) == Number(b[pos..pos + 2])
    ensures pos + 4 <= |b| ==> U32At(b, pos) == Number(b[pos..pos + 4])
  {
    if pos + 2 <= |b| { NumberOfTwo(b[pos..pos + 2], 0); }
    if pos + 4 <= |b| {
      var c := b[pos..pos + 4];
      NumberOfTwo(c[..2], Number([]));
      assert c[..3][..2] == c[..2] && c[..4][..3] == c[..3] && c[..4] == c;
      assert Number(c) == (Number(c[..2]) * 256 + c[2]) * 256 + c[3];
    }
  }

  lemma {:induction false} NumberOfTwo(c: Bytes, zero: nat)
    requires |c| == 2 && zero == Number([])
    ensures Number(c) == (c[0] as int) * 256 + c[1]
  {
    assert c[..1][..0] == [] && c[..1] == [c[0]];
    assert Number(c[..1]) == zero * 256 + c[0];
  }

  lemma Powers()
    ensures Pow256(4) == 0x1_0000_0000
    ensures Pow256(8) == 0x1_0000_0000_0000_0000
  {
    assert Pow256(2) == 256 * 256 * Pow256(0);
    assert Pow256(4) == 256 * 256 * Pow256(2);
    assert Pow256(6) == 256 * 256 * Pow256(4);
    assert Pow256(8) == 256 * 256 * Pow256(6);
  }

  const I64_LIMIT: int := 0x8000_0000_0000_0000

  /** Two's complement reading of eight bytes, as i64::from_be_bytes and ReadInt64BigEndian do. */
  function SignedNumber(b: Bytes): (n: int)
    requires |b| == 8
    ensures -I64_LIMIT <= n < I64_LIMIT
  {
    Powers();
    if Number(b) < I64_LIMIT then Number(b) else Number(b) - 2 * I64_LIMIT
  }

  /** memcmp / StringComparer.Ordinal: the first difference decides, a proper prefix comes first. */
  predicate LexLess(a: seq<int>, b: seq<int>)
  {
    if b == [] then false
    else if a == [] then true
    else a[0] < b[0] || (a[0] == b[0] && LexLess(a[1..], b[1..]))
  }

  lemma {:induction false} LexIrreflexive(a: seq<int>)
    ensures !LexLess(a, a)
  {
    if a != [] { LexIrreflexive(a[1..]); }
  }

  lemma {:induction false} LexTransitive(a: seq<int>, b: seq<int>, c: seq<int>)
    requires LexLess(a, b) && LexLess(b, c)
    ensures LexLess(a, c)
  {
    if a != [] && a[0] == b[0] && b[0] == c[0] { LexTransitive(a[1..], b[1..], c[1..]); }
  }

  lemma {:induction false} LexTotal(a: seq<int>, b: seq<int>)
    ensures a == b || LexLess(a, b) || LexLess(b, a)
  {
    if a != [] && b != [] && a[0] == b[0] {
      LexTotal(a[1..], b[1..]);
      assert a == [a[0]] + a[1..] && b == [b[0]] + b[1..];
    }
  }

  lemma LexOrder()
    ensures forall a: seq<int> :: !LexLess(a, a)
    ensures forall a: seq<int>, b: seq<int>, c: seq<int> {:trigger LexLess(a, b), LexLess(b, c)} ::
      LexLess(a, b) && LexLess(b, c) ==> LexLess(a, c)
    ensures forall a: seq<int>, b: seq<int> {:trigger LexLess(a, b)} ::
      a == b || LexLess(a, b) || LexLess(b, a)
  {
    forall a: seq<int> ensures !LexLess(a, a) { LexIrreflexive(a); }
    forall a: seq<int>, b: seq<int>, c: seq<int> | LexLess(a, b) && LexLess(b, c) ensures LexLess(a, c) {
      LexTransitive(a, b, c);
    }
    forall a: seq<int>, b: seq<int> ensures a == b || LexLess(a, b) || LexLess(b, a) { LexTotal(a, b); }
  }

  // ------------------------------------------------------------ lists of pieces

  function Flatten(pieces: seq<Bytes>): Bytes {
    if pieces == [] then [] else pieces[0] + Flatten(pieces[1..])
  }

  lemma {:induction false} FlattenConcat(a: seq<Bytes>, b: seq<Bytes>)
    ensures Flatten(a + b) == Flatten(a) + Flatten(b)
  {
    if a == [] {
      assert a + b == b;
    } else {
      FlattenConcat(a[1..], b);
      assert (a + b)[0] == a[0] && (a + b)[1..] == a[1..] + b;
      Regroup(a[0], Flatten(a[1..]), Flatten(b));
    }
  }

  lemma FlattenOne(piece: Bytes)
    ensures Flatten([piece]) == piece
  {
  }

  lemma Regroup(a: Bytes, b: Bytes, c: Bytes)
    ensures a + (b + c) == (a + b) + c && |a + b| == |a| + |b|
  {
  }
}
