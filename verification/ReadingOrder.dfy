/**
 The order records are read in (crates/lantern-core/src/channel_history.rs:162-170, 183, 229): the
 byte order of the big-endian time, author, id and signature written one after the other, oldest
 first.
 */
module ReadingOrder {
  import opened ByteStrings
  import opened Results
  import opened Ranking
  import opened ChannelHistory
  import opened Snapshots

  function SortKey(r: HistoryRecord): Bytes
    requires 0 <= r.sentAt
  {
    BigEndian(r.sentAt, 8) + r.author + r.id + r.signature
  }

  lemma {:induction false} LexConcat(a: Bytes, b: Bytes, x: Bytes, y: Bytes)
    requires |a| == |b|
    ensures LexLess(a + x, b + y) <==> LexLess(a, b) || (a == b && LexLess(x, y))
  {
    if a == [] {
      assert a + x == x && b + y == y;
    } else {
      LexConcat(a[1..], b[1..], x, y);
      assert (a + x)[1..] == a[1..] + x && (b + y)[1..] == b[1..] + y;
      assert a == [a[0]] + a[1..] && b == [b[0]] + b[1..];
    }
  }

  lemma LexOne(a: byte, b: byte)
    ensures LexLess([a], [b]) <==> a < b
  {
    assert [a][1..] == [] && [b][1..] == [];
  }

  /** Big-endian numbers of one width compare as their bytes do. */
  lemma {:induction false} BigEndianKeepsOrder(m: nat, n: nat, width: nat)
    requires m < Pow256(width) && n < Pow256(width)
    ensures LexLess(BigEndian(m, width), BigEndian(n, width)) <==> m < n
    ensures BigEndian(m, width) == BigEndian(n, width) <==> m == n
  {
    NumberOfBigEndian(m, width);
    NumberOfBigEndian(n, width);
    if width > 0 {
      BigEndianKeepsOrder(m / 256, n / 256, width - 1);
      LexConcat(BigEndian(m / 256, width - 1), BigEndian(n / 256, width - 1), [m % 256], [n % 256]);
      LexOne(m % 256, n % 256);
    }
  }

  /** A record whose fields have their widths. */
  predicate Sized(r: HistoryRecord) {
    0 <= r.sentAt < I64_LIMIT && |r.author| == 32 && |r.id| == 16 && |r.signature| == SIGNATURE
  }

  lemma OrderIsByteOrder(a: HistoryRecord, b: HistoryRecord)
    requires Sized(a) && Sized(b)
    ensures RecordLess(a, b) <==> LexLess(SortKey(a), SortKey(b))
  {
    Powers();
    BigEndianKeepsOrder(a.sentAt, b.sentAt, 8);
    var t, u := BigEndian(a.sentAt, 8), BigEndian(b.sentAt, 8);
    LexConcat(t + a.author + a.id, u + b.author + b.id, a.signature, b.signature);
    LexConcat(t + a.author, u + b.author, a.id, b.id);
    LexConcat(t, u, a.author, b.author);
    SameParts(t, a.author, u, b.author);
    SameParts(t + a.author, a.id, u + b.author, b.id);
  }

  lemma SameParts(a: Bytes, x: Bytes, b: Bytes, y: Bytes)
    requires |a| == |b|
    ensures a + x == b + y <==> a == b && x == y
  {
    if a + x == b + y { assert a == (a + x)[..|a|] && x == (a + x)[|a|..]; }
  }

  lemma VerifiedIsSized(c: Crypto, room: Bytes, b: Bytes)
    requires Verify(c, room, b).Some?
    ensures Sized(Verify(c, room, b).value)
  {
    VerifyIsGenuine(c, room, b);
  }

  /** What is read, from a snapshot or the table, is oldest first: strictly ascending in that byte order. */
  lemma {:induction false} ReadInOrder(c: Crypto, room: Bytes, raws: seq<Bytes>, i: nat, j: nat)
    requires i < j < |Kept(Reader(c, room), raws)|
    ensures var kept := Kept(Reader(c, room), raws);
      && Sized(kept[i]) && Sized(kept[j])
      && LexLess(SortKey(kept[i]), SortKey(kept[j])) && kept[i].sentAt <= kept[j].sentAt
  {
    var read := Reader(c, room);
    var kept := Kept(read, raws);
    KeptIsCanonical(read, raws);
    UniqueFacts(read, raws);
    assert kept[i] in Elements(kept) && kept[j] in Elements(kept);
    VerifiedIsSized(c, room, kept[i].encoded);
    VerifiedIsSized(c, room, kept[j].encoded);
    OrderIsByteOrder(kept[i], kept[j]);
  }

  /** The record at `i` is the first with its signature. */
  ghost predicate FirstAt(rs: seq<HistoryRecord>, i: nat, r: HistoryRecord) {
    i < |rs| && rs[i] == r && forall j | 0 <= j < i :: rs[j].signature != r.signature
  }

  /** Of records with one signature the first is kept. */
  lemma {:induction false} FirstIsKept(rs: seq<HistoryRecord>, r: HistoryRecord)
    ensures r in Dedupe(rs) <==> exists i: nat :: FirstAt(rs, i, r)
  {
    if rs != [] {
      var front, last := rs[..|rs| - 1], rs[|rs| - 1];
      FirstIsKept(front, r);
      assert rs == front + [last];
      DedupeStep(front, last);
      if exists i: nat :: FirstAt(front, i, r) {
        var i: nat :| FirstAt(front, i, r);
        assert FirstAt(rs, i, r);
      }
      if exists i: nat :: FirstAt(rs, i, r) {
        var i: nat :| FirstAt(rs, i, r);
        if i < |front| { assert FirstAt(front, i, r); } else { NoneBefore(rs, r); }
      }
      if r == last && last.signature !in Signatures(front) {
        assert forall j | 0 <= j < |front| :: rs[j] == front[j] && front[j] in front;
        assert FirstAt(rs, |front|, r);
      }
    }
  }

  lemma NoneBefore(rs: seq<HistoryRecord>, r: HistoryRecord)
    requires rs != [] && FirstAt(rs, |rs| - 1, r)
    ensures r.signature !in Signatures(rs[..|rs| - 1])
  {
  }
}
