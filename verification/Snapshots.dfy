/**
 Bounded snapshots of signed records (crates/lantern-core/src/channel_history.rs:162-231).

 `Snapshot` and `ReadSnapshot` are the source's loops; each is proved against a function that
 frames, or unframes, whole entries. The theorems say that snapshots are canonical and round-trip.
 */
module Snapshots {
  import opened ByteStrings
  import opened Results
  import opened Ranking
  import opened ChannelHistory

  // ------------------------------------------------------------ order and duplicates

  /** (claimed time, author, id, signature), each compared bytewise. */
  predicate RecordLess(a: HistoryRecord, b: HistoryRecord) {
    a.sentAt < b.sentAt || (a.sentAt == b.sentAt &&
      (LexLess(a.author, b.author) || (a.author == b.author &&
        (LexLess(a.id, b.id) || (a.id == b.id && LexLess(a.signature, b.signature))))))
  }

  lemma RecordLessIsStrict()
    ensures StrictOrder(RecordLess)
  {
    LexOrder();
  }

  ghost predicate SignaturesDiffer(s: seq<HistoryRecord>) {
    forall i, j | 0 <= i < j < |s| :: s[i].signature != s[j].signature
  }

  lemma DifferentSignaturesAreOrdered(s: seq<HistoryRecord>)
    requires SignaturesDiffer(s)
    ensures TotalOn(RecordLess, Elements(s)) && Distinct(s)
  {
    forall x, y | x in Elements(s) && y in Elements(s) && x != y
      ensures RecordLess(x, y) || RecordLess(y, x)
    {
      LexTotal(x.author, y.author);
      LexTotal(x.id, y.id);
      LexTotal(x.signature, y.signature);
    }
  }

  /** The entries that verify in this room, in order. */
  function Verified(read: Reading, raws: seq<Bytes>): seq<HistoryRecord> {
    if raws == [] then []
    else
      var last := read(raws[|raws| - 1]);
      Verified(read, raws[..|raws| - 1]) + if last.Some? then [last.value] else []
  }

  /** Keeps the first record of each signature. */
  function Dedupe(rs: seq<HistoryRecord>): seq<HistoryRecord> {
    if rs == [] then []
    else
      var front, last := rs[..|rs| - 1], rs[|rs| - 1];
      Dedupe(front) + if last.signature in Signatures(front) then [] else [last]
  }

  lemma {:induction false} VerifiedStep(read: Reading, raws: seq<Bytes>, raw: Bytes)
    ensures Verified(read, raws + [raw]) ==
      Verified(read, raws) + if read(raw).Some? then [read(raw).value] else []
  {
    assert (raws + [raw])[..|raws|] == raws;
  }

  lemma {:induction false} DedupeStep(rs: seq<HistoryRecord>, r: HistoryRecord)
    ensures Dedupe(rs + [r]) == Dedupe(rs) + if r.signature in Signatures(rs) then [] else [r]
    ensures Signatures(rs + [r]) == Signatures(rs) + {r.signature}
  {
    assert (rs + [r])[..|rs|] == rs;
  }

  lemma {:induction false} VerifiedElements(read: Reading, raws: seq<Bytes>, r: HistoryRecord)
    ensures r in Verified(read, raws) <==> r.encoded in raws && read(r.encoded) == Some(r)
    ensures |Verified(read, raws)| <= |raws|
  {
    if raws != [] {
      VerifiedElements(read, raws[..|raws| - 1], r);
      assert raws == raws[..|raws| - 1] + [raws[|raws| - 1]];
    }
  }

  lemma NewSignature(d: seq<HistoryRecord>, r: HistoryRecord)
    requires SignaturesDiffer(d) && r.signature !in Signatures(d)
    ensures SignaturesDiffer(d + [r]) && Signatures(d + [r]) == Signatures(d) + {r.signature}
    ensures Elements(d + [r]) == Elements(d) + {r}
  {
    DedupeStep(d, r);
    forall i | 0 <= i < |d| ensures d[i].signature != r.signature { assert d[i] in d; }
  }

  lemma {:induction false} DedupeKeepsEachSignatureOnce(rs: seq<HistoryRecord>)
    ensures SignaturesDiffer(Dedupe(rs)) && Signatures(Dedupe(rs)) == Signatures(rs)
    ensures Elements(Dedupe(rs)) <= Elements(rs) && |Dedupe(rs)| <= |rs|
  {
    if rs != [] {
      var front, last := rs[..|rs| - 1], rs[|rs| - 1];
      DedupeKeepsEachSignatureOnce(front);
      DedupeStep(front, last);
      assert rs == front + [last];
      assert Elements(rs) == Elements(front) + {last};
      if last.signature !in Signatures(front) { NewSignature(Dedupe(front), last); }
    }
  }

  function Unique(read: Reading, raws: seq<Bytes>): seq<HistoryRecord> {
    Dedupe(Verified(read, raws))
  }

  /** No two records left share a signature, and every one of them is a verified entry. */
  lemma {:induction false} UniqueFacts(read: Reading, raws: seq<Bytes>)
    ensures var unique := Unique(read, raws);
      && SignaturesDiffer(unique) && |unique| <= |raws|
      && Signatures(unique) == Signatures(Verified(read, raws))
      && forall r | r in Elements(unique) :: r.encoded in raws && read(r.encoded) == Some(r)
  {
    var all := Verified(read, raws);
    DedupeKeepsEachSignatureOnce(all);
    forall r | r in Elements(Dedupe(all))
      ensures r.encoded in raws && read(r.encoded) == Some(r)
    {
      assert r in Elements(all);
      VerifiedElements(read, raws, r);
    }
    if all != [] { VerifiedElements(read, raws, all[0]); }
  }

  /** One turn of either loop: push the record unless it fails to verify or its signature was seen. */
  lemma UniqueStep(read: Reading, raws: seq<Bytes>, raw: Bytes, unique: seq<HistoryRecord>, seen: set<Bytes>)
    requires unique == Unique(read, raws) && seen == Signatures(unique)
    ensures read(raw).None? ==> Unique(read, raws + [raw]) == unique
    ensures read(raw).Some? && read(raw).value.signature in seen ==> Unique(read, raws + [raw]) == unique
    ensures read(raw).Some? && read(raw).value.signature !in seen ==>
      && Unique(read, raws + [raw]) == unique + [read(raw).value]
      && Signatures(unique + [read(raw).value]) == seen + {read(raw).value.signature}
  {
    VerifiedStep(read, raws, raw);
    DedupeKeepsEachSignatureOnce(Verified(read, raws));
    if read(raw).Some? {
      DedupeStep(Verified(read, raws), read(raw).value);
      DedupeStep(unique, read(raw).value);
    } else {
      assert Verified(read, raws) + [] == Verified(read, raws);
    }
  }

  function Signatures(rs: seq<HistoryRecord>): set<Bytes> {
    set r | r in rs :: r.signature
  }

  /** What both directions of the exchange keep of a list of raw entries. */
  function Kept(read: Reading, raws: seq<Bytes>): (kept: seq<HistoryRecord>)
    ensures |kept| <= |raws| && Framable(Encodings(kept))
  {
    var unique := Unique(read, raws);
    var kept := Sort(unique, RecordLess);
    UniqueFacts(read, raws);
    SameElements(unique, kept);
    assert forall i | 0 <= i < |kept| :: kept[i] in Elements(kept);
    kept
  }

  lemma KeptIsCanonical(read: Reading, raws: seq<Bytes>)
    ensures var kept := Kept(read, raws);
      Ascending(kept, RecordLess) && SignaturesDiffer(kept) && Elements(kept) == Elements(Unique(read, raws))
  {
    var d := Unique(read, raws);
    UniqueFacts(read, raws);
    DifferentSignaturesAreOrdered(d);
    RecordLessIsStrict();
    SortAscending(d, RecordLess);
    SameElements(d, Sort(d, RecordLess));
    SortKeepsSignaturesApart(d);
  }

  lemma {:induction false} SortKeepsSignaturesApart(d: seq<HistoryRecord>)
    requires SignaturesDiffer(d)
    ensures SignaturesDiffer(Sort(d, RecordLess))
  {
    var s := Sort(d, RecordLess);
    DifferentSignaturesAreOrdered(d);
    RecordLessIsStrict();
    SortAscending(d, RecordLess);
    SameElements(d, s);
    forall i, j | 0 <= i < j < |s|
      ensures s[i].signature != s[j].signature
    {
      assert RecordLess(s[i], s[j]) && s[i] in Elements(d) && s[j] in Elements(d);
      var a :| 0 <= a < |d| && d[a] == s[i];
      var b :| 0 <= b < |d| && d[b] == s[j];
      assert a != b by { LexOrder(); }
    }
  }

  // ------------------------------------------------------------ framing

  ghost predicate Framable(raws: seq<Bytes>) {
    forall i | 0 <= i < |raws| :: |raws[i]| <= MAX_RECORD_BYTES
  }

  function Frames(raws: seq<Bytes>): Bytes
    requires Framable(raws)
  {
    if raws == [] then []
    else Frames(raws[..|raws| - 1]) + U16(|raws[|raws| - 1]|) + raws[|raws| - 1]
  }

  function Encodings(rs: seq<HistoryRecord>): (raws: seq<Bytes>)
    ensures |raws| == |rs| && forall i | 0 <= i < |rs| :: raws[i] == rs[i].encoded
  {
    if rs == [] then [] else Encodings(rs[..|rs| - 1]) + [rs[|rs| - 1].encoded]
  }

  function SnapshotBytes(read: Reading, room: Bytes, raws: seq<Bytes>): Bytes
    requires |raws| <= MAX_RECORDS
  {
    var kept := Kept(read, raws);
    SNAPSHOT_MAGIC + room + U16(|kept|) + Frames(Encodings(kept))
  }

  /** The end of the length-prefixed entry at `pos`. */
  function Next(b: Bytes, pos: nat): (r: Option<nat>)
    ensures r.Some? ==> pos + 2 <= r.value <= |b|
  {
    if pos + 2 > |b| then None
    else
      var length := U16At(b, pos);
      if length > MAX_RECORD_BYTES || pos + 2 + length > |b| then None else Some(pos + 2 + length)
  }

  /** Where `count` entries end, if that many are framed. */
  function Scan(b: Bytes, count: nat): (r: Option<nat>)
    requires SNAPSHOT_HEADER <= |b|
    ensures r.Some? ==> SNAPSHOT_HEADER <= r.value <= |b|
  {
    if count == 0 then Some(SNAPSHOT_HEADER)
    else if Scan(b, count - 1).None? then None
    else Next(b, Scan(b, count - 1).value)
  }

  function Entries(b: Bytes, count: nat): (raws: seq<Bytes>)
    requires SNAPSHOT_HEADER <= |b| && Scan(b, count).Some?
  {
    if count == 0 then []
    else Entries(b, count - 1) + [b[Scan(b, count - 1).value + 2..Scan(b, count).value]]
  }

  lemma {:induction false} ScanFails(b: Bytes, some: nat, count: nat)
    requires SNAPSHOT_HEADER <= |b| && some <= count && Scan(b, some).None?
    ensures Scan(b, count).None?
  {
    if some < count { ScanFails(b, some, count - 1); }
  }

  lemma EntriesStep(b: Bytes, i: nat, pos: nat, next: nat)
    requires SNAPSHOT_HEADER <= |b| && Scan(b, i) == Some(pos) && Next(b, pos) == Some(next)
    ensures Scan(b, i + 1) == Some(next) && Entries(b, i + 1) == Entries(b, i) + [b[pos + 2..next]]
  {
  }

  function Opened(read: Reading, room: Bytes, b: Bytes): Option<seq<HistoryRecord>> {
    if |b| < SNAPSHOT_HEADER || |b| > MAX_SNAPSHOT_BYTES || b[..8] != SNAPSHOT_MAGIC || b[8..40] != room then None
    else if U16At(b, 40) > MAX_RECORDS then None
    else
      var count := U16At(b, 40);
      if Scan(b, count) == Some(|b|) then Some(Kept(read, Entries(b, count))) else None
  }

  // ------------------------------------------------------------ the two loops

  /** Pushes what a raw entry verifies to, unless its signature was seen. */
  method PushUnique(read: Reading, ghost raws: seq<Bytes>, raw: Bytes, unique: seq<HistoryRecord>, seen: set<Bytes>)
    returns (records: seq<HistoryRecord>, signatures: set<Bytes>)
    requires unique == Unique(read, raws) && seen == Signatures(unique)
    ensures records == Unique(read, raws + [raw]) && signatures == Signatures(records)
  {
    UniqueStep(read, raws, raw, unique, seen);
    records, signatures := unique, seen;
    var r := read(raw);
    if r.Some? && r.value.signature !in seen {
      signatures := signatures + {r.value.signature};
      records := records + [r.value];
    }
  }

  method Collect(read: Reading, records: seq<Bytes>) returns (valid: seq<HistoryRecord>)
    ensures valid == Unique(read, records)
  {
    var seen: set<Bytes> := {};
    valid := [];
    for i := 0 to |records|
      invariant valid == Unique(read, records[..i])
      invariant seen == Signatures(valid)
    {
      assert records[..i + 1] == records[..i] + [records[i]];
      valid, seen := PushUnique(read, records[..i], records[i], valid, seen);
    }
    assert records[..|records|] == records;
  }

  method WriteFrames(header: Bytes, records: seq<HistoryRecord>) returns (out: Bytes)
    requires Framable(Encodings(records))
    ensures out == header + Frames(Encodings(records))
  {
    out := header;
    ghost var entries := Encodings(records);
    for i := 0 to |records|
      invariant out == header + Frames(entries[..i])
    {
      FramesStep(entries, i);
      out := out + U16(|records[i].encoded|) + records[i].encoded;
    }
    assert entries[..|records|] == entries;
  }

  lemma FramesStep(raws: seq<Bytes>, i: nat)
    requires Framable(raws) && i < |raws|
    ensures Frames(raws[..i + 1]) == Frames(raws[..i]) + U16(|raws[i]|) + raws[i]
  {
    assert raws[..i + 1][..i] == raws[..i];
  }

  method Snapshot(c: Crypto, room: Bytes, records: seq<Bytes>) returns (out: Result<Bytes>)
    ensures out == if |records| > MAX_RECORDS then Err(TooLarge) else Ok(SnapshotBytes(Reader(c, room), room, records))
  {
    if |records| > MAX_RECORDS { return Err(TooLarge); }
    var valid := Collect(Reader(c, room), records);
    valid := Sort(valid, RecordLess);
    assert valid == Kept(Reader(c, room), records);
    var bytes := WriteFrames(SNAPSHOT_MAGIC + room + U16(|valid|), valid);
    out := Ok(bytes);
  }

  /** The entry loop: malformed framing rejects everything, entries that fail to verify are skipped. */
  method ReadEntries(read: Reading, bytes: Bytes, count: nat) returns (out: Option<seq<HistoryRecord>>)
    requires SNAPSHOT_HEADER <= |bytes|
    ensures out == if Scan(bytes, count) == Some(|bytes|) then Some(Unique(read, Entries(bytes, count))) else None
  {
    var pos := SNAPSHOT_HEADER;
    var records: seq<HistoryRecord> := [];
    var seen: set<Bytes> := {};
    for i := 0 to count
      invariant Scan(bytes, i) == Some(pos)
      invariant records == Unique(read, Entries(bytes, i)) && seen == Signatures(records)
    {
      var next := Next(bytes, pos);
      if next.None? {
        ScanFails(bytes, i + 1, count);
        return None;
      }
      EntriesStep(bytes, i, pos, next.value);
      var raw := bytes[pos + 2..next.value];
      records, seen := PushUnique(read, Entries(bytes, i), raw, records, seen);
      pos := next.value;
    }
    if pos != |bytes| { return None; }
    out := Some(records);
  }

  method ReadSnapshot(c: Crypto, room: Bytes, bytes: Bytes) returns (out: Option<seq<HistoryRecord>>)
    ensures out == Opened(Reader(c, room), room, bytes)
  {
    if |bytes| < SNAPSHOT_HEADER || |bytes| > MAX_SNAPSHOT_BYTES
      || bytes[..8] != SNAPSHOT_MAGIC || bytes[8..40] != room
    {
      return None;
    }
    var count := U16At(bytes, 40);
    if count > MAX_RECORDS { return None; }
    var records := ReadEntries(Reader(c, room), bytes, count);
    if records.None? { return None; }
    out := Some(Sort(records.value, RecordLess));
  }

  // ------------------------------------------------------------ theorems

  lemma {:induction false} FramesPrefix(raws: seq<Bytes>, n: nat) returns (tail: Bytes)
    requires Framable(raws) && n <= |raws|
    ensures Frames(raws) == Frames(raws[..n]) + tail
    decreases |raws|
  {
    if n == |raws| {
      tail := [];
      assert raws[..n] == raws;
    } else {
      var front := raws[..|raws| - 1];
      var more := FramesPrefix(front, n);
      assert front[..n] == raws[..n];
      tail := more + U16(|raws[|raws| - 1]|) + raws[|raws| - 1];
    }
  }

  lemma EntryAfter(front: Bytes, raw: Bytes, tail: Bytes, b: Bytes)
    requires |raw| <= MAX_RECORD_BYTES && b == front + U16(|raw|) + raw + tail
    ensures Next(b, |front|) == Some(|front| + 2 + |raw|)
    ensures b[|front| + 2..|front| + 2 + |raw|] == raw
  {
    assert b[|front|] == U16(|raw|)[0] && b[|front| + 1] == U16(|raw|)[1];
  }

  lemma {:induction false} EntryOfFrames(header: Bytes, raws: seq<Bytes>, b: Bytes, n: nat)
    requires Framable(raws) && n < |raws| && b == header + Frames(raws)
    ensures var pos, next := |header + Frames(raws[..n])|, |header + Frames(raws[..n + 1])|;
      Next(b, pos) == Some(next) && pos + 2 <= next <= |b| && b[pos + 2..next] == raws[n]
  {
    FramesStep(raws, n);
    var done := Frames(raws[..n]);
    var tail := FramesPrefix(raws, n + 1);
    assert b == (header + done) + U16(|raws[n]|) + raws[n] + tail;
    EntryAfter(header + done, raws[n], tail, b);
  }

  lemma OneMoreEntry(b: Bytes, raws: seq<Bytes>, n: nat, pos: nat, next: nat)
    requires SNAPSHOT_HEADER <= |b| && n < |raws|
    requires Scan(b, n) == Some(pos) && Entries(b, n) == raws[..n]
    requires Next(b, pos) == Some(next) && b[pos + 2..next] == raws[n]
    ensures Scan(b, n + 1) == Some(next) && Entries(b, n + 1) == raws[..n + 1]
  {
    EntriesStep(b, n, pos, next);
    assert raws[..n + 1] == raws[..n] + [raws[n]];
  }

  ghost predicate ScannedTo(header: Bytes, raws: seq<Bytes>, b: Bytes, n: nat)
    requires Framable(raws) && n <= |raws| && |header| == SNAPSHOT_HEADER <= |b|
  {
    Scan(b, n) == Some(|header + Frames(raws[..n])|) && Entries(b, n) == raws[..n]
  }

  lemma {:induction false} ScanNext(header: Bytes, raws: seq<Bytes>, b: Bytes, n: nat)
    requires Framable(raws) && n < |raws|
    requires |header| == SNAPSHOT_HEADER && b == header + Frames(raws) && ScannedTo(header, raws, b, n)
    ensures ScannedTo(header, raws, b, n + 1)
  {
    EntryOfFrames(header, raws, b, n);
    OneMoreEntry(b, raws, n, |header + Frames(raws[..n])|, |header + Frames(raws[..n + 1])|);
  }

  lemma {:induction false} ScanFrames(header: Bytes, raws: seq<Bytes>, b: Bytes, n: nat)
    requires Framable(raws) && n <= |raws|
    requires |header| == SNAPSHOT_HEADER && b == header + Frames(raws)
    ensures ScannedTo(header, raws, b, n)
  {
    if n > 0 {
      ScanFrames(header, raws, b, n - 1);
      ScanNext(header, raws, b, n - 1);
    }
  }

  lemma {:induction false} FramesSize(raws: seq<Bytes>)
    requires Framable(raws)
    ensures |Frames(raws)| <= 2212 * |raws|
  {
    if raws != [] { FramesSize(raws[..|raws| - 1]); }
  }

  /** Records read back from their own encodings, with nothing dropped or moved. */
  lemma {:induction false} ReadBack(read: Reading, rs: seq<HistoryRecord>)
    requires forall i | 0 <= i < |rs| :: read(rs[i].encoded) == Some(rs[i])
    ensures Verified(read, Encodings(rs)) == rs
  {
    if rs != [] {
      var last, rest := rs[|rs| - 1], rs[..|rs| - 1];
      ReadBack(read, rest);
      VerifiedStep(read, Encodings(rest), last.encoded);
      assert Encodings(rs) == Encodings(rest) + [last.encoded];
      assert rs == rest + [last];
    }
  }

  lemma LastIsNew(rs: seq<HistoryRecord>)
    requires rs != [] && SignaturesDiffer(rs)
    ensures rs[|rs| - 1].signature !in Signatures(rs[..|rs| - 1])
  {
  }

  lemma {:induction false} DedupeOfDistinct(rs: seq<HistoryRecord>)
    requires SignaturesDiffer(rs)
    ensures Dedupe(rs) == rs
  {
    if rs != [] {
      var last, rest := rs[|rs| - 1], rs[..|rs| - 1];
      DedupeOfDistinct(rest);
      assert rs == rest + [last];
      DedupeStep(rest, last);
      LastIsNew(rs);
    }
  }

  lemma HeaderFields(room: Bytes, count: nat, frames: Bytes)
    requires |room| == 32 && count <= MAX_RECORDS
    ensures var b := SNAPSHOT_MAGIC + room + U16(count) + frames;
      b[..8] == SNAPSHOT_MAGIC && b[8..40] == room && U16At(b, 40) == count
  {
    var b := SNAPSHOT_MAGIC + room + U16(count) + frames;
    assert b[..8] == SNAPSHOT_MAGIC && b[8..40] == room && b[40] == U16(count)[0] && b[41] == U16(count)[1];
  }

  /**
   A snapshot of at most 256 entries is within bounds and always reads back as exactly the
   verifying entries, deduplicated and sorted.
   */
  lemma SnapshotRoundTrip(read: Reading, room: Bytes, raws: seq<Bytes>)
    requires |room| == 32 && |raws| <= MAX_RECORDS
    ensures |SnapshotBytes(read, room, raws)| <= MAX_SNAPSHOT_BYTES
    ensures Opened(read, room, SnapshotBytes(read, room, raws)) == Some(Kept(read, raws))
  {
    var kept := Kept(read, raws);
    var entries := Encodings(kept);
    FramesSize(entries);
    HeaderFields(room, |kept|, Frames(entries));
    ScanFrames(SNAPSHOT_MAGIC + room + U16(|kept|), entries, SnapshotBytes(read, room, raws), |entries|);
    assert entries[..|entries|] == entries;
    KeptReadsBack(read, raws);
  }

  lemma KeptReadsBack(read: Reading, raws: seq<Bytes>)
    ensures Kept(read, Encodings(Kept(read, raws))) == Kept(read, raws)
  {
    var kept := Kept(read, raws);
    KeptIsCanonical(read, raws);
    UniqueFacts(read, raws);
    forall i | 0 <= i < |kept|
      ensures read(kept[i].encoded) == Some(kept[i])
    {
      assert kept[i] in Elements(kept);
    }
    ReadBack(read, kept);
    DedupeOfDistinct(kept);
    SortOfSorted(kept);
  }

  lemma {:induction false} SortOfSorted(s: seq<HistoryRecord>)
    requires Ascending(s, RecordLess) && SignaturesDiffer(s)
    ensures Sort(s, RecordLess) == s
  {
    RecordLessIsStrict();
    DifferentSignaturesAreOrdered(s);
    SortAscending(s, RecordLess);
    SameElements(s, Sort(s, RecordLess));
    AscendingIsUnique(s, Sort(s, RecordLess), RecordLess);
  }

  /** No two of the listed entries verify with the same signature unless they are the same bytes. */
  ghost predicate SignaturesIdentify(read: Reading, raws: set<Bytes>) {
    forall a, b | a in raws && b in raws && read(a).Some? && read(b).Some? ::
      read(a).value.signature == read(b).value.signature ==> a == b
  }

  lemma KeptElements(read: Reading, raws: seq<Bytes>, r: HistoryRecord)
    requires SignaturesIdentify(read, Elements(raws))
    ensures r in Elements(Kept(read, raws)) <==> r.encoded in raws && read(r.encoded) == Some(r)
  {
    var all := Verified(read, raws);
    VerifiedElements(read, raws, r);
    KeptIsCanonical(read, raws);
    UniqueFacts(read, raws);
    if r in all {
      assert r.signature in Signatures(Dedupe(all));
      var first :| first in Dedupe(all) && first.signature == r.signature;
      assert first in Elements(Dedupe(all));
      assert first.encoded in Elements(raws) && r.encoded in Elements(raws);
      assert first.encoded == r.encoded;
      assert first == r;
    }
  }

  /**
   Snapshots are canonical: any reordering and any repetition of the same entries gives the same
   bytes, whoever publishes them.
   */
  lemma SnapshotIsCanonical(read: Reading, room: Bytes, raws1: seq<Bytes>, raws2: seq<Bytes>)
    requires |raws1| <= MAX_RECORDS && |raws2| <= MAX_RECORDS
    requires Elements(raws1) == Elements(raws2) && SignaturesIdentify(read, Elements(raws1))
    ensures SnapshotBytes(read, room, raws1) == SnapshotBytes(read, room, raws2)
  {
    var k1, k2 := Kept(read, raws1), Kept(read, raws2);
    KeptIsCanonical(read, raws1);
    KeptIsCanonical(read, raws2);
    forall r
      ensures r in Elements(k1) <==> r in Elements(k2)
    {
      KeptElements(read, raws1, r);
      KeptElements(read, raws2, r);
      assert r.encoded in raws1 <==> r.encoded in Elements(raws1);
      assert r.encoded in raws2 <==> r.encoded in Elements(raws2);
    }
    RecordLessIsStrict();
    AscendingIsUnique(k1, k2, RecordLess);
  }
}
