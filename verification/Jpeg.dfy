/**
 Admission of JPEG previews (src/XivLantern.Core/ImagePreview.cs:76-119).

 A segment is its whole byte string: the marker with its fill bytes, the length and the body
 (Annex B.1.1 of ITU-T T.81). The specification cuts the input into the segments up to the start
 of scan, says which lists and which entropy-coded tails are admissible, and which segments are
 kept. The source does all of it in one pass over a moving position.
 */
module Jpeg {
  import opened ByteStrings
  import opened Results
  import opened PreviewLimits

  const SOF0 := 0xC0
  const DHT := 0xC4
  const EOI := 0xD9
  const SOS := 0xDA
  const DQT := 0xDB
  const DRI := 0xDD
  const COM := 0xFE

  // ------------------------------------------------------------ cutting into segments

  /** Skips fill bytes: the first position from `pos` on that does not hold 0xFF. */
  function Unfilled(b: Bytes, pos: nat): (m: nat)
    requires pos <= |b|
    ensures pos <= m <= |b|
    decreases |b| - pos
  {
    if pos < |b| && b[pos] == 255 then Unfilled(b, pos + 1) else pos
  }

  lemma {:induction false} UnfilledSkips(b: Bytes, pos: nat)
    requires pos <= |b|
    ensures var m := Unfilled(b, pos);
      (m < |b| ==> b[m] != 255) && forall i | pos <= i < m :: b[i] == 255
    decreases |b| - pos
  {
    if pos < |b| && b[pos] == 255 { UnfilledSkips(b, pos + 1); }
  }

  lemma {:induction false} UnfilledIsUnique(b: Bytes, pos: nat, m: nat)
    requires pos <= m <= |b| && (m < |b| ==> b[m] != 255) && forall i | pos <= i < m :: b[i] == 255
    ensures Unfilled(b, pos) == m
    decreases |b| - pos
  {
    if pos < m { UnfilledIsUnique(b, pos + 1, m); }
  }

  /** Where a segment's marker byte is and where the segment ends. */
  datatype Extent = Extent(marker: nat, end: nat)

  function SegmentAt(b: Bytes, pos: nat): (r: Option<Extent>)
    ensures r.Some? ==> pos < r.value.marker && r.value.marker + 3 <= r.value.end <= |b|
  {
    if pos + 4 > |b| || b[pos] != 255 then None
    else
      var m := Unfilled(b, pos + 1);
      if m + 3 > |b| then None
      else
        var length := U16At(b, m + 1);
        if length < 2 || m + 1 + length > |b| then None else Some(Extent(m, m + 1 + length))
  }

  datatype Piece = Piece(raw: Bytes, markerPos: nat)

  type Segment = s: Piece | 1 <= s.markerPos && s.markerPos + 3 <= |s.raw|
    witness Piece([255, 0xFE, 0, 2], 1)

  /** The bytes are one complete segment with its marker where it says. */
  predicate Framed(s: Segment) {
    SegmentAt(s.raw, 0) == Some(Extent(s.markerPos, |s.raw|))
  }

  function Marker(s: Segment): byte {
    s.raw[s.markerPos]
  }

  /** The segment at `pos`. */
  function Cut(b: Bytes, pos: nat): (s: Segment)
    requires SegmentAt(b, pos).Some?
  {
    var at := SegmentAt(b, pos).value;
    Piece(b[pos..at.end], at.marker - pos)
  }

  /** From `pos` on, `b` holds these bytes. */
  predicate Holds(b: Bytes, pos: nat, part: Bytes) {
    pos + |part| <= |b| && forall i | 0 <= i < |part| :: b[pos + i] == part[i]
  }

  /** Where a segment stands does not matter to how it is read. */
  lemma SegmentMoves(b: Bytes, pos: nat, s: Segment)
    requires Holds(b, pos, s.raw) && Framed(s)
    ensures SegmentAt(b, pos) == Some(Extent(pos + s.markerPos, pos + |s.raw|)) && Cut(b, pos) == s
  {
    var m := s.markerPos;
    UnfilledSkips(s.raw, 1);
    forall i | pos + 1 <= i < pos + m ensures b[i] == 255 { assert b[i] == s.raw[i - pos]; }
    UnfilledIsUnique(b, pos + 1, pos + m);
    assert U16At(b, pos + m + 1) == U16At(s.raw, m + 1);
    assert b[pos..pos + |s.raw|] == s.raw;
  }

  lemma CutIsFramed(b: Bytes, pos: nat)
    requires SegmentAt(b, pos).Some?
    ensures Framed(Cut(b, pos))
  {
    var at, s := SegmentAt(b, pos).value, Cut(b, pos);
    UnfilledSkips(b, pos + 1);
    assert forall i | 0 <= i < |s.raw| :: s.raw[i] == b[pos + i];
    UnfilledIsUnique(s.raw, 1, s.markerPos);
    assert U16At(s.raw, s.markerPos + 1) == U16At(b, at.marker + 1);
  }

  function Joined(ss: seq<Segment>): Bytes {
    if ss == [] then [] else ss[0].raw + Joined(ss[1..])
  }

  lemma {:induction false} JoinedConcat(a: seq<Segment>, b: seq<Segment>)
    ensures Joined(a + b) == Joined(a) + Joined(b)
  {
    if a == [] {
      assert a + b == b;
    } else {
      JoinedConcat(a[1..], b);
      assert (a + b)[0] == a[0] && (a + b)[1..] == a[1..] + b;
      Regroup(a[0].raw, Joined(a[1..]), Joined(b));
    }
  }

  lemma JoinedOne(s: Segment)
    ensures Joined([s]) == s.raw
  {
  }

  /** The segments from `pos` up to and including the start of scan, and where the scan begins. */
  datatype Layout = Layout(segments: seq<Segment>, scan: nat)

  function Segments(b: Bytes, pos: nat): (r: Option<Layout>)
    ensures r.Some? ==> pos < r.value.scan <= |b| && r.value.segments != []
    decreases |b| - pos
  {
    if SegmentAt(b, pos).None? then None
    else
      var s := Cut(b, pos);
      if Marker(s) == SOS then Some(Layout([s], pos + |s.raw|)) else Prepend([s], Segments(b, pos + |s.raw|))
  }

  function Prepend(before: seq<Segment>, rest: Option<Layout>): Option<Layout> {
    if rest.None? then None else Some(Layout(before + rest.value.segments, rest.value.scan))
  }

  // ------------------------------------------------------------ admissible segments

  /** Baseline: eight bits, one or three components, bounded dimensions. */
  predicate FrameOk(s: Segment) {
    var body, size := s.markerPos + 3, |s.raw| - s.markerPos - 3;
    && size >= 6 && s.raw[body] == 8 && (s.raw[body + 5] == 1 || s.raw[body + 5] == 3) && size == 6 + 3 * s.raw[body + 5]
    && DimensionsOk(U16At(s.raw, body + 3), U16At(s.raw, body + 1))
  }

  /** One scan over the whole spectrum. */
  predicate ScanHeaderOk(s: Segment) {
    var body, size := s.markerPos + 3, |s.raw| - s.markerPos - 3;
    && size >= 4 && (s.raw[body] == 1 || s.raw[body] == 3) && size == 4 + 2 * s.raw[body]
    && s.raw[|s.raw| - 3] == 0 && s.raw[|s.raw| - 2] == 63 && s.raw[|s.raw| - 1] == 0
  }

  predicate IsMetadata(s: Segment) {
    0xE0 <= Marker(s) <= 0xEF || Marker(s) == COM
  }

  predicate HasFrame(before: seq<Segment>) {
    exists i :: 0 <= i < |before| && Marker(before[i]) == SOF0
  }

  predicate SegmentOk(before: seq<Segment>, s: Segment) {
    if Marker(s) == SOF0 then !HasFrame(before) && FrameOk(s)
    else IsMetadata(s) || Marker(s) in {DQT, DHT, DRI}
  }

  predicate Prefix(ss: seq<Segment>) {
    forall i | 0 <= i < |ss| :: SegmentOk(ss[..i], ss[i])
  }

  predicate Admissible(ss: seq<Segment>) {
    && ss != [] && Marker(ss[|ss| - 1]) == SOS
    && var front := ss[..|ss| - 1];
    Prefix(front) && HasFrame(front) && ScanHeaderOk(ss[|ss| - 1])
  }

  // ------------------------------------------------------------ the scan

  predicate IsRestart(m: byte) {
    0xD0 <= m <= 0xD7
  }

  /** Entropy-coded data from `pos`: after 0xFF only a stuffed zero, a restart, or the end of the image. */
  predicate ScanOk(b: Bytes, pos: nat)
    requires pos <= |b|
    decreases |b| - pos
  {
    if pos == |b| then false
    else if b[pos] != 255 then ScanOk(b, pos + 1)
    else
      var m := Unfilled(b, pos + 1);
      if m == |b| then false
      else if b[m] == 0 || IsRestart(b[m]) then ScanOk(b, m + 1)
      else b[m] == EOI && m + 1 == |b|
  }

  lemma {:induction false} ScanMoves(front: Bytes, tail: Bytes, b: Bytes, i: nat)
    requires b == front + tail && i <= |tail|
    ensures ScanOk(b, |front| + i) <==> ScanOk(tail, i)
    decreases |tail| - i
  {
    assert forall k | 0 <= k < |tail| :: b[|front| + k] == tail[k];
    if i < |tail| {
      if tail[i] != 255 {
        ScanMoves(front, tail, b, i + 1);
      } else {
        FillMoves(front, tail, b, i + 1);
        var m := Unfilled(tail, i + 1);
        if m < |tail| { ScanMoves(front, tail, b, m + 1); }
      }
    }
  }

  lemma FillMoves(front: Bytes, tail: Bytes, b: Bytes, i: nat)
    requires b == front + tail && i <= |tail|
    ensures Unfilled(b, |front| + i) == |front| + Unfilled(tail, i)
  {
    var m := Unfilled(tail, i);
    UnfilledSkips(tail, i);
    assert forall k | |front| + i <= k < |b| :: b[k] == tail[k - |front|];
    UnfilledIsUnique(b, |front| + i, |front| + m);
  }

  // ------------------------------------------------------------ what is kept

  function Kept(ss: seq<Segment>): seq<Segment> {
    if ss == [] then []
    else Kept(ss[..|ss| - 1]) + if IsMetadata(ss[|ss| - 1]) then [] else [ss[|ss| - 1]]
  }

  /** What admission makes of an input that starts with the start-of-image marker. */
  function Admitted(b: Bytes): Option<Bytes>
    requires |b| >= 2
  {
    var cut := Segments(b, 2);
    if cut.Some? && Admissible(cut.value.segments) && ScanOk(b, cut.value.scan)
    then Some(b[..2] + Joined(Kept(cut.value.segments)) + b[cut.value.scan..]) else None
  }

  // ------------------------------------------------------------ one segment more

  lemma PrefixStep(ss: seq<Segment>, s: Segment)
    ensures Prefix(ss + [s]) <==> Prefix(ss) && SegmentOk(ss, s)
  {
    var all := ss + [s];
    assert forall i | 0 <= i < |ss| :: all[..i] == ss[..i] && all[i] == ss[i];
    assert all[..|ss|] == ss && all[|ss|] == s;
    if Prefix(all) {
      assert SegmentOk(all[..|ss|], all[|ss|]);
      forall i | 0 <= i < |ss| ensures SegmentOk(ss[..i], ss[i]) { assert SegmentOk(all[..i], all[i]); }
    }
  }

  lemma HasFrameStep(ss: seq<Segment>, s: Segment)
    ensures HasFrame(ss + [s]) <==> HasFrame(ss) || Marker(s) == SOF0
  {
    var all := ss + [s];
    assert forall i | 0 <= i < |ss| :: all[i] == ss[i];
    assert all[|ss|] == s;
  }

  lemma {:induction false} KeptStep(ss: seq<Segment>, s: Segment)
    ensures Kept(ss + [s]) == Kept(ss) + if IsMetadata(s) then [] else [s]
  {
    assert (ss + [s])[..|ss|] == ss;
  }

  lemma {:induction false} OutputStep(head: Bytes, ss: seq<Segment>, s: Segment, output: Bytes)
    requires output == head + Joined(Kept(ss))
    ensures head + Joined(Kept(ss + [s])) == if IsMetadata(s) then output else output + s.raw
  {
    KeptStep(ss, s);
    if IsMetadata(s) {
      assert Kept(ss) + [] == Kept(ss);
    } else {
      JoinedOne(s);
      JoinedConcat(Kept(ss), [s]);
      Regroup(head, Joined(Kept(ss)), s.raw);
    }
  }

  lemma PrependStep(b: Bytes, pos: nat, ss: seq<Segment>)
    requires SegmentAt(b, pos).Some? && Marker(Cut(b, pos)) != SOS
    ensures var s := Cut(b, pos);
      Prepend(ss, Segments(b, pos)) == Prepend(ss + [s], Segments(b, pos + |s.raw|))
  {
    var s := Cut(b, pos);
    var rest := Segments(b, pos + |s.raw|);
    if rest.Some? { assert ss + ([s] + rest.value.segments) == (ss + [s]) + rest.value.segments; }
  }

  /** `ss` has been read up to `pos`, and admitted so far. */
  ghost predicate ReadSoFar(b: Bytes, pos: nat, ss: seq<Segment>) {
    2 <= pos <= |b| && Prefix(ss) && Segments(b, 2) == Prepend(ss, Segments(b, pos))
  }

  ghost predicate Reading(b: Bytes, pos: nat, ss: seq<Segment>, output: Bytes, frame: bool) {
    ReadSoFar(b, pos, ss) && output == b[..2] + Joined(Kept(ss)) && (frame <==> HasFrame(ss))
  }

  lemma StartsReading(b: Bytes)
    requires |b| >= 2
    ensures Reading(b, 2, [], b[..2], false)
  {
    var all := Segments(b, 2);
    if all.Some? { assert [] + all.value.segments == all.value.segments; }
    assert b[..2] + [] == b[..2];
  }

  lemma Truncated(b: Bytes, pos: nat, ss: seq<Segment>)
    requires ReadSoFar(b, pos, ss) && SegmentAt(b, pos).None?
    ensures Admitted(b) == None
  {
  }

  /** A segment that may not follow what precedes it spoils every list it begins to extend. */
  lemma BadSegmentRejects(ss: seq<Segment>, s: Segment, rest: seq<Segment>)
    requires Marker(s) != SOS && !SegmentOk(ss, s)
    ensures !Admissible(ss + [s] + rest)
  {
    var all := ss + [s] + rest;
    var front := all[..|all| - 1];
    assert all[|ss|] == s;
    if rest != [] { assert front[..|ss|] == ss && front[|ss|] == s; }
  }

  lemma BadSegment(b: Bytes, pos: nat, ss: seq<Segment>, s: Segment)
    requires ReadSoFar(b, pos, ss) && SegmentAt(b, pos).Some? && s == Cut(b, pos)
    requires Marker(s) != SOS && !SegmentOk(ss, s)
    ensures Admitted(b) == None
  {
    PrependStep(b, pos, ss);
    BadSegmentSpoils(b, ss, s, Segments(b, pos + |s.raw|));
  }

  lemma {:induction false} BadSegmentSpoils(b: Bytes, ss: seq<Segment>, s: Segment, rest: Option<Layout>)
    requires |b| >= 2 && Segments(b, 2) == Prepend(ss + [s], rest)
    requires Marker(s) != SOS && !SegmentOk(ss, s)
    ensures Admitted(b) == None
  {
    if rest.Some? { BadSegmentRejects(ss, s, rest.value.segments); }
  }

  lemma GoodSegment(b: Bytes, pos: nat, ss: seq<Segment>, output: Bytes, frame: bool,
    s: Segment, next: nat, read: seq<Segment>, copied: Bytes, framed: bool)
    requires Reading(b, pos, ss, output, frame) && SegmentAt(b, pos).Some? && s == Cut(b, pos)
    requires Marker(s) != SOS && SegmentOk(ss, s)
    requires next == pos + |s.raw| && read == ss + [s] && framed == (frame || Marker(s) == SOF0)
    requires copied == if IsMetadata(s) then output else output + s.raw
    ensures Reading(b, next, read, copied, framed)
  {
    ReadStep(b, pos, ss, s, next, read);
    HasFrameStep(ss, s);
    OutputStep(b[..2], ss, s, output);
  }

  lemma ReadStep(b: Bytes, pos: nat, ss: seq<Segment>, s: Segment, next: nat, read: seq<Segment>)
    requires ReadSoFar(b, pos, ss) && SegmentAt(b, pos).Some? && s == Cut(b, pos)
    requires Marker(s) != SOS && SegmentOk(ss, s) && next == pos + |s.raw| && read == ss + [s]
    ensures ReadSoFar(b, next, read)
  {
    PrependStep(b, pos, ss);
    PrefixStep(ss, s);
  }

  /** The start of scan settles the matter. */
  lemma {:induction false} ScanDecides(b: Bytes, pos: nat, ss: seq<Segment>, output: Bytes, frame: bool, s: Segment)
    requires Reading(b, pos, ss, output, frame) && SegmentAt(b, pos).Some? && s == Cut(b, pos) && Marker(s) == SOS
    ensures Admitted(b) ==
      if frame && ScanHeaderOk(s) && ScanOk(b, pos + |s.raw|) then Some(output + s.raw + b[pos + |s.raw|..]) else None
  {
    var all := ss + [s];
    assert Segments(b, 2) == Some(Layout(all, pos + |s.raw|));
    assert all[..|all| - 1] == ss;
    OutputStep(b[..2], ss, s, output);
  }

  // ------------------------------------------------------------ the source's loops

  method SkipFill(b: Bytes, pos: nat) returns (m: nat)
    requires pos <= |b|
    ensures m == Unfilled(b, pos)
  {
    m := pos;
    while m < |b| && b[m] == 255
      invariant pos <= m <= |b| && Unfilled(b, m) == Unfilled(b, pos)
    {
      m := m + 1;
    }
  }

  /** The inner loop, over the entropy-coded data. */
  method Scan(b: Bytes, start: nat) returns (ok: bool)
    requires start <= |b|
    ensures ok <==> ScanOk(b, start)
  {
    var pos := start;
    while pos < |b|
      invariant start <= pos <= |b| && (ScanOk(b, pos) <==> ScanOk(b, start))
      decreases |b| - pos
    {
      var first := b[pos];
      pos := pos + 1;
      if first != 255 { continue; }
      pos := SkipFill(b, pos);
      if pos >= |b| { return false; }
      var next := b[pos];
      pos := pos + 1;
      if next == 0 || IsRestart(next) { continue; }
      return next == EOI && pos == |b|;
    }
    ok := false;
  }

  /** Reads one segment, or fails as the source does on truncated or unmarked input. */
  method ReadSegment(b: Bytes, start: nat) returns (r: Option<Extent>)
    requires start + 4 <= |b|
    ensures r == SegmentAt(b, start)
  {
    if b[start] != 255 { return None; }
    var m := SkipFill(b, start + 1);
    if m >= |b| || m + 1 > |b| - 2 { return None; }
    var length := U16At(b, m + 1);
    if length < 2 || length > |b| - (m + 1) { return None; }
    r := Some(Extent(m, m + 1 + length));
  }

  /** Copies a segment unless it is metadata, and moves on. */
  method Copy(bytes: Bytes, pos: nat, ghost ss: seq<Segment>, s: Segment, output: Bytes, frame: bool)
    returns (next: nat, ghost read: seq<Segment>, copied: Bytes, framed: bool)
    requires Reading(bytes, pos, ss, output, frame) && SegmentAt(bytes, pos).Some? && s == Cut(bytes, pos)
    requires Marker(s) != SOS && SegmentOk(ss, s)
    ensures next == pos + |s.raw| && Reading(bytes, next, read, copied, framed)
  {
    copied := if IsMetadata(s) then output else output + s.raw;
    next, read, framed := pos + |s.raw|, ss + [s], frame || Marker(s) == SOF0;
    GoodSegment(bytes, pos, ss, output, frame, s, next, read, copied, framed);
  }

  /** The start of scan: copied with everything after it if the scan is sound to its end. */
  method Finish(bytes: Bytes, pos: nat, ghost ss: seq<Segment>, output: Bytes, frame: bool, s: Segment)
    returns (out: Option<Bytes>)
    requires Reading(bytes, pos, ss, output, frame) && SegmentAt(bytes, pos).Some? && s == Cut(bytes, pos)
    requires Marker(s) == SOS
    ensures out == Admitted(bytes)
  {
    ScanDecides(bytes, pos, ss, output, frame, s);
    if !frame || !ScanHeaderOk(s) { return None; }
    var ok := Scan(bytes, pos + |s.raw|);
    out := if ok then Some(output + s.raw + bytes[pos + |s.raw|..]) else None;
  }

  /** The source's other branches on a marker: which of them throw. */
  predicate Accepts(s: Segment, frame: bool) {
    if Marker(s) == SOF0 then !frame && FrameOk(s) else IsMetadata(s) || Marker(s) in {DQT, DHT, DRI}
  }

  lemma FrameDecides(b: Bytes, pos: nat, ss: seq<Segment>, output: Bytes, frame: bool, s: Segment)
    requires Reading(b, pos, ss, output, frame)
    ensures Accepts(s, frame) <==> SegmentOk(ss, s)
  {
  }

  method Admit(bytes: Bytes) returns (out: Option<Bytes>)
    requires |bytes| >= 2
    ensures out == Admitted(bytes)
  {
    var output := bytes[..2];
    var pos, frame := 2, false;
    ghost var ss: seq<Segment> := [];
    StartsReading(bytes);
    while pos < |bytes| - 3
      invariant Reading(bytes, pos, ss, output, frame)
      decreases |bytes| - pos
    {
      var extent := ReadSegment(bytes, pos);
      if extent.None? {
        Truncated(bytes, pos, ss);
        return None;
      }
      var s := Cut(bytes, pos);
      if Marker(s) == SOS {
        out := Finish(bytes, pos, ss, output, frame, s);
        return;
      }
      FrameDecides(bytes, pos, ss, output, frame, s);
      if !Accepts(s, frame) {
        BadSegment(bytes, pos, ss, s);
        return None;
      }
      pos, ss, output, frame := Copy(bytes, pos, ss, s, output, frame);
    }
    Truncated(bytes, pos, ss);
    out := None;
  }

  // ------------------------------------------------------------ meaning and fixed point

  /** A list that can have been cut: framed segments of which the last, and only the last, starts the scan. */
  ghost predicate EndsAtScan(ss: seq<Segment>) {
    && (forall i | 0 <= i < |ss| :: Framed(ss[i]) && (Marker(ss[i]) == SOS <==> i == |ss| - 1))
    && ss != []
  }

  lemma EndsAtScanStep(s: Segment, rest: seq<Segment>)
    requires Framed(s) && Marker(s) != SOS
    ensures rest != [] ==> (EndsAtScan([s] + rest) <==> EndsAtScan(rest))
  {
    var all := [s] + rest;
    assert forall i | 0 <= i < |rest| :: all[i + 1] == rest[i];
    assert all[0] == s;
    if rest != [] && EndsAtScan(rest) {
      forall i | 0 <= i < |all| ensures Framed(all[i]) && (Marker(all[i]) == SOS <==> i == |all| - 1) {
        if i > 0 { assert all[i] == rest[i - 1]; }
      }
    }
    if rest != [] && EndsAtScan(all) {
      forall i | 0 <= i < |rest| ensures Framed(rest[i]) && (Marker(rest[i]) == SOS <==> i == |rest| - 1) {
        assert rest[i] == all[i + 1];
      }
    }
  }

  lemma {:induction false} SegmentsEndAtScan(b: Bytes, pos: nat)
    requires Segments(b, pos).Some?
    ensures EndsAtScan(Segments(b, pos).value.segments)
    decreases |b| - pos
  {
    var s := Cut(b, pos);
    CutIsFramed(b, pos);
    if Marker(s) != SOS {
      SegmentsEndAtScan(b, pos + |s.raw|);
      var rest := Segments(b, pos + |s.raw|).value;
      SegmentsStep(b, pos, s, rest);
      EndsAtScanStep(s, rest.segments);
    }
  }

  lemma {:induction false} SpellStep(s: Segment, rest: seq<Segment>, tail: Bytes)
    ensures Joined([s] + rest) + tail == s.raw + (Joined(rest) + tail)
  {
    JoinedConcat([s], rest);
    JoinedOne(s);
    Regroup(s.raw, Joined(rest), tail);
  }

  lemma CutSpells(b: Bytes, pos: nat)
    requires SegmentAt(b, pos).Some?
    ensures Cut(b, pos).raw + b[pos + |Cut(b, pos).raw|..] == b[pos..]
  {
  }

  /** The segments and then the scan are the bytes from `pos` on. */
  ghost predicate Spells(b: Bytes, pos: nat, cut: Layout) {
    pos <= cut.scan <= |b| && Joined(cut.segments) + b[cut.scan..] == b[pos..]
  }

  lemma {:induction false} SegmentsSpell(b: Bytes, pos: nat)
    requires Segments(b, pos).Some?
    ensures Spells(b, pos, Segments(b, pos).value)
    decreases |b| - pos
  {
    var s := Cut(b, pos);
    if Marker(s) == SOS {
      SegmentsEnd(b, pos, s);
      LastSpells(b, pos, s);
    } else {
      SegmentsSpell(b, pos + |s.raw|);
      var rest := Segments(b, pos + |s.raw|).value;
      SegmentsStep(b, pos, s, rest);
      OneMoreSpells(b, pos, s, rest);
    }
  }

  lemma LastSpells(b: Bytes, pos: nat, s: Segment)
    requires SegmentAt(b, pos).Some? && Cut(b, pos) == s
    ensures Spells(b, pos, Layout([s], pos + |s.raw|))
  {
    CutSpells(b, pos);
    JoinedOne(s);
  }

  lemma {:induction false} OneMoreSpells(b: Bytes, pos: nat, s: Segment, rest: Layout)
    requires SegmentAt(b, pos).Some? && Cut(b, pos) == s && Spells(b, pos + |s.raw|, rest)
    ensures Spells(b, pos, Layout([s] + rest.segments, rest.scan))
  {
    CutSpells(b, pos);
    SpellStep(s, rest.segments, b[rest.scan..]);
  }

  lemma SegmentsStep(b: Bytes, pos: nat, s: Segment, rest: Layout)
    requires SegmentAt(b, pos).Some? && Cut(b, pos) == s && Marker(s) != SOS
    requires Segments(b, pos + |s.raw|) == Some(rest)
    ensures Segments(b, pos) == Some(Layout([s] + rest.segments, rest.scan))
  {
    assert Segments(b, pos) == Prepend([s], Segments(b, pos + |s.raw|));
  }

  lemma {:induction false} SegmentsEnd(b: Bytes, pos: nat, s: Segment)
    requires SegmentAt(b, pos).Some? && Cut(b, pos) == s && Marker(s) == SOS
    ensures Segments(b, pos) == Some(Layout([s], pos + |s.raw|))
  {
  }

  /** From `pos` on, `b` holds the segments one after the other. */
  ghost predicate HoldsAll(b: Bytes, pos: nat, ss: seq<Segment>)
    decreases |ss|
  {
    ss == [] || (Holds(b, pos, ss[0].raw) && HoldsAll(b, pos + |ss[0].raw|, ss[1..]))
  }

  lemma {:induction false} JoinedIsHeld(front: Bytes, pos: nat, ss: seq<Segment>, tail: Bytes, b: Bytes)
    requires pos == |front| && b == front + (Joined(ss) + tail)
    ensures HoldsAll(b, pos, ss)
    decreases |ss|
  {
    if ss != [] {
      var s, rest := ss[0], ss[1..];
      assert ss == [s] + rest;
      SpellStep(s, rest, tail);
      Regroup(front, s.raw, Joined(rest) + tail);
      JoinedIsHeld(front + s.raw, pos + |s.raw|, rest, tail, b);
      assert forall i | 0 <= i < |s.raw| :: b[pos + i] == s.raw[i];
    }
  }

  lemma {:induction false} HeldLast(b: Bytes, pos: nat, s: Segment)
    requires Holds(b, pos, s.raw) && Framed(s) && Marker(s) == SOS
    ensures Segments(b, pos) == Some(Layout([s], pos + |s.raw|))
  {
    SegmentMoves(b, pos, s);
    SegmentsEnd(b, pos, s);
  }

  lemma HeldBefore(b: Bytes, pos: nat, s: Segment, rest: Layout)
    requires Holds(b, pos, s.raw) && Framed(s) && Marker(s) != SOS
    requires Segments(b, pos + |s.raw|) == Some(rest)
    ensures Segments(b, pos) == Some(Layout([s] + rest.segments, rest.scan))
  {
    SegmentMoves(b, pos, s);
    SegmentsStep(b, pos, s, rest);
  }

  /** Held segments that end with the only start of scan are what is cut. */
  lemma {:induction false} HeldIsCut(b: Bytes, pos: nat, ss: seq<Segment>, scan: nat)
    requires EndsAtScan(ss) && HoldsAll(b, pos, ss) && scan == pos + |Joined(ss)|
    ensures Segments(b, pos) == Some(Layout(ss, scan))
    decreases |ss|
  {
    var s, rest := ss[0], ss[1..];
    assert ss == [s] + rest;
    if rest == [] {
      assert ss == [s];
      JoinedOne(s);
      HeldLast(b, pos, s);
    } else {
      EndsAtScanStep(s, rest);
      HeldIsCut(b, pos + |s.raw|, rest, scan);
      HeldBefore(b, pos, s, Layout(rest, scan));
    }
  }

  lemma {:induction false} KeptPrefix(ss: seq<Segment>)
    requires Prefix(ss)
    ensures Prefix(Kept(ss)) && (HasFrame(Kept(ss)) <==> HasFrame(ss))
  {
    if ss != [] {
      var front, last := ss[..|ss| - 1], ss[|ss| - 1];
      assert ss == front + [last];
      PrefixStep(front, last);
      KeptPrefix(front);
      KeptStep(front, last);
      HasFrameStep(front, last);
      var k := Kept(front);
      if IsMetadata(last) {
        assert k + [] == k;
      } else {
        PrefixStep(k, last);
        HasFrameStep(k, last);
      }
    }
  }

  lemma {:induction false} KeptTwice(ss: seq<Segment>)
    ensures Kept(Kept(ss)) == Kept(ss) && |Joined(Kept(ss))| <= |Joined(ss)|
    ensures forall s | s in Kept(ss) :: s in ss && !IsMetadata(s)
  {
    if ss != [] {
      var front, last := ss[..|ss| - 1], ss[|ss| - 1];
      assert ss == front + [last];
      KeptTwice(front);
      KeptStep(front, last);
      JoinedConcat(front, [last]);
      JoinedOne(last);
      var k := Kept(front);
      if IsMetadata(last) {
        assert k + [] == k;
      } else {
        KeptStep(k, last);
        JoinedConcat(k, [last]);
      }
    }
  }

  /** Every kept segment stands in the input, with exactly as many kept segments before it. */
  lemma {:induction false} KeptIsFilter(ss: seq<Segment>, i: nat)
    requires i < |Kept(ss)|
    ensures exists j :: 0 <= j < |ss| && ss[j] == Kept(ss)[i] && !IsMetadata(ss[j]) && |Kept(ss[..j])| == i
  {
    var front, last := ss[..|ss| - 1], ss[|ss| - 1];
    assert ss == front + [last];
    KeptStep(front, last);
    if i < |Kept(front)| {
      KeptIsFilter(front, i);
      var j :| 0 <= j < |front| && front[j] == Kept(front)[i] && !IsMetadata(front[j]) && |Kept(front[..j])| == i;
      assert ss[j] == front[j] && ss[..j] == front[..j];
    } else {
      assert ss[|front|] == last && ss[..|front|] == front;
    }
  }

  /** And every segment of the input that is not metadata is there, in that place. */
  lemma {:induction false} OnlyMetadataGoes(ss: seq<Segment>, j: nat)
    requires j < |ss| && !IsMetadata(ss[j])
    ensures |Kept(ss[..j])| < |Kept(ss)| && Kept(ss)[|Kept(ss[..j])|] == ss[j]
  {
    var front, last := ss[..|ss| - 1], ss[|ss| - 1];
    assert ss == front + [last];
    KeptStep(front, last);
    if j < |front| {
      OnlyMetadataGoes(front, j);
      assert ss[..j] == front[..j];
    } else {
      assert ss[..j] == front;
    }
  }

  lemma {:induction false} KeptEndsAtScan(front: seq<Segment>, last: Segment)
    requires EndsAtScan(front + [last])
    ensures EndsAtScan(Kept(front) + [last])
  {
    var all, k := front + [last], Kept(front);
    KeptTwice(front);
    assert all[|front|] == last;
    forall i | 0 <= i < |k| ensures Framed(k[i]) && Marker(k[i]) != SOS {
      assert k[i] in front;
      var j :| 0 <= j < |front| && front[j] == k[i];
      assert all[j] == k[i];
    }
  }

  lemma {:induction false} KeptAdmissible(ss: seq<Segment>)
    requires Admissible(ss) && EndsAtScan(ss)
    ensures Admissible(Kept(ss)) && EndsAtScan(Kept(ss))
  {
    var front, last := ss[..|ss| - 1], ss[|ss| - 1];
    assert ss == front + [last];
    KeptPrefix(front);
    KeptStep(front, last);
    KeptEndsAtScan(front, last);
    assert Kept(ss)[..|Kept(front)|] == Kept(front);
  }

  /** Cutting what is kept, followed by the scan. */
  lemma {:induction false} KeepsMeaning(b: Bytes, pos: nat, cut: Layout, out: Bytes, again: Layout)
    requires pos <= |b| && Segments(b, pos) == Some(cut) && Admissible(cut.segments)
    requires out == b[..pos] + Joined(Kept(cut.segments)) + b[cut.scan..]
    requires again == Layout(Kept(cut.segments), pos + |Joined(Kept(cut.segments))|)
    ensures Segments(out, pos) == Some(again) && |out| <= |b|
  {
    SegmentsEndAtScan(b, pos);
    SegmentsSpell(b, pos);
    KeptAdmissible(cut.segments);
    KeptTwice(cut.segments);
    assert HoldsAll(out, pos, again.segments) by {
      Regroup(b[..pos], Joined(again.segments), b[cut.scan..]);
      JoinedIsHeld(b[..pos], pos, again.segments, b[cut.scan..], out);
    }
    HeldIsCut(out, pos, again.segments, again.scan);
  }

  /**
   Admission keeps the image: the output is cut into exactly the input's segments that are not
   application data or comments, bytes and order unchanged, and is followed by the same scan.
   */
  lemma {:induction false} AdmissionKeepsMeaning(b: Bytes)
    requires |b| >= 2 && Admitted(b).Some?
    ensures var out, cut := Admitted(b).value, Segments(b, 2).value;
      && 2 <= |out| <= |b| && out[..2] == b[..2] && Segments(out, 2).Some?
      && Segments(out, 2).value.segments == Kept(cut.segments)
      && out[Segments(out, 2).value.scan..] == b[cut.scan..]
  {
    var cut := Segments(b, 2).value;
    var kept := Kept(cut.segments);
    KeepsMeaning(b, 2, cut, Admitted(b).value, Layout(kept, 2 + |Joined(kept)|));
  }

  /** The `i`-th segment is the only frame, the last the only scan, and the others are tables. */
  ghost predicate OneFrameOneScan(ss: seq<Segment>, i: nat) {
    && i < |ss| - 1 && FrameOk(ss[i]) && ScanHeaderOk(ss[|ss| - 1])
    && forall j | 0 <= j < |ss| ::
         if j == i then Marker(ss[j]) == SOF0
         else if j == |ss| - 1 then Marker(ss[j]) == SOS
         else Marker(ss[j]) in {DQT, DHT, DRI}
  }

  lemma SecondFrameIsRefused(front: seq<Segment>, i: nat, j: nat)
    requires Prefix(front) && i < j < |front| && Marker(front[i]) == SOF0
    ensures Marker(front[j]) != SOF0
  {
    assert SegmentOk(front[..j], front[j]);
    assert front[..j][i] == front[i];
  }

  lemma AdmissibleHasOneFrame(ss: seq<Segment>) returns (i: nat)
    requires Admissible(ss) && forall j | 0 <= j < |ss| :: !IsMetadata(ss[j])
    ensures OneFrameOneScan(ss, i)
  {
    var front := ss[..|ss| - 1];
    assert forall j | 0 <= j < |front| :: front[j] == ss[j];
    i :| 0 <= i < |front| && Marker(front[i]) == SOF0;
    assert SegmentOk(front[..i], front[i]);
    forall j | 0 <= j < |front| && j != i ensures Marker(front[j]) in {DQT, DHT, DRI} {
      assert SegmentOk(front[..j], front[j]);
      if i < j {
        SecondFrameIsRefused(front, i, j);
      } else if Marker(front[j]) == SOF0 {
        SecondFrameIsRefused(front, j, i);
      }
    }
  }

  lemma {:induction false} KeptHasOneFrame(ss: seq<Segment>)
    requires Admissible(ss) && EndsAtScan(ss)
    ensures exists i :: OneFrameOneScan(Kept(ss), i)
  {
    KeptAdmissible(ss);
    NoMetadataIsKept(ss);
    var i := AdmissibleHasOneFrame(Kept(ss));
  }

  lemma {:induction false} NoMetadataIsKept(ss: seq<Segment>)
    ensures forall j | 0 <= j < |Kept(ss)| :: !IsMetadata(Kept(ss)[j])
  {
    if ss != [] { NoMetadataIsKept(ss[..|ss| - 1]); }
  }

  /**
   What is admitted is a baseline image in one scan: the output has exactly one frame header, a
   baseline one in bounds, before its only start of scan, and nothing else but tables.
   */
  lemma {:induction false} AdmittedHasOneFrame(b: Bytes)
    requires |b| >= 2 && Admitted(b).Some?
    ensures Segments(Admitted(b).value, 2).Some?
    ensures exists i :: OneFrameOneScan(Segments(Admitted(b).value, 2).value.segments, i)
  {
    AdmissionKeepsMeaning(b);
    SegmentsEndAtScan(b, 2);
    KeptHasOneFrame(Segments(b, 2).value.segments);
  }

  lemma {:induction false} ScanStays(b1: Bytes, scan1: nat, b2: Bytes, scan2: nat)
    requires scan1 <= |b1| && scan2 <= |b2| && b1[scan1..] == b2[scan2..]
    ensures ScanOk(b1, scan1) <==> ScanOk(b2, scan2)
  {
    assert b1 == b1[..scan1] + b1[scan1..] && b2 == b2[..scan2] + b1[scan1..];
    ScanMoves(b1[..scan1], b1[scan1..], b1, 0);
    ScanMoves(b2[..scan2], b1[scan1..], b2, 0);
  }

  /** Admitting the output again returns it unchanged. */
  lemma AdmissionIsFixedPoint(b: Bytes)
    requires |b| >= 2 && Admitted(b).Some?
    ensures var out := Admitted(b).value;
      |out| >= 2 && Admitted(out) == Some(out)
  {
    AdmissionKeepsMeaning(b);
    var cut, out := Segments(b, 2).value, Admitted(b).value;
    var again := Segments(out, 2).value;
    SegmentsEndAtScan(b, 2);
    KeptAdmissible(cut.segments);
    KeptTwice(cut.segments);
    ScanStays(b, cut.scan, out, again.scan);
  }

  // ------------------------------------------------------------ what a scan is

  /** A data byte, or 0xFF and fill followed by a stuffed zero or a restart marker. */
  datatype Item = Plain(value: byte) | Marked(fill: nat, code: byte)

  predicate ItemOk(item: Item) {
    match item case Plain(value) => value != 255 case Marked(_, code) => code == 0 || IsRestart(code)
  }

  function Fill(n: nat): (f: Bytes)
    ensures |f| == n && forall i | 0 <= i < n :: f[i] == 255
  {
    seq(n, _ => 255)
  }

  function SpellItem(item: Item): Bytes {
    match item case Plain(value) => [value] case Marked(fill, code) => Fill(fill + 1) + [code]
  }

  function Spell(items: seq<Item>): Bytes {
    if items == [] then [] else SpellItem(items[0]) + Spell(items[1..])
  }

  ghost predicate IsScan(tail: Bytes, items: seq<Item>, fill: nat) {
    && (forall i | 0 <= i < |items| :: ItemOk(items[i]))
    && tail == Spell(items) + (Fill(fill + 1) + [EOI])
  }

  lemma MarkedAt(b: Bytes, pos: nat, fill: nat, code: byte)
    requires Holds(b, pos, Fill(fill + 1) + [code]) && code != 255
    ensures b[pos] == 255 && Unfilled(b, pos + 1) == pos + 1 + fill && b[pos + 1 + fill] == code
  {
    var part := Fill(fill + 1) + [code];
    assert b[pos + 1 + fill] == part[1 + fill];
    forall i | pos <= i < pos + 1 + fill ensures b[i] == 255 {
      assert b[i] == part[i - pos] == Fill(fill + 1)[i - pos];
    }
    UnfilledIsUnique(b, pos + 1, pos + 1 + fill);
  }

  lemma ItemIsScanned(b: Bytes, pos: nat, item: Item)
    requires Holds(b, pos, SpellItem(item)) && ItemOk(item)
    ensures ScanOk(b, pos) <==> ScanOk(b, pos + |SpellItem(item)|)
  {
    match item
    case Plain(value) => assert b[pos] == [value][0];
    case Marked(n, code) => MarkedAt(b, pos, n, code);
  }

  lemma {:induction false} EndIsScanned(b: Bytes, pos: nat, fill: nat)
    requires Holds(b, pos, Fill(fill + 1) + [EOI]) && |b| == pos + fill + 2
    ensures ScanOk(b, pos)
  {
    MarkedAt(b, pos, fill, EOI);
  }

  lemma HoldsBoth(b: Bytes, pos: nat, first: Bytes, second: Bytes)
    requires Holds(b, pos, first + second)
    ensures Holds(b, pos, first) && Holds(b, pos + |first|, second)
  {
    assert forall i | 0 <= i < |first| :: (first + second)[i] == first[i];
    assert forall i | 0 <= i < |second| :: (first + second)[|first| + i] == second[i];
    forall i | 0 <= i < |second| ensures b[pos + |first| + i] == second[i] {
      assert b[pos + (|first| + i)] == (first + second)[|first| + i];
    }
  }

  lemma {:induction false} SpelledScanIsOk(b: Bytes, pos: nat, items: seq<Item>, fill: nat, tail: Bytes)
    requires IsScan(tail, items, fill) && Holds(b, pos, tail) && |b| == pos + |tail|
    ensures ScanOk(b, pos)
    decreases |items|
  {
    var end := Fill(fill + 1) + [EOI];
    if items == [] {
      assert tail == end;
      EndIsScanned(b, pos, fill);
    } else {
      var rest := Spell(items[1..]) + end;
      Regroup(SpellItem(items[0]), Spell(items[1..]), end);
      HoldsBoth(b, pos, SpellItem(items[0]), rest);
      SpelledScanIsOk(b, pos + |SpellItem(items[0])|, items[1..], fill, rest);
      ItemIsScanned(b, pos, items[0]);
    }
  }

  lemma {:induction false} MarkedSlice(b: Bytes, pos: nat, m: nat)
    requires pos < |b| && b[pos] == 255 && m == Unfilled(b, pos + 1) < |b|
    ensures pos < m && b[pos..m + 1] == SpellItem(Marked(m - pos - 1, b[m]))
  {
    UnfilledSkips(b, pos + 1);
    var fill := Fill(m - pos);
    assert b[pos..m] == fill;
    assert b[pos..m + 1] == b[pos..m] + [b[m]];
  }

  lemma {:induction false} OkScanIsSpelled(b: Bytes, pos: nat) returns (items: seq<Item>, fill: nat)
    requires pos <= |b| && ScanOk(b, pos)
    ensures IsScan(b[pos..], items, fill)
    decreases |b| - pos
  {
    var m := if b[pos] == 255 then Unfilled(b, pos + 1) else pos;
    var item := if b[pos] == 255 then Marked(m - pos - 1, b[m]) else Plain(b[pos]);
    if b[pos] == 255 { MarkedSlice(b, pos, m); }
    if m + 1 == |b| {
      items, fill := [], m - pos - 1;
      assert b[pos..] == b[pos..m + 1];
    } else {
      items, fill := OkScanIsSpelled(b, m + 1);
      AddItem(b, pos, m + 1, item, items, fill);
      items := [item] + items;
    }
  }

  lemma AddItem(b: Bytes, pos: nat, next: nat, item: Item, items: seq<Item>, fill: nat)
    requires pos <= next <= |b| && b[pos..next] == SpellItem(item) && ItemOk(item)
    requires IsScan(b[next..], items, fill)
    ensures IsScan(b[pos..], [item] + items, fill)
  {
    assert ([item] + items)[1..] == items;
    assert b[pos..] == b[pos..next] + b[next..];
  }

  /**
   The accepted scans are exactly data bytes, stuffed zeros and restart markers, ended by the
   end-of-image marker as the last byte.
   */
  lemma {:induction false} ScanIsItemsThenEnd(b: Bytes, pos: nat)
    requires pos <= |b|
    ensures ScanOk(b, pos) <==> exists items, fill :: IsScan(b[pos..], items, fill)
  {
    if ScanOk(b, pos) {
      var items, fill := OkScanIsSpelled(b, pos);
    }
    if exists items, fill :: IsScan(b[pos..], items, fill) {
      var items, fill :| IsScan(b[pos..], items, fill);
      SpelledScanIsOk(b, pos, items, fill, b[pos..]);
    }
  }
}
