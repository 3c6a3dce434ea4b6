/**
 Which JPEG previews are admitted (src/XivLantern.Core/ImagePreview.cs:76-119), said of images:
 marker segments with their parameters, one baseline frame header, one scan over the whole spectrum
 and its entropy-coded data (Annex B.1.1, B.2.2 and B.2.3 of ITU-T T.81).
 */
module JpegImages {
  import opened ByteStrings
  import opened Results
  import opened Jpeg

  // ------------------------------------------------------------ images

  /** A marker with fill bytes before it, and the bytes its length counts. */
  datatype Block = Block(fill: nat, marker: byte, body: Bytes)

  predicate BlockOk(k: Block) {
    k.marker != 255 && |k.body| <= 65533
  }

  function Spelled(k: Block): Bytes
    requires BlockOk(k)
  {
    Fill(k.fill + 1) + [k.marker] + U16(|k.body| + 2) + k.body
  }

  datatype Component = Component(id: byte, sampling: byte, table: byte)

  datatype Selector = Selector(id: byte, tables: byte)

  function Components(cs: seq<Component>): Bytes {
    if cs == [] then [] else [cs[0].id, cs[0].sampling, cs[0].table] + Components(cs[1..])
  }

  function Selectors(ss: seq<Selector>): Bytes {
    if ss == [] then [] else [ss[0].id, ss[0].tables] + Selectors(ss[1..])
  }

  /** A baseline frame: eight bits, one or three components, bounded dimensions. */
  predicate IsFrame(k: Block, width: nat, height: nat, cs: seq<Component>) {
    && k.marker == 0xC0 && |cs| in {1, 3}
    && 1 <= width <= 4096 && 1 <= height <= 4096 && width * height <= 8388608
    && k.body == [8] + U16(height) + U16(width) + [|cs|] + Components(cs)
  }

  /** A scan of the whole spectrum without successive approximation. */
  predicate IsScanHeader(k: Block, ss: seq<Selector>) {
    k.marker == 0xDA && |ss| in {1, 3} && k.body == [|ss|] + Selectors(ss) + [0, 63, 0]
  }

  /** Application data and comments. */
  predicate IsNote(k: Block) {
    0xE0 <= k.marker <= 0xEF || k.marker == 0xFE
  }

  /** Quantization and Huffman tables and restart intervals. */
  predicate IsTable(k: Block) {
    k.marker in {0xDB, 0xC4, 0xDD}
  }

  /** The blocks up to and including the start of scan, which of them is the frame, and what both say. */
  datatype Header = Header(blocks: seq<Block>, frame: nat, width: nat, height: nat,
    components: seq<Component>, selectors: seq<Selector>)

  datatype Image = Image(header: Header, items: seq<Item>, fill: nat)

  predicate AllOk(blocks: seq<Block>) {
    forall i | 0 <= i < |blocks| :: BlockOk(blocks[i])
  }

  /** All but the frame and the last are notes and tables. */
  predicate OthersStand(blocks: seq<Block>, frame: nat) {
    forall i | 0 <= i < |blocks| - 1 && i != frame :: IsNote(blocks[i]) || IsTable(blocks[i])
  }

  function AllSpelled(blocks: seq<Block>): Bytes
    requires AllOk(blocks)
  {
    if blocks == [] then [] else Spelled(blocks[0]) + AllSpelled(blocks[1..])
  }

  predicate HeaderOk(h: Header) {
    && h.frame < |h.blocks| - 1
    && AllOk(h.blocks)
    && OthersStand(h.blocks, h.frame)
    && IsFrame(h.blocks[h.frame], h.width, h.height, h.components)
    && IsScanHeader(h.blocks[|h.blocks| - 1], h.selectors)
  }

  function Data(im: Image): Bytes {
    Spell(im.items) + (Fill(im.fill + 1) + [0xD9])
  }

  predicate ItemsOk(items: seq<Item>) {
    forall i | 0 <= i < |items| ::
      match items[i]
      case Plain(value) => value != 255
      case Marked(_, code) => code == 0 || 0xD0 <= code <= 0xD7
  }

  /** The bytes after the start of image are this image. */
  ghost predicate IsImage(b: Bytes, im: Image)
    requires |b| >= 2
  {
    HeaderOk(im.header) && ItemsOk(im.items) && b == b[..2] + AllSpelled(im.header.blocks) + Data(im)
  }

  // ------------------------------------------------------------ blocks are segments

  function SegmentOf(k: Block): (s: Segment)
    requires BlockOk(k)
    ensures s.raw == Spelled(k) && s.markerPos == k.fill + 1
  {
    Piece(Spelled(k), k.fill + 1)
  }

  lemma SpelledAt(k: Block)
    requires BlockOk(k)
    ensures var raw, m := Spelled(k), k.fill + 1;
      && |raw| == m + 3 + |k.body| && raw[m] == k.marker && U16At(raw, m + 1) == |k.body| + 2
      && (forall i | 0 <= i < m :: raw[i] == 255) && raw[m + 3..] == k.body
  {
    var raw, m := Spelled(k), k.fill + 1;
    assert raw[m] == k.marker;
    assert raw[m + 1] == U16(|k.body| + 2)[0] && raw[m + 2] == U16(|k.body| + 2)[1];
  }

  lemma BlockIsFramed(k: Block)
    requires BlockOk(k)
    ensures Framed(SegmentOf(k)) && Marker(SegmentOf(k)) == k.marker
  {
    SpelledAt(k);
    UnfilledIsUnique(Spelled(k), 1, k.fill + 1);
  }

  lemma FramedIsBlock(s: Segment) returns (k: Block)
    requires Framed(s)
    ensures BlockOk(k) && SegmentOf(k) == s && k.marker == Marker(s)
  {
    var m := s.markerPos;
    UnfilledSkips(s.raw, 1);
    k := Block(m - 1, Marker(s), s.raw[m + 3..]);
    U16OfRead(s.raw, m + 1);
    FourParts(s.raw, m);
    assert s.raw[..m] == Fill(m);
  }

  lemma FourParts(raw: Bytes, m: nat)
    requires m + 3 <= |raw|
    ensures raw == raw[..m] + [raw[m]] + raw[m + 1..m + 3] + raw[m + 3..]
  {
  }

  function SegmentsOf(blocks: seq<Block>): (ss: seq<Segment>)
    requires AllOk(blocks)
    ensures |ss| == |blocks| && forall i | 0 <= i < |ss| :: ss[i] == SegmentOf(blocks[i])
  {
    seq(|blocks|, i requires 0 <= i < |blocks| => SegmentOf(blocks[i]))
  }

  lemma {:induction false} JoinedIsSpelled(blocks: seq<Block>)
    requires AllOk(blocks)
    ensures Joined(SegmentsOf(blocks)) == AllSpelled(blocks)
  {
    if blocks != [] {
      JoinedIsSpelled(blocks[1..]);
      assert SegmentsOf(blocks)[1..] == SegmentsOf(blocks[1..]);
    }
  }

  lemma {:induction false} SegmentsAreBlocks(ss: seq<Segment>) returns (blocks: seq<Block>)
    requires forall i | 0 <= i < |ss| :: Framed(ss[i])
    ensures AllOk(blocks) && SegmentsOf(blocks) == ss
  {
    if ss == [] {
      blocks := [];
    } else {
      var front, last := ss[..|ss| - 1], ss[|ss| - 1];
      var before := SegmentsAreBlocks(front);
      var k := FramedIsBlock(last);
      blocks := before + [k];
      SegmentsStep(before, k);
      assert ss == front + [last];
    }
  }

  // ------------------------------------------------------------ parameters

  lemma {:induction false} ComponentsSize(cs: seq<Component>)
    ensures |Components(cs)| == 3 * |cs|
  {
    if cs != [] { ComponentsSize(cs[1..]); }
  }

  lemma {:induction false} SelectorsSize(ss: seq<Selector>)
    ensures |Selectors(ss)| == 2 * |ss|
  {
    if ss != [] { SelectorsSize(ss[1..]); }
  }

  lemma {:induction false} ReadComponents(b: Bytes, n: nat) returns (cs: seq<Component>)
    requires |b| == 3 * n
    ensures |cs| == n && Components(cs) == b
  {
    if n == 0 {
      cs := [];
    } else {
      var rest := ReadComponents(b[3..], n - 1);
      cs := [Component(b[0], b[1], b[2])] + rest;
      assert cs[1..] == rest && b == [b[0], b[1], b[2]] + b[3..];
    }
  }

  lemma {:induction false} ReadSelectors(b: Bytes, n: nat) returns (ss: seq<Selector>)
    requires |b| == 2 * n
    ensures |ss| == n && Selectors(ss) == b
  {
    if n == 0 {
      ss := [];
    } else {
      var rest := ReadSelectors(b[2..], n - 1);
      ss := [Selector(b[0], b[1])] + rest;
      assert ss[1..] == rest && b == [b[0], b[1]] + b[2..];
    }
  }

  /** The source's checks, said of the parameters alone. */
  predicate FrameBodyOk(body: Bytes) {
    && |body| >= 6 && body[0] == 8 && body[5] in {1, 3} && |body| == 6 + 3 * body[5]
    && 1 <= U16At(body, 3) <= 4096 && 1 <= U16At(body, 1) <= 4096 && U16At(body, 3) * U16At(body, 1) <= 8388608
  }

  predicate ScanBodyOk(body: Bytes) {
    && |body| >= 4 && body[0] in {1, 3} && |body| == 4 + 2 * body[0]
    && body[|body| - 3] == 0 && body[|body| - 2] == 63 && body[|body| - 1] == 0
  }

  /** The segment's bytes after marker and length. */
  predicate HasBody(s: Segment, body: Bytes) {
    |s.raw| == s.markerPos + 3 + |body| && forall i | 0 <= i < |body| :: s.raw[s.markerPos + 3 + i] == body[i]
  }

  lemma FrameByBody(s: Segment, body: Bytes)
    requires HasBody(s, body)
    ensures FrameOk(s) <==> FrameBodyOk(body)
  {
    var at := s.markerPos + 3;
    if |body| >= 6 {
      assert s.raw[at] == body[0] && s.raw[at + 5] == body[5];
      assert U16At(s.raw, at + 1) == U16At(body, 1) && U16At(s.raw, at + 3) == U16At(body, 3);
    }
  }

  lemma ScanHeaderByBody(s: Segment, body: Bytes)
    requires HasBody(s, body)
    ensures ScanHeaderOk(s) <==> ScanBodyOk(body)
  {
    var at, n := s.markerPos + 3, |body|;
    if n >= 4 {
      assert s.raw[at] == body[0];
      assert s.raw[at + (n - 3)] == body[n - 3] && s.raw[at + (n - 2)] == body[n - 2] && s.raw[at + (n - 1)] == body[n - 1];
    }
  }

  lemma BlockHasBody(k: Block)
    requires BlockOk(k)
    ensures HasBody(SegmentOf(k), k.body)
  {
    SpelledAt(k);
    var raw, at := Spelled(k), k.fill + 4;
    forall i | 0 <= i < |k.body| ensures raw[at + i] == k.body[i] { assert raw[at..][i] == raw[at + i]; }
  }

  lemma BodyOfSegment(k: Block)
    requires BlockOk(k)
    ensures FrameOk(SegmentOf(k)) <==> FrameBodyOk(k.body)
    ensures ScanHeaderOk(SegmentOf(k)) <==> ScanBodyOk(k.body)
  {
    BlockHasBody(k);
    FrameByBody(SegmentOf(k), k.body);
    ScanHeaderByBody(SegmentOf(k), k.body);
  }

  lemma FrameIsOk(k: Block, width: nat, height: nat, cs: seq<Component>)
    requires IsFrame(k, width, height, cs)
    ensures FrameBodyOk(k.body)
  {
    ComponentsSize(cs);
    var body := k.body;
    assert body[0] == 8 && body[5] == |cs|;
    assert body[1] == U16(height)[0] && body[2] == U16(height)[1] && body[3] == U16(width)[0] && body[4] == U16(width)[1];
  }

  lemma ReadFrame(k: Block) returns (width: nat, height: nat, cs: seq<Component>)
    requires k.marker == 0xC0 && FrameBodyOk(k.body)
    ensures IsFrame(k, width, height, cs)
  {
    var body := k.body;
    width, height := U16At(body, 3), U16At(body, 1);
    cs := ReadComponents(body[6..], body[5]);
    U16OfRead(body, 1);
    U16OfRead(body, 3);
    assert body == body[..1] + body[1..3] + body[3..5] + body[5..6] + body[6..];
    assert body[..1] == [8] && body[5..6] == [|cs|];
  }

  lemma ScanIsOk(k: Block, ss: seq<Selector>)
    requires IsScanHeader(k, ss)
    ensures ScanBodyOk(k.body)
  {
    SelectorsSize(ss);
  }

  lemma ReadScanHeader(k: Block) returns (ss: seq<Selector>)
    requires k.marker == 0xDA && ScanBodyOk(k.body)
    ensures IsScanHeader(k, ss)
  {
    var body := k.body;
    ss := ReadSelectors(body[1..|body| - 3], body[0]);
    assert body[..1] == [|ss|] && body[|body| - 3..] == [0, 63, 0];
    assert body == body[..1] + body[1..|body| - 3] + body[|body| - 3..];
  }

  // ------------------------------------------------------------ admissible lists

  lemma MarkersAre(k: Block)
    requires BlockOk(k)
    ensures IsMetadata(SegmentOf(k)) <==> IsNote(k)
    ensures Marker(SegmentOf(k)) in {DQT, DHT, DRI} <==> IsTable(k)
    ensures Marker(SegmentOf(k)) == k.marker
  {
    BlockIsFramed(k);
  }

  lemma HeaderMayPrecede(h: Header, i: nat)
    requires HeaderOk(h) && i < |h.blocks| - 1
    ensures var front := SegmentsOf(h.blocks)[..|h.blocks| - 1];
      SegmentOk(front[..i], front[i])
  {
    var front := SegmentsOf(h.blocks)[..|h.blocks| - 1];
    MarkersAre(h.blocks[i]);
    if i == h.frame {
      FrameIsOk(h.blocks[i], h.width, h.height, h.components);
      BodyOfSegment(h.blocks[i]);
      forall j | 0 <= j < i ensures Marker(front[j]) != SOF0 { MarkersAre(h.blocks[j]); }
    }
  }

  lemma HeaderEndsAtScan(h: Header)
    requires HeaderOk(h)
    ensures EndsAtScan(SegmentsOf(h.blocks))
  {
    var ss := SegmentsOf(h.blocks);
    forall i | 0 <= i < |ss| ensures Framed(ss[i]) && (Marker(ss[i]) == SOS <==> i == |ss| - 1) {
      BlockIsFramed(h.blocks[i]);
    }
  }

  lemma HeaderHasFrame(h: Header)
    requires HeaderOk(h)
    ensures var front := SegmentsOf(h.blocks)[..|h.blocks| - 1];
      Prefix(front) && HasFrame(front)
  {
    var front := SegmentsOf(h.blocks)[..|h.blocks| - 1];
    forall i | 0 <= i < |front| ensures SegmentOk(front[..i], front[i]) { HeaderMayPrecede(h, i); }
    MarkersAre(h.blocks[h.frame]);
    assert Marker(front[h.frame]) == SOF0;
  }

  lemma HeaderIsAdmissible(h: Header)
    requires HeaderOk(h)
    ensures Admissible(SegmentsOf(h.blocks))
  {
    HeaderHasFrame(h);
    ScanStarts(h.blocks[|h.blocks| - 1], h.selectors);
  }

  lemma ScanStarts(k: Block, ss: seq<Selector>)
    requires BlockOk(k) && IsScanHeader(k, ss)
    ensures Marker(SegmentOf(k)) == SOS && ScanHeaderOk(SegmentOf(k))
  {
    MarkersAre(k);
    ScanIsOk(k, ss);
    BodyOfSegment(k);
  }

  /** The list without its notes. */
  function WithoutNotes(blocks: seq<Block>): seq<Block> {
    if blocks == [] then []
    else WithoutNotes(blocks[..|blocks| - 1]) + if IsNote(blocks[|blocks| - 1]) then [] else [blocks[|blocks| - 1]]
  }

  lemma {:induction false} NotesGo(blocks: seq<Block>)
    requires AllOk(blocks)
    ensures AllOk(WithoutNotes(blocks))
  {
    if blocks != [] { NotesGo(blocks[..|blocks| - 1]); }
  }

  lemma SegmentsStep(blocks: seq<Block>, last: Block)
    requires BlockOk(last) && AllOk(blocks)
    ensures AllOk(blocks + [last])
    ensures SegmentsOf(blocks + [last]) == SegmentsOf(blocks) + [SegmentOf(last)]
  {
  }

  lemma {:induction false} KeptIsWithoutNotes(blocks: seq<Block>)
    requires AllOk(blocks)
    ensures AllOk(WithoutNotes(blocks))
    ensures Kept(SegmentsOf(blocks)) == SegmentsOf(WithoutNotes(blocks))
  {
    NotesGo(blocks);
    if blocks != [] {
      var front, last := blocks[..|blocks| - 1], blocks[|blocks| - 1];
      assert blocks == front + [last];
      KeptIsWithoutNotes(front);
      MarkersAre(last);
      SegmentsStep(front, last);
      SegmentsStep(WithoutNotes(front), last);
      KeptStep(SegmentsOf(front), SegmentOf(last));
    }
  }

  lemma {:induction false} DataIsScanned(b: Bytes, scan: nat, im: Image)
    requires scan <= |b| && b[scan..] == Data(im) && ItemsOk(im.items)
    ensures ScanOk(b, scan)
  {
    assert IsScan(b[scan..], im.items, im.fill);
    ScanIsItemsThenEnd(b, scan);
  }

  lemma ThreeParts(b: Bytes, front: Bytes, middle: Bytes, data: Bytes)
    requires b == front + middle + data
    ensures b == front + (middle + data) && |front| + |middle| <= |b| && b[|front| + |middle|..] == data
  {
    assert b[|front + middle|..] == data;
  }

  lemma {:induction false} ListIsCut(b: Bytes, ss: seq<Segment>, spelled: Bytes, data: Bytes, scan: nat)
    requires |b| >= 2 && EndsAtScan(ss) && spelled == Joined(ss)
    requires b == b[..2] + (spelled + data) && scan == 2 + |spelled|
    ensures Segments(b, 2) == Some(Layout(ss, scan))
  {
    JoinedIsHeld(b[..2], 2, ss, data, b);
    HeldIsCut(b, 2, ss, scan);
  }

  lemma {:induction false} HeaderIsCut(b: Bytes, h: Header, spelled: Bytes, data: Bytes, scan: nat)
    requires |b| >= 2 && HeaderOk(h) && spelled == AllSpelled(h.blocks)
    requires b == b[..2] + (spelled + data) && scan == 2 + |spelled|
    ensures Segments(b, 2) == Some(Layout(SegmentsOf(h.blocks), scan))
  {
    HeaderEndsAtScan(h);
    JoinedIsSpelled(h.blocks);
    ListIsCut(b, SegmentsOf(h.blocks), spelled, data, scan);
  }

  lemma {:induction false} CutIsAdmitted(b: Bytes, h: Header, scan: nat)
    requires |b| >= 2 && HeaderOk(h) && Segments(b, 2) == Some(Layout(SegmentsOf(h.blocks), scan)) && ScanOk(b, scan)
    ensures AllOk(WithoutNotes(h.blocks))
    ensures Admitted(b) == Some(b[..2] + AllSpelled(WithoutNotes(h.blocks)) + b[scan..])
  {
    HeaderIsAdmissible(h);
    KeptIsWithoutNotes(h.blocks);
    JoinedIsSpelled(WithoutNotes(h.blocks));
  }

  /** Every image is admitted; what comes out is the image without its notes. */
  lemma {:induction false} ImagesAreAdmitted(b: Bytes, im: Image)
    requires |b| >= 2 && IsImage(b, im)
    ensures AllOk(WithoutNotes(im.header.blocks))
    ensures Admitted(b) == Some(b[..2] + AllSpelled(WithoutNotes(im.header.blocks)) + Data(im))
  {
    var spelled, data := AllSpelled(im.header.blocks), Data(im);
    var scan := 2 + |spelled|;
    ThreeParts(b, b[..2], spelled, data);
    DataIsScanned(b, scan, im);
    HeaderIsCut(b, im.header, spelled, data, scan);
    CutIsAdmitted(b, im.header, scan);
  }

  // ------------------------------------------------------------ nothing else is admitted

  /** One frame before the scan, notes and tables otherwise. */
  ghost predicate Laid(ss: seq<Segment>, i: nat) {
    && i < |ss| - 1 && Marker(ss[i]) == SOF0 && FrameOk(ss[i])
    && Marker(ss[|ss| - 1]) == SOS && ScanHeaderOk(ss[|ss| - 1])
    && forall j | 0 <= j < |ss| - 1 && j != i :: IsMetadata(ss[j]) || Marker(ss[j]) in {DQT, DHT, DRI}
  }

  lemma AdmissibleIsLaid(ss: seq<Segment>) returns (i: nat)
    requires Admissible(ss)
    ensures Laid(ss, i)
  {
    var front := ss[..|ss| - 1];
    i :| 0 <= i < |front| && Marker(front[i]) == SOF0;
    assert SegmentOk(front[..i], front[i]);
    forall j | 0 <= j < |ss| - 1 && j != i ensures IsMetadata(ss[j]) || Marker(ss[j]) in {DQT, DHT, DRI} {
      assert SegmentOk(front[..j], front[j]) && front[j] == ss[j];
      OnlyFrame(front, i, j);
    }
  }

  lemma OnlyFrame(front: seq<Segment>, i: nat, j: nat)
    requires Prefix(front) && i < |front| && j < |front| && i != j && Marker(front[i]) == SOF0
    ensures Marker(front[j]) != SOF0
  {
    if i < j { SecondFrameIsRefused(front, i, j); } else if Marker(front[j]) == SOF0 { SecondFrameIsRefused(front, j, i); }
  }

  ghost predicate SpelledBy(ss: seq<Segment>, blocks: seq<Block>) {
    AllOk(blocks) && ss == SegmentsOf(blocks)
  }

  lemma {:induction false} LaidHeader(ss: seq<Segment>, i: nat, blocks: seq<Block>) returns (h: Header)
    requires Laid(ss, i) && SpelledBy(ss, blocks)
    ensures HeaderOk(h) && h.blocks == blocks
  {
    var width, height, cs := FrameAt(ss[i], blocks[i]);
    var selectors := ScanAt(ss[|ss| - 1], blocks[|ss| - 1]);
    forall j | 0 <= j < |blocks| - 1 && j != i ensures IsNote(blocks[j]) || IsTable(blocks[j]) { MarkersAre(blocks[j]); }
    h := HeaderFrom(blocks, i, width, height, cs, selectors);
  }

  lemma HeaderFrom(blocks: seq<Block>, i: nat, width: nat, height: nat, cs: seq<Component>, selectors: seq<Selector>)
    returns (h: Header)
    requires i < |blocks| - 1 && AllOk(blocks) && OthersStand(blocks, i)
    requires IsFrame(blocks[i], width, height, cs) && IsScanHeader(blocks[|blocks| - 1], selectors)
    ensures HeaderOk(h) && h.blocks == blocks
  {
    h := Header(blocks, i, width, height, cs, selectors);
  }

  lemma FrameAt(s: Segment, k: Block) returns (width: nat, height: nat, cs: seq<Component>)
    requires BlockOk(k) && s == SegmentOf(k) && Marker(s) == SOF0 && FrameOk(s)
    ensures IsFrame(k, width, height, cs)
  {
    MarkersAre(k);
    BodyOfSegment(k);
    width, height, cs := ReadFrame(k);
  }

  lemma ScanAt(s: Segment, k: Block) returns (selectors: seq<Selector>)
    requires BlockOk(k) && s == SegmentOf(k) && Marker(s) == SOS && ScanHeaderOk(s)
    ensures IsScanHeader(k, selectors)
  {
    MarkersAre(k);
    BodyOfSegment(k);
    selectors := ReadScanHeader(k);
  }

  lemma {:induction false} AdmissibleHeader(ss: seq<Segment>) returns (h: Header)
    requires Admissible(ss) && forall i | 0 <= i < |ss| :: Framed(ss[i])
    ensures HeaderOk(h) && SegmentsOf(h.blocks) == ss
  {
    var i := AdmissibleIsLaid(ss);
    var blocks := SegmentsAreBlocks(ss);
    h := LaidHeader(ss, i, blocks);
  }

  lemma {:induction false} HeaderOfAdmitted(b: Bytes) returns (h: Header, scan: nat)
    requires |b| >= 2 && Admitted(b).Some?
    ensures HeaderOk(h) && scan <= |b| && ScanOk(b, scan) && AllSpelled(h.blocks) + b[scan..] == b[2..]
  {
    var cut := Segments(b, 2).value;
    scan := cut.scan;
    SegmentsEndAtScan(b, 2);
    SegmentsSpell(b, 2);
    h := AdmissibleHeader(cut.segments);
    JoinedIsSpelled(h.blocks);
  }

  lemma {:induction false} ItemsOfScan(b: Bytes, scan: nat) returns (items: seq<Item>, fill: nat)
    requires scan <= |b| && ScanOk(b, scan)
    ensures ItemsOk(items) && b[scan..] == Spell(items) + (Fill(fill + 1) + [0xD9])
  {
    ScanIsItemsThenEnd(b, scan);
    var i, f :| IsScan(b[scan..], i, f);
    items, fill := i, f;
  }

  lemma {:induction false} AdmittedIsImage(b: Bytes) returns (im: Image)
    requires |b| >= 2 && Admitted(b).Some?
    ensures IsImage(b, im)
  {
    var h, scan := HeaderOfAdmitted(b);
    var items, fill := ItemsOfScan(b, scan);
    im := Image(h, items, fill);
    SpellsInput(b, AllSpelled(h.blocks), b[scan..]);
  }

  lemma SpellsInput(b: Bytes, spelled: Bytes, data: Bytes)
    requires |b| >= 2 && spelled + data == b[2..]
    ensures b == b[..2] + spelled + data
  {
    assert b == b[..2] + b[2..];
    Regroup(b[..2], spelled, data);
  }

  /** What is admitted is exactly the images. */
  lemma {:induction false} AdmittedExactly(b: Bytes)
    requires |b| >= 2
    ensures Admitted(b).Some? <==> exists im :: IsImage(b, im)
  {
    if Admitted(b).Some? {
      var im := AdmittedIsImage(b);
    }
    if exists im :: IsImage(b, im) {
      var im :| IsImage(b, im);
      ImagesAreAdmitted(b, im);
    }
  }
}
