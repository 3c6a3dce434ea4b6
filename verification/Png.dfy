/**
 Admission of PNG previews (src/XivLantern.Core/ImagePreview.cs:12-75).

 A chunk is its whole byte string: length, type, body and checksum (section 5.3 of the W3C PNG
 specification). The source checks and copies chunk by chunk; the specification first cuts the
 input into chunks, then says which lists are admissible, then which chunks are kept. Inflating
 (RFC 1950) is the parameter `inflate`: the decompressed bytes, or None where it fails.
 */
module Png {
  import opened ByteStrings
  import opened Results
  import opened PreviewLimits

  type Inflate = Bytes -> Option<Bytes>

  // Chunk types, four ASCII letters as one big-endian number.
  const IHDR := 0x49484452
  const PLTE := 0x504C5445
  const TRNS := 0x74524E53
  const IDAT := 0x49444154
  const IEND := 0x49454E44
  const ACTL := 0x6163544C
  const FCTL := 0x6663544C
  const FDAT := 0x66644154

  // ------------------------------------------------------------ cutting into chunks

  type Chunk = c: Bytes | |c| >= 12
    witness [0, 0, 0, 0, 0, 0, 0, 0, 0, 0, 0, 0]

  /** The length field counts the body. */
  predicate Framed(c: Chunk) {
    U32At(c, 0) == |c| - 12
  }

  function Kind(c: Chunk): nat {
    U32At(c, 4)
  }

  function Body(c: Chunk): Bytes {
    c[8..|c| - 4]
  }

  /** The chunk at `pos`, if it is complete. */
  function ChunkAt(b: Bytes, pos: nat): (r: Option<Chunk>) {
    if pos + 12 > |b| || pos + 12 + U32At(b, pos) > |b| then None
    else Some(b[pos..pos + 12 + U32At(b, pos)])
  }

  /** The chunks from `pos` to the end, if they fill it exactly. */
  function Chunks(b: Bytes, pos: nat): Option<seq<Chunk>>
    requires pos <= |b|
    decreases |b| - pos
  {
    if pos == |b| then Some([])
    else if ChunkAt(b, pos).None? then None
    else Prepend(ChunkAt(b, pos).value, Chunks(b, pos + |ChunkAt(b, pos).value|))
  }

  function Prepend(c: Chunk, rest: Option<seq<Chunk>>): Option<seq<Chunk>> {
    if rest.None? then None else Some([c] + rest.value)
  }

  lemma ChunkAfter(front: Bytes, c: Chunk, tail: Bytes, b: Bytes)
    requires b == front + (c + tail) && Framed(c)
    ensures ChunkAt(b, |front|) == Some(c)
  {
    assert forall i | 0 <= i < |c| :: b[|front| + i] == c[i];
    assert U32At(b, |front|) == U32At(c, 0);
    assert b[|front|..|front| + |c|] == c;
  }

  lemma ChunksStep(b: Bytes, pos: nat, c: Chunk, rest: seq<Chunk>)
    requires pos < |b| && ChunkAt(b, pos) == Some(c) && Chunks(b, pos + |c|) == Some(rest)
    ensures Chunks(b, pos) == Some([c] + rest)
  {
  }

  /** Cutting a concatenation of chunks finds those chunks. */
  lemma {:induction false} ChunksOfFlatten(front: Bytes, cs: seq<Chunk>, b: Bytes)
    requires b == front + Flatten(cs) && forall i | 0 <= i < |cs| :: Framed(cs[i])
    ensures Chunks(b, |front|) == Some(cs)
    decreases |cs|
  {
    if cs != [] {
      var c, rest := cs[0], cs[1..];
      ChunkAfter(front, c, Flatten(rest), b);
      Regroup(front, c, Flatten(rest));
      ChunksOfFlatten(front + c, rest, b);
      ChunksStep(b, |front|, c, rest);
      assert cs == [c] + rest;
    }
  }

  lemma ChunkIsFramed(b: Bytes, pos: nat)
    requires ChunkAt(b, pos).Some?
    ensures Framed(ChunkAt(b, pos).value)
  {
    var c := ChunkAt(b, pos).value;
    assert forall i | 0 <= i < 4 :: c[i] == b[pos + i];
  }

  /** Nothing is lost in cutting: the chunks spell the input. */
  lemma {:induction false} FlattenOfChunks(b: Bytes, pos: nat)
    requires pos <= |b| && Chunks(b, pos).Some?
    ensures Flatten(Chunks(b, pos).value) == b[pos..]
    ensures forall i | 0 <= i < |Chunks(b, pos).value| :: Framed(Chunks(b, pos).value[i])
    decreases |b| - pos
  {
    if pos < |b| {
      var c := ChunkAt(b, pos).value;
      FlattenOfChunks(b, pos + |c|);
      var rest := Chunks(b, pos + |c|).value;
      assert ([c] + rest)[1..] == rest;
      assert b[pos..] == c + b[pos + |c|..];
      ChunkIsFramed(b, pos);
    }
  }

  // ------------------------------------------------------------ admissible lists

  predicate HeaderOk(c: Chunk) {
    && |c| == 25 && DimensionsOk(U32At(c, 8), U32At(c, 12))
    && c[16] == 8 && c[17] in {0, 2, 3, 4, 6} && c[18] == 0 && c[19] == 0 && c[20] == 0
  }

  function Channels(colour: nat): nat {
    if colour == 0 || colour == 3 then 1 else if colour == 2 then 3 else if colour == 4 then 2
    else if colour == 6 then 4 else 0
  }

  predicate HasData(cs: seq<Chunk>) {
    exists i :: 0 <= i < |cs| && Kind(cs[i]) == IDAT
  }

  /** Something other than image data follows image data. */
  predicate DataEnded(cs: seq<Chunk>) {
    exists i, j :: 0 <= i < j < |cs| && Kind(cs[i]) == IDAT && Kind(cs[j]) != IDAT
  }

  predicate Ancillary(c: Chunk) {
    (c[4] as int) / 32 % 2 == 1
  }

  /** What a chunk other than header, data and end may be, given what precedes it. */
  predicate OtherOk(before: seq<Chunk>, c: Chunk) {
    if Kind(c) == PLTE then !HasData(before) && 12 < |c| <= 12 + 768 && (|c| - 12) % 3 == 0
    else if Kind(c) == TRNS then !HasData(before) && |c| <= 12 + 256
    else Kind(c) !in {ACTL, FCTL, FDAT} && Ancillary(c)
  }

  predicate ChunkOk(before: seq<Chunk>, c: Chunk) {
    if before == [] then Kind(c) == IHDR && HeaderOk(c)
    else
      && Kind(c) != IHDR && Kind(c) != IEND
      && if Kind(c) == IDAT then !DataEnded(before) else OtherOk(before, c)
  }

  /** A header, and then chunks each of which may follow those before it; no end yet. */
  predicate Prefix(cs: seq<Chunk>) {
    forall i | 0 <= i < |cs| :: ChunkOk(cs[..i], cs[i])
  }

  function Data(cs: seq<Chunk>): Bytes {
    if cs == [] then []
    else Data(cs[..|cs| - 1]) + if Kind(cs[|cs| - 1]) == IDAT then Body(cs[|cs| - 1]) else []
  }

  /** Row y starts with one of the filter types 0 to 4. */
  predicate RowOk(pixels: Bytes, row: int, y: nat) {
    0 <= y * row < |pixels| && pixels[y * row] <= 4
  }

  /** Exactly `height` rows of the given length, each with its filter byte. */
  predicate RowsOk(pixels: Option<Bytes>, row: int, height: nat) {
    pixels.Some? && |pixels.value| == height * row && forall y | 0 <= y < height :: RowOk(pixels.value, row, y)
  }

  predicate PixelsOk(pixels: Option<Bytes>, header: Chunk)
    requires HeaderOk(header)
  {
    RowsOk(pixels, U32At(header, 8) * Channels(header[17]) + 1, U32At(header, 12))
  }

  predicate Admissible(cs: seq<Chunk>, inflate: Inflate) {
    && |cs| > 1 && Kind(cs[|cs| - 1]) == IEND && |cs[|cs| - 1]| == 12
    && var front := cs[..|cs| - 1];
    && Prefix(front) && HasData(front)
    && ChunkOk([], front[0]) && PixelsOk(inflate(Data(front)), front[0])
  }

  // ------------------------------------------------------------ what is kept

  predicate IsKept(c: Chunk) {
    Kind(c) in {IHDR, PLTE, TRNS, IDAT, IEND}
  }

  function Kept(cs: seq<Chunk>): seq<Chunk> {
    if cs == [] then []
    else Kept(cs[..|cs| - 1]) + if IsKept(cs[|cs| - 1]) then [cs[|cs| - 1]] else []
  }

  /** What admission makes of an input that starts with the signature. */
  function Admitted(b: Bytes, inflate: Inflate): Option<Bytes>
    requires |b| >= 8
  {
    var cs := Chunks(b, 8);
    if cs.Some? && Admissible(cs.value, inflate) then Some(b[..8] + Flatten(Kept(cs.value))) else None
  }

  // ------------------------------------------------------------ one chunk more

  lemma PrefixStep(cs: seq<Chunk>, c: Chunk)
    ensures Prefix(cs + [c]) <==> Prefix(cs) && ChunkOk(cs, c)
  {
    var all := cs + [c];
    assert forall i | 0 <= i < |cs| :: all[..i] == cs[..i] && all[i] == cs[i];
    assert all[..|cs|] == cs && all[|cs|] == c;
    if Prefix(all) {
      assert ChunkOk(all[..|cs|], all[|cs|]);
      forall i | 0 <= i < |cs| ensures ChunkOk(cs[..i], cs[i]) { assert ChunkOk(all[..i], all[i]); }
    }
  }

  lemma HasDataStep(cs: seq<Chunk>, c: Chunk)
    ensures HasData(cs + [c]) <==> HasData(cs) || Kind(c) == IDAT
    ensures DataEnded(cs + [c]) <==> DataEnded(cs) || (HasData(cs) && Kind(c) != IDAT)
  {
    var all := cs + [c];
    assert forall i | 0 <= i < |cs| :: all[i] == cs[i];
    assert all[|cs|] == c;
  }

  lemma {:induction false} KeptStep(cs: seq<Chunk>, c: Chunk)
    ensures Kept(cs + [c]) == Kept(cs) + if IsKept(c) then [c] else []
    ensures Data(cs + [c]) == Data(cs) + if Kind(c) == IDAT then Body(c) else []
  {
    assert (cs + [c])[..|cs|] == cs;
  }

  lemma {:induction false} OutputStep(head: Bytes, cs: seq<Chunk>, c: Chunk, output: Bytes)
    requires output == head + Flatten(Kept(cs))
    ensures head + Flatten(Kept(cs + [c])) == if IsKept(c) then output + c else output
  {
    KeptStep(cs, c);
    if IsKept(c) {
      FlattenOne(c);
      FlattenConcat(Kept(cs), [c]);
      Regroup(head, Flatten(Kept(cs)), c);
    } else {
      assert Kept(cs) + [] == Kept(cs);
    }
  }

  // ------------------------------------------------------------ decisions on a whole list

  /** The end chunk settles the matter: nothing may follow it. */
  lemma {:induction false} EndDecides(cs: seq<Chunk>, c: Chunk, rest: seq<Chunk>, inflate: Inflate)
    requires Prefix(cs) && Kind(c) == IEND
    ensures Admissible(cs + [c] + rest, inflate) <==>
      && rest == [] && |c| == 12 && cs != [] && HasData(cs)
      && ChunkOk([], cs[0]) && PixelsOk(inflate(Data(cs)), cs[0])
  {
    if rest == [] {
      assert cs + [c] + rest == cs + [c];
      assert (cs + [c])[..|cs|] == cs;
    } else {
      FrontHolds(cs, c, rest);
    }
  }

  /** Everything but the last chunk of a longer list still holds `c` after `cs`. */
  lemma FrontHolds(cs: seq<Chunk>, c: Chunk, rest: seq<Chunk>)
    requires rest != []
    ensures var all := cs + [c] + rest;
      Prefix(all[..|all| - 1]) ==> ChunkOk(cs, c)
  {
    var all := cs + [c] + rest;
    var front := all[..|all| - 1];
    assert front[..|cs|] == cs;
    assert front[|cs|] == c;
    if Prefix(front) { assert ChunkOk(front[..|cs|], front[|cs|]); }
  }

  /** A chunk that may not follow what precedes it spoils every list it begins to extend. */
  lemma BadChunkRejects(cs: seq<Chunk>, c: Chunk, rest: seq<Chunk>, inflate: Inflate)
    requires Kind(c) != IEND && !ChunkOk(cs, c)
    ensures !Admissible(cs + [c] + rest, inflate)
  {
    assert (cs + [c] + rest)[|cs|] == c;
    if rest != [] { FrontHolds(cs, c, rest); }
  }

  lemma NoEndRejects(cs: seq<Chunk>, inflate: Inflate)
    requires Prefix(cs)
    ensures !Admissible(cs, inflate)
  {
    if cs != [] { assert ChunkOk(cs[..|cs| - 1], cs[|cs| - 1]); }
  }

  function Concat(cs: seq<Chunk>, rest: Option<seq<Chunk>>): Option<seq<Chunk>> {
    if rest.None? then None else Some(cs + rest.value)
  }

  lemma ConcatStep(b: Bytes, pos: nat, cs: seq<Chunk>, c: Chunk)
    requires pos < |b| && ChunkAt(b, pos) == Some(c)
    ensures Concat(cs, Chunks(b, pos)) == Concat(cs + [c], Chunks(b, pos + |c|))
  {
    var rest := Chunks(b, pos + |c|);
    if rest.Some? { assert cs + ([c] + rest.value) == (cs + [c]) + rest.value; }
  }

  // ------------------------------------------------------------ the source's loop

  /** The row check: every row starts with a filter type of at most 4, and nothing is left over. */
  method CheckRows(pixels: Option<Bytes>, width: nat, height: nat, channels: nat) returns (ok: bool)
    ensures ok <==> RowsOk(pixels, width * channels + 1, height)
  {
    if pixels.None? { return false; }
    var row := width * channels + 1;
    var at := 0;
    for y := 0 to height
      invariant at == y * row && at <= |pixels.value|
      invariant forall z | 0 <= z < y :: RowOk(pixels.value, row, z)
    {
      if at + row > |pixels.value| {
        TooShort(row, y, height);
        return false;
      }
      if pixels.value[at] > 4 {
        assert !RowOk(pixels.value, row, y);
        return false;
      }
      at := at + row;
    }
    ok := at == |pixels.value|;
  }

  lemma TooShort(row: int, y: nat, height: nat)
    requires y < height && row >= 0
    ensures y * row + row <= height * row
  {
    var more := height - y - 1;
    assert height * row == (y + 1 + more) * row == y * row + row + more * row;
  }

  /** `cs` has been read up to `pos`, and admitted so far. */
  ghost predicate ReadSoFar(b: Bytes, pos: nat, cs: seq<Chunk>) {
    8 <= pos <= |b| && Prefix(cs) && Chunks(b, 8) == Concat(cs, Chunks(b, pos))
  }

  lemma StartsRead(b: Bytes)
    requires |b| >= 8
    ensures ReadSoFar(b, 8, [])
  {
    var all := Chunks(b, 8);
    if all.Some? { assert [] + all.value == all.value; }
  }

  lemma Truncated(b: Bytes, pos: nat, cs: seq<Chunk>, inflate: Inflate)
    requires ReadSoFar(b, pos, cs) && ChunkAt(b, pos).None?
    ensures Admitted(b, inflate) == None
  {
    if pos == |b| {
      assert cs + [] == cs;
      NoEndRejects(cs, inflate);
    }
  }

  lemma BadChunk(b: Bytes, pos: nat, cs: seq<Chunk>, c: Chunk, inflate: Inflate)
    requires ReadSoFar(b, pos, cs) && ChunkAt(b, pos) == Some(c) && !ChunkOk(cs, c)
    requires Kind(c) == IEND ==> cs == []
    ensures Admitted(b, inflate) == None
  {
    ConcatStep(b, pos, cs, c);
    var rest := Chunks(b, pos + |c|);
    if rest.Some? {
      if Kind(c) == IEND { EndDecides(cs, c, rest.value, inflate); } else { BadChunkRejects(cs, c, rest.value, inflate); }
    }
  }

  lemma GoodChunk(b: Bytes, pos: nat, cs: seq<Chunk>, c: Chunk)
    requires ReadSoFar(b, pos, cs) && ChunkAt(b, pos) == Some(c) && ChunkOk(cs, c)
    ensures ReadSoFar(b, pos + |c|, cs + [c])
  {
    ConcatStep(b, pos, cs, c);
    PrefixStep(cs, c);
  }

  lemma {:induction false} EndChunk(b: Bytes, pos: nat, cs: seq<Chunk>, c: Chunk, inflate: Inflate)
    requires ReadSoFar(b, pos, cs) && ChunkAt(b, pos) == Some(c) && Kind(c) == IEND && cs != []
    ensures ChunkOk([], cs[0])
    ensures Admitted(b, inflate) ==
      if pos + |c| == |b| && |c| == 12 && HasData(cs) && PixelsOk(inflate(Data(cs)), cs[0])
      then Some(b[..8] + Flatten(Kept(cs + [c]))) else None
  {
    assert cs[..0] == [] && ChunkOk(cs[..0], cs[0]);
    ConcatStep(b, pos, cs, c);
    var rest := Chunks(b, pos + |c|);
    if rest.Some? {
      EndDecides(cs, c, rest.value, inflate);
      if rest.value == [] { assert cs + [c] + [] == cs + [c]; }
    }
  }

  /** What the loop's flags and numbers say about the chunks read. */
  ghost predicate Flags(cs: seq<Chunk>, header: bool, data: bool, endedData: bool, width: nat, height: nat, channels: nat) {
    && (header <==> cs != []) && (data <==> HasData(cs)) && (endedData <==> DataEnded(cs))
    && (cs != [] ==>
          ChunkOk([], cs[0])
          && width == U32At(cs[0], 8) && height == U32At(cs[0], 12) && channels == Channels(cs[0][17]))
  }

  lemma FlagsStep(cs: seq<Chunk>, c: Chunk, header: bool, data: bool, endedData: bool,
    width: nat, height: nat, channels: nat)
    requires Flags(cs, header, data, endedData, width, height, channels) && ChunkOk(cs, c)
    ensures var first := cs == [];
      Flags(cs + [c], true, data || Kind(c) == IDAT, endedData || (data && Kind(c) != IDAT),
        if first then U32At(c, 8) else width, if first then U32At(c, 12) else height,
        if first then Channels(c[17]) else channels)
  {
    HasDataStep(cs, c);
    assert (cs + [c])[0] == if cs == [] then c else cs[0];
  }

  /** The two streams after these chunks: what has been copied, and what is to be inflated. */
  ghost predicate Written(b: Bytes, cs: seq<Chunk>, output: Bytes, compressed: Bytes)
    requires |b| >= 8
  {
    output == b[..8] + Flatten(Kept(cs)) && compressed == Data(cs)
  }

  /** Everything the loop maintains. */
  ghost predicate Reading(b: Bytes, pos: nat, cs: seq<Chunk>, output: Bytes, compressed: Bytes) {
    ReadSoFar(b, pos, cs) && Written(b, cs, output, compressed)
  }

  lemma ReadingStep(b: Bytes, pos: nat, cs: seq<Chunk>, c: Chunk, output: Bytes, compressed: Bytes,
    next: nat, read: seq<Chunk>, copied: Bytes, stream: Bytes)
    requires Reading(b, pos, cs, output, compressed) && ChunkAt(b, pos) == Some(c) && ChunkOk(cs, c)
    requires next == pos + |c| && read == cs + [c]
    requires copied == if IsKept(c) then output + c else output
    requires stream == if Kind(c) == IDAT then compressed + Body(c) else compressed
    ensures Reading(b, next, read, copied, stream)
  {
    GoodChunk(b, pos, cs, c);
    OutputStep(b[..8], cs, c, output);
    KeptStep(cs, c);
    assert compressed + [] == compressed;
  }

  lemma FlagsSayRows(pixels: Option<Bytes>, cs: seq<Chunk>, data: bool, endedData: bool,
    width: nat, height: nat, channels: nat)
    requires Flags(cs, true, data, endedData, width, height, channels)
    ensures ChunkOk([], cs[0])
    ensures PixelsOk(pixels, cs[0]) <==> RowsOk(pixels, width * channels + 1, height)
  {
  }

  lemma EndOfReading(b: Bytes, pos: nat, cs: seq<Chunk>, c: Chunk, output: Bytes, compressed: Bytes, inflate: Inflate,
    data: bool, endedData: bool, width: nat, height: nat, channels: nat)
    requires Reading(b, pos, cs, output, compressed) && ChunkAt(b, pos) == Some(c) && Kind(c) == IEND
    requires Flags(cs, true, data, endedData, width, height, channels)
    ensures Admitted(b, inflate) ==
      if data && |c| == 12 && pos + |c| == |b| && RowsOk(inflate(compressed), width * channels + 1, height)
      then Some(output + c) else None
  {
    EndChunk(b, pos, cs, c, inflate);
    OutputStep(b[..8], cs, c, output);
    FlagsSayRows(inflate(compressed), cs, data, endedData, width, height, channels);
  }

  /** The source's branches on a chunk that is not the end: which of them throw. */
  predicate Accepts(c: Chunk, header: bool, data: bool, endedData: bool) {
    var length := |c| - 12;
    if !header && Kind(c) != IHDR then false
    else if Kind(c) == IHDR then !header && HeaderOk(c)
    else if Kind(c) == IDAT then !endedData
    else if Kind(c) == ACTL || Kind(c) == FCTL || Kind(c) == FDAT then false
    else if Kind(c) == PLTE then !data && length != 0 && length <= 768 && length % 3 == 0
    else if Kind(c) == TRNS then !data && length <= 256
    else Ancillary(c)
  }

  lemma FlagsDecide(cs: seq<Chunk>, c: Chunk, header: bool, data: bool, endedData: bool,
    width: nat, height: nat, channels: nat)
    requires Flags(cs, header, data, endedData, width, height, channels)
    requires Kind(c) == IEND ==> !header
    ensures Accepts(c, header, data, endedData) <==> ChunkOk(cs, c)
  {
  }

  /** Writes an accepted chunk to the output and its data to the stream to inflate, and moves on. */
  method Copy(bytes: Bytes, pos: nat, ghost cs: seq<Chunk>, c: Chunk, output: Bytes, compressed: Bytes)
    returns (next: nat, ghost read: seq<Chunk>, copied: Bytes, stream: Bytes)
    requires Reading(bytes, pos, cs, output, compressed) && ChunkAt(bytes, pos) == Some(c) && ChunkOk(cs, c)
    ensures next == pos + |c| && read == cs + [c] && Reading(bytes, next, read, copied, stream)
  {
    copied := if IsKept(c) then output + c else output;
    stream := if Kind(c) == IDAT then compressed + Body(c) else compressed;
    next, read := pos + |c|, cs + [c];
    ReadingStep(bytes, pos, cs, c, output, compressed, next, read, copied, stream);
  }

  /** The end chunk: nothing after it, and the inflated data must be the image's rows. */
  method Finish(bytes: Bytes, pos: nat, ghost cs: seq<Chunk>, c: Chunk, output: Bytes, compressed: Bytes,
    inflate: Inflate, data: bool, ghost endedData: bool, width: nat, height: nat, channels: nat)
    returns (out: Option<Bytes>)
    requires Reading(bytes, pos, cs, output, compressed) && ChunkAt(bytes, pos) == Some(c) && Kind(c) == IEND
    requires Flags(cs, true, data, endedData, width, height, channels)
    ensures out == Admitted(bytes, inflate)
  {
    EndOfReading(bytes, pos, cs, c, output, compressed, inflate, data, endedData, width, height, channels);
    if !data || |c| != 12 || pos + |c| != |bytes| { return None; }
    var rows := CheckRows(inflate(compressed), width, height, channels);
    out := if rows then Some(output + c) else None;
  }

  method Admit(bytes: Bytes, inflate: Inflate) returns (out: Option<Bytes>)
    requires |bytes| >= 8
    ensures out == Admitted(bytes, inflate)
  {
    var output := bytes[..8];
    var compressed: Bytes := [];
    var width, height, channels := 0, 0, 0;
    var pos, header, data, endedData := 8, false, false, false;
    ghost var cs: seq<Chunk> := [];
    StartsRead(bytes);
    while pos + 12 <= |bytes|
      invariant Reading(bytes, pos, cs, output, compressed)
      invariant Flags(cs, header, data, endedData, width, height, channels)
      decreases |bytes| - pos
    {
      var length := U32At(bytes, pos);
      if length > |bytes| - pos - 12 {
        Truncated(bytes, pos, cs, inflate);
        return None;
      }
      var chunk := ChunkAt(bytes, pos).value;
      var kind := Kind(chunk);
      if kind == IEND && header {
        out := Finish(bytes, pos, cs, chunk, output, compressed, inflate, data, endedData, width, height, channels);
        return;
      }
      FlagsDecide(cs, chunk, header, data, endedData, width, height, channels);
      if !Accepts(chunk, header, data, endedData) {
        BadChunk(bytes, pos, cs, chunk, inflate);
        return None;
      }
      FlagsStep(cs, chunk, header, data, endedData, width, height, channels);
      if kind == IHDR {
        width, height, channels := U32At(chunk, 8), U32At(chunk, 12), Channels(chunk[17]);
        header := true;
      } else if kind == IDAT {
        data := true;
      } else if data {
        endedData := true;
      }
      pos, cs, output, compressed := Copy(bytes, pos, cs, chunk, output, compressed);
    }
    Truncated(bytes, pos, cs, inflate);
    out := None;
  }

  // ------------------------------------------------------------ meaning and fixed point

  lemma {:induction false} KeptFrames(cs: seq<Chunk>)
    requires forall i | 0 <= i < |cs| :: Framed(cs[i])
    ensures forall i | 0 <= i < |Kept(cs)| :: Framed(Kept(cs)[i]) && IsKept(Kept(cs)[i])
    ensures |Flatten(Kept(cs))| <= |Flatten(cs)|
  {
    if cs != [] {
      var front, last := cs[..|cs| - 1], cs[|cs| - 1];
      KeptFrames(front);
      assert cs == front + [last];
      FlattenConcat(front, [last]);
      FlattenConcat(Kept(front), [last]);
      FlattenOne(last);
      assert Kept(front) + [] == Kept(front);
    }
  }

  lemma {:induction false} KeptTwice(cs: seq<Chunk>)
    ensures Kept(Kept(cs)) == Kept(cs)
  {
    if cs != [] {
      var front, last := cs[..|cs| - 1], cs[|cs| - 1];
      KeptTwice(front);
      assert cs == front + [last];
      KeptStep(front, last);
      if IsKept(last) { KeptStep(Kept(front), last); } else { assert Kept(front) + [] == Kept(front); }
    }
  }

  /** A later chunk is judged alike after either list. */
  ghost predicate JudgedAlike(k: seq<Chunk>, cs: seq<Chunk>) {
    && Prefix(k) && Data(k) == Data(cs) && (k == [] <==> cs == [])
    && (cs != [] ==> k[0] == cs[0]) && (HasData(k) <==> HasData(cs)) && (DataEnded(k) ==> DataEnded(cs))
  }

  lemma BothTakeIt(k: seq<Chunk>, cs: seq<Chunk>, c: Chunk)
    requires JudgedAlike(k, cs) && ChunkOk(cs, c) && IsKept(c)
    ensures JudgedAlike(k + [c], cs + [c])
  {
    PrefixStep(k, c);
    KeptStep(k, c);
    KeptStep(cs, c);
    HasDataStep(k, c);
    HasDataStep(cs, c);
  }

  lemma OneSkipsIt(k: seq<Chunk>, cs: seq<Chunk>, c: Chunk)
    requires JudgedAlike(k, cs) && ChunkOk(cs, c) && !IsKept(c)
    ensures JudgedAlike(k, cs + [c])
  {
    KeptStep(cs, c);
    HasDataStep(cs, c);
    assert Data(cs) + [] == Data(cs);
  }

  /** Dropping ancillary chunks changes nothing that a later chunk is judged by. */
  lemma {:induction false} KeptPrefix(cs: seq<Chunk>)
    requires Prefix(cs)
    ensures JudgedAlike(Kept(cs), cs)
  {
    if cs != [] {
      var front, last := cs[..|cs| - 1], cs[|cs| - 1];
      assert cs == front + [last];
      PrefixStep(front, last);
      KeptPrefix(front);
      KeptStep(front, last);
      if IsKept(last) {
        BothTakeIt(Kept(front), front, last);
      } else {
        OneSkipsIt(Kept(front), front, last);
        assert Kept(front) + [] == Kept(front);
      }
    }
  }

  lemma {:induction false} KeptAdmissible(cs: seq<Chunk>, inflate: Inflate)
    requires Admissible(cs, inflate)
    ensures Admissible(Kept(cs), inflate)
    ensures Data(Kept(cs)) == Data(cs)
  {
    var front, last := cs[..|cs| - 1], cs[|cs| - 1];
    assert cs == front + [last];
    KeptPrefix(front);
    KeptStep(front, last);
    KeptStep(Kept(front), last);
    assert Kept(cs)[..|Kept(front)|] == Kept(front);
    assert Data(front) + [] == Data(front);
  }

  /**
   Admission keeps the image: the output is cut into exactly the input's header, palette,
   transparency, data and end chunks, bytes and order unchanged, and its data inflates alike.
   */
  lemma {:induction false} AdmissionKeepsMeaning(b: Bytes, inflate: Inflate)
    requires |b| >= 8 && Admitted(b, inflate).Some?
    ensures var out := Admitted(b, inflate).value;
      && 8 <= |out| <= |b| && out[..8] == b[..8]
      && Chunks(b, 8).Some? && Chunks(out, 8) == Some(Kept(Chunks(b, 8).value))
      && Data(Chunks(out, 8).value) == Data(Chunks(b, 8).value)
  {
    var cs := Chunks(b, 8).value;
    var out := Admitted(b, inflate).value;
    FlattenOfChunks(b, 8);
    KeptFrames(cs);
    ChunksOfFlatten(b[..8], Kept(cs), out);
    KeptAdmissible(cs, inflate);
  }

  /** Admitting the output again returns it unchanged. */
  lemma AdmissionIsFixedPoint(b: Bytes, inflate: Inflate)
    requires |b| >= 8 && Admitted(b, inflate).Some?
    ensures var out := Admitted(b, inflate).value;
      |out| >= 8 && Admitted(out, inflate) == Some(out)
  {
    var cs := Chunks(b, 8).value;
    AdmissionKeepsMeaning(b, inflate);
    KeptAdmissible(cs, inflate);
    KeptTwice(cs);
  }

  /** Every kept chunk stands in the input, with exactly as many kept chunks before it. */
  lemma {:induction false} KeptIsFilter(cs: seq<Chunk>, i: nat)
    requires i < |Kept(cs)|
    ensures exists j :: i <= j < |cs| && cs[j] == Kept(cs)[i] && IsKept(cs[j]) && |Kept(cs[..j])| == i
  {
    var front, last := cs[..|cs| - 1], cs[|cs| - 1];
    assert cs == front + [last];
    KeptStep(front, last);
    if i < |Kept(front)| {
      KeptIsFilter(front, i);
      var j :| i <= j < |front| && front[j] == Kept(front)[i] && IsKept(front[j]) && |Kept(front[..j])| == i;
      assert cs[j] == front[j] && cs[..j] == front[..j];
    } else {
      KeptSize(front);
      assert cs[|front|] == last && cs[..|front|] == front;
    }
  }

  /** And every kept kind of chunk of the input is there, in that place: nothing is lost or moved. */
  lemma {:induction false} NothingKeptIsLost(cs: seq<Chunk>, j: nat)
    requires j < |cs| && IsKept(cs[j])
    ensures |Kept(cs[..j])| < |Kept(cs)| && Kept(cs)[|Kept(cs[..j])|] == cs[j]
  {
    var front, last := cs[..|cs| - 1], cs[|cs| - 1];
    assert cs == front + [last];
    KeptStep(front, last);
    if j < |front| {
      NothingKeptIsLost(front, j);
      assert cs[..j] == front[..j];
    } else {
      assert cs[..j] == front;
    }
  }

  lemma {:induction false} KeptSize(cs: seq<Chunk>)
    ensures |Kept(cs)| <= |cs|
  {
    if cs != [] { KeptSize(cs[..|cs| - 1]); }
  }
}
