/**
 Which PNG previews are admitted (src/XivLantern.Core/ImagePreview.cs:26-75), said of images: rows
 of pixels of one colour type, spelled as section 7.2 of the W3C PNG specification says, in a file
 whose chunks stand in one order. A chunk's type is its four letters (section 5.3).
 */
module PngImages {
  import opened ByteStrings
  import opened Results
  import opened Png

  // ------------------------------------------------------------ images

  /** One constructor for each colour type, eight bits a sample. */
  datatype Pixel =
    | Grey(value: byte)
    | RedGreenBlue(red: byte, green: byte, blue: byte)
    | Indexed(index: byte)
    | GreyAlpha(value: byte, alpha: byte)
    | RedGreenBlueAlpha(red: byte, green: byte, blue: byte, alpha: byte)

  function ColourType(p: Pixel): byte {
    match p
    case Grey(_) => 0
    case RedGreenBlue(_, _, _) => 2
    case Indexed(_) => 3
    case GreyAlpha(_, _) => 4
    case RedGreenBlueAlpha(_, _, _, _) => 6
  }

  function Samples(p: Pixel): Bytes {
    match p
    case Grey(value) => [value]
    case RedGreenBlue(red, green, blue) => [red, green, blue]
    case Indexed(index) => [index]
    case GreyAlpha(value, alpha) => [value, alpha]
    case RedGreenBlueAlpha(red, green, blue, alpha) => [red, green, blue, alpha]
  }

  function AllSamples(pixels: seq<Pixel>): Bytes {
    if pixels == [] then [] else AllSamples(pixels[..|pixels| - 1]) + Samples(pixels[|pixels| - 1])
  }

  datatype Line = Line(filter: byte, pixels: seq<Pixel>)

  function Spelled(lines: seq<Line>): Bytes {
    if lines == [] then []
    else
      var last := lines[|lines| - 1];
      Spelled(lines[..|lines| - 1]) + ([last.filter] + AllSamples(last.pixels))
  }

  datatype Image = Image(width: nat, height: nat, colour: byte, lines: seq<Line>)

  predicate LineOk(line: Line, width: nat, colour: byte) {
    line.filter <= 4 && |line.pixels| == width && forall x | 0 <= x < width :: ColourType(line.pixels[x]) == colour
  }

  predicate LinesOk(lines: seq<Line>, width: nat, colour: byte) {
    forall y | 0 <= y < |lines| :: LineOk(lines[y], width, colour)
  }

  predicate ImageOk(im: Image) {
    && 1 <= im.width <= 4096 && 1 <= im.height <= 4096 && im.width * im.height <= 8388608
    && im.colour in {0, 2, 3, 4, 6} && |im.lines| == im.height && LinesOk(im.lines, im.width, im.colour)
  }

  // ------------------------------------------------------------ files

  predicate Named(c: Chunk, name: string)
    requires |name| == 4 && forall i | 0 <= i < 4 :: name[i] < 128 as char
  {
    c[4..8] == Ascii(name)
  }

  /** The first letter is lower-case: its bit five is set. */
  predicate Optional(c: Chunk) {
    c[4] % 64 >= 32
  }

  /** A chunk a decoder may skip, and no animation. */
  predicate Skippable(c: Chunk) {
    Optional(c) && !Named(c, "tRNS") && !Named(c, "acTL") && !Named(c, "fcTL") && !Named(c, "fdAT")
  }

  /** Before the image data: a palette of at most 256 colours, transparency, or what may be skipped. */
  predicate MayPrecede(c: Chunk) {
    || (Named(c, "PLTE") && 12 < |c| <= 780 && |c| % 3 == 0)
    || (Named(c, "tRNS") && |c| <= 268)
    || Skippable(c)
  }

  predicate SaysImage(c: Chunk, im: Image) {
    && Named(c, "IHDR") && |c| == 25 && U32At(c, 8) == im.width && U32At(c, 12) == im.height
    && c[16..21] == [8, im.colour, 0, 0, 0]
  }

  datatype File = File(header: Chunk, before: seq<Chunk>, data: seq<Chunk>, after: seq<Chunk>, end: Chunk)

  function Order(header: Chunk, before: seq<Chunk>, data: seq<Chunk>, after: seq<Chunk>): seq<Chunk> {
    [header] + before + data + after
  }

  function ChunksOf(f: File): seq<Chunk> {
    Order(f.header, f.before, f.data, f.after) + [f.end]
  }

  function Bodies(data: seq<Chunk>): Bytes {
    if data == [] then [] else Bodies(data[..|data| - 1]) + Body(data[|data| - 1])
  }

  predicate PartsOk(before: seq<Chunk>, data: seq<Chunk>, after: seq<Chunk>) {
    && (forall i | 0 <= i < |before| :: MayPrecede(before[i]))
    && (forall i | 0 <= i < |data| :: Named(data[i], "IDAT"))
    && (forall i | 0 <= i < |after| :: Skippable(after[i]))
  }

  /** The bytes after the signature are this file, and the file is this image. */
  ghost predicate IsImage(b: Bytes, inflate: Inflate, f: File, im: Image)
    requires |b| >= 8
  {
    && b == b[..8] + Flatten(ChunksOf(f)) && (forall i | 0 <= i < |ChunksOf(f)| :: Framed(ChunksOf(f)[i]))
    && SaysImage(f.header, im) && ImageOk(im)
    && PartsOk(f.before, f.data, f.after) && f.data != []
    && Named(f.end, "IEND") && |f.end| == 12
    && inflate(Bodies(f.data)) == Some(Spelled(im.lines))
  }

  // ------------------------------------------------------------ names are numbers

  lemma LettersAreKind(c: Chunk, name: string, w: byte, x: byte, y: byte, z: byte)
    requires |name| == 4 && forall i | 0 <= i < 4 :: name[i] < 128 as char
    requires Ascii(name) == [w, x, y, z]
    ensures Named(c, name) <==> Kind(c) == ((w * 256 + x) * 256 + y) * 256 + z
  {
    assert c[4..8] == [c[4], c[5], c[6], c[7]];
  }

  lemma NamesAreKinds(c: Chunk)
    ensures (Named(c, "IHDR") <==> Kind(c) == IHDR) && (Named(c, "PLTE") <==> Kind(c) == PLTE)
    ensures (Named(c, "tRNS") <==> Kind(c) == TRNS) && (Named(c, "IDAT") <==> Kind(c) == IDAT)
    ensures (Named(c, "IEND") <==> Kind(c) == IEND) && (Named(c, "acTL") <==> Kind(c) == ACTL)
    ensures (Named(c, "fcTL") <==> Kind(c) == FCTL) && (Named(c, "fdAT") <==> Kind(c) == FDAT)
  {
    LettersAreKind(c, "IHDR", 0x49, 0x48, 0x44, 0x52);
    LettersAreKind(c, "PLTE", 0x50, 0x4C, 0x54, 0x45);
    LettersAreKind(c, "tRNS", 0x74, 0x52, 0x4E, 0x53);
    LettersAreKind(c, "IDAT", 0x49, 0x44, 0x41, 0x54);
    LettersAreKind(c, "IEND", 0x49, 0x45, 0x4E, 0x44);
    LettersAreKind(c, "acTL", 0x61, 0x63, 0x54, 0x4C);
    LettersAreKind(c, "fcTL", 0x66, 0x63, 0x54, 0x4C);
    LettersAreKind(c, "fdAT", 0x66, 0x64, 0x41, 0x54);
  }

  lemma OptionalIsAncillary(c: Chunk)
    ensures Optional(c) <==> Ancillary(c)
    ensures Ancillary(c) ==> Kind(c) !in {IHDR, PLTE, IDAT, IEND}
  {
    NamesAreKinds(c);
    LetterOfName(c, "IHDR");
    LetterOfName(c, "PLTE");
    LetterOfName(c, "IDAT");
    LetterOfName(c, "IEND");
  }

  lemma LetterOfName(c: Chunk, name: string)
    requires |name| == 4 && forall i | 0 <= i < 4 :: name[i] < 128 as char
    ensures Named(c, name) ==> c[4] == name[0] as int
  {
    assert Named(c, name) ==> c[4..8][0] == Ascii(name)[0];
  }

  // ------------------------------------------------------------ pixels and rows

  lemma TimesNext(n: nat, k: nat)
    ensures (n + 1) * k == n * k + k
  {
  }

  lemma {:induction false} SamplesSize(pixels: seq<Pixel>, colour: byte)
    requires forall x | 0 <= x < |pixels| :: ColourType(pixels[x]) == colour
    ensures |AllSamples(pixels)| == |pixels| * Channels(colour)
  {
    if pixels != [] {
      SamplesSize(pixels[..|pixels| - 1], colour);
      TimesNext(|pixels| - 1, Channels(colour));
    }
  }

  function ReadPixel(b: Bytes, colour: byte): (p: Pixel)
    requires colour in {0, 2, 3, 4, 6} && |b| == Channels(colour)
    ensures ColourType(p) == colour && Samples(p) == b
  {
    if colour == 0 then Grey(b[0])
    else if colour == 2 then RedGreenBlue(b[0], b[1], b[2])
    else if colour == 3 then Indexed(b[0])
    else if colour == 4 then GreyAlpha(b[0], b[1])
    else RedGreenBlueAlpha(b[0], b[1], b[2], b[3])
  }

  lemma {:induction false} ReadPixels(b: Bytes, n: nat, colour: byte, size: nat) returns (pixels: seq<Pixel>)
    requires colour in {0, 2, 3, 4, 6} && size == Channels(colour) && |b| == n * size
    ensures |pixels| == n && AllSamples(pixels) == b
    ensures forall x | 0 <= x < n :: ColourType(pixels[x]) == colour
  {
    if n == 0 {
      pixels := [];
    } else {
      TimesNext(n - 1, size);
      var cut := |b| - size;
      var front := ReadPixels(b[..cut], n - 1, colour, size);
      pixels := MorePixels(b, cut, front, colour);
    }
  }

  lemma MorePixels(b: Bytes, cut: nat, front: seq<Pixel>, colour: byte) returns (pixels: seq<Pixel>)
    requires colour in {0, 2, 3, 4, 6} && |b| == cut + Channels(colour) && AllSamples(front) == b[..cut]
    requires forall x | 0 <= x < |front| :: ColourType(front[x]) == colour
    ensures |pixels| == |front| + 1 && AllSamples(pixels) == b
    ensures forall x | 0 <= x < |pixels| :: ColourType(pixels[x]) == colour
  {
    var last := ReadPixel(b[cut..], colour);
    pixels := front + [last];
    SamplesStep(front, last);
    assert b == b[..cut] + b[cut..];
  }

  lemma {:induction false} SamplesStep(pixels: seq<Pixel>, p: Pixel)
    ensures AllSamples(pixels + [p]) == AllSamples(pixels) + Samples(p)
  {
    assert (pixels + [p])[..|pixels|] == pixels;
  }

  lemma {:induction false} SpelledStep(lines: seq<Line>, line: Line)
    ensures Spelled(lines + [line]) == Spelled(lines) + ([line.filter] + AllSamples(line.pixels))
  {
    assert (lines + [line])[..|lines|] == lines;
  }

  ghost predicate RowsIn(pixels: Bytes, row: nat, height: nat) {
    |pixels| == height * row && forall y | 0 <= y < height :: RowOk(pixels, row, y)
  }

  /** One row more. */
  lemma RowsStep(pixels: Bytes, row: nat, height: nat, line: Bytes)
    requires |pixels| == height * row && |line| == row && row > 0
    ensures RowsIn(pixels + line, row, height + 1) <==> RowsIn(pixels, row, height) && line[0] <= 4
  {
    TimesNext(height, row);
    forall y | 0 <= y < height
      ensures 0 <= y * row < height * row && RowOk(pixels + line, row, y) == RowOk(pixels, row, y)
    {
      Within(y, height, row);
    }
    assert RowOk(pixels + line, row, height) == (line[0] <= 4);
  }

  lemma Within(y: nat, height: nat, row: nat)
    requires y < height && row > 0
    ensures 0 <= y * row < height * row
  {
    TooShort(row, y, height);
    assert y * row >= 0;
  }

  lemma {:induction false} SpelledHasRows(lines: seq<Line>, width: nat, colour: byte)
    requires LinesOk(lines, width, colour)
    ensures RowsIn(Spelled(lines), width * Channels(colour) + 1, |lines|)
  {
    if lines != [] {
      var front, last := lines[..|lines| - 1], lines[|lines| - 1];
      assert LineOk(last, width, colour);
      SpelledHasRows(front, width, colour);
      SamplesSize(last.pixels, colour);
      RowsStep(Spelled(front), width * Channels(colour) + 1, |front|, [last.filter] + AllSamples(last.pixels));
    }
  }

  lemma {:induction false} ReadLines(pixels: Bytes, width: nat, height: nat, colour: byte, row: nat) returns (lines: seq<Line>)
    requires colour in {0, 2, 3, 4, 6} && row == width * Channels(colour) + 1 && RowsIn(pixels, row, height)
    ensures |lines| == height && LinesOk(lines, width, colour) && Spelled(lines) == pixels
  {
    if height == 0 {
      lines := [];
    } else {
      var cut := LastRow(pixels, row, height);
      var front := ReadLines(pixels[..cut], width, height - 1, colour, row);
      lines := MoreLines(pixels, cut, front, width, colour, row);
    }
  }

  lemma {:induction false} MoreLines(pixels: Bytes, cut: nat, front: seq<Line>, width: nat, colour: byte, row: nat)
    returns (lines: seq<Line>)
    requires colour in {0, 2, 3, 4, 6} && row == width * Channels(colour) + 1
    requires cut + row == |pixels| && pixels[cut] <= 4 && Spelled(front) == pixels[..cut] && LinesOk(front, width, colour)
    ensures |lines| == |front| + 1 && LinesOk(lines, width, colour) && Spelled(lines) == pixels
  {
    var last := ReadLine(pixels[cut..], width, colour);
    lines := front + [last];
    SpelledStep(front, last);
    assert pixels == pixels[..cut] + pixels[cut..];
  }

  lemma LastRow(pixels: Bytes, row: nat, height: nat) returns (cut: nat)
    requires RowsIn(pixels, row, height) && height > 0 && row > 0
    ensures cut + row == |pixels| && RowsIn(pixels[..cut], row, height - 1) && pixels[cut] <= 4
  {
    TimesNext(height - 1, row);
    cut := (height - 1) * row;
    var front, line := pixels[..cut], pixels[cut..];
    assert pixels == front + line;
    RowsStep(front, row, height - 1, line);
  }

  lemma {:induction false} ReadLine(b: Bytes, width: nat, colour: byte) returns (line: Line)
    requires colour in {0, 2, 3, 4, 6} && |b| == width * Channels(colour) + 1 && b[0] <= 4
    ensures LineOk(line, width, colour) && [line.filter] + AllSamples(line.pixels) == b
  {
    var read := ReadPixels(b[1..], width, colour, Channels(colour));
    line := Line(b[0], read);
    assert b == [b[0]] + b[1..];
  }

  // ------------------------------------------------------------ the order of the chunks

  /** What the next chunk is judged by, for a list whose image data and what follows it are these. */
  ghost predicate Judged(cs: seq<Chunk>, data: seq<Chunk>, after: seq<Chunk>) {
    && cs != [] && Prefix(cs) && (HasData(cs) <==> data != []) && (DataEnded(cs) <==> after != [])
    && Data(cs) == Bodies(data)
  }

  lemma JudgedBefore(cs: seq<Chunk>, c: Chunk)
    requires Judged(cs, [], []) && MayPrecede(c)
    ensures Judged(cs + [c], [], [])
  {
    NamesAreKinds(c);
    OptionalIsAncillary(c);
    PrefixStep(cs, c);
    HasDataStep(cs, c);
    KeptStep(cs, c);
  }

  lemma JudgedData(cs: seq<Chunk>, data: seq<Chunk>, c: Chunk)
    requires Judged(cs, data, []) && Named(c, "IDAT")
    ensures Judged(cs + [c], data + [c], [])
  {
    NamesAreKinds(c);
    PrefixStep(cs, c);
    HasDataStep(cs, c);
    KeptStep(cs, c);
    BodiesStep(data, c);
  }

  lemma JudgedAfter(cs: seq<Chunk>, data: seq<Chunk>, after: seq<Chunk>, c: Chunk)
    requires Judged(cs, data, after) && data != [] && Skippable(c)
    ensures Judged(cs + [c], data, after + [c])
  {
    NamesAreKinds(c);
    OptionalIsAncillary(c);
    PrefixStep(cs, c);
    HasDataStep(cs, c);
    KeptStep(cs, c);
    assert Data(cs) + [] == Data(cs);
  }

  lemma {:induction false} BodiesStep(data: seq<Chunk>, c: Chunk)
    ensures Bodies(data + [c]) == Bodies(data) + Body(c)
  {
    assert (data + [c])[..|data|] == data;
  }

  lemma PartsGrow(before: seq<Chunk>, data: seq<Chunk>, after: seq<Chunk>, c: Chunk)
    requires PartsOk(before, data, after)
    ensures MayPrecede(c) ==> PartsOk(before + [c], data, after)
    ensures Named(c, "IDAT") ==> PartsOk(before, data + [c], after)
    ensures Skippable(c) ==> PartsOk(before, data, after + [c])
  {
  }

  lemma OrderBefore(header: Chunk, before: seq<Chunk>, c: Chunk)
    ensures Order(header, before + [c], [], []) == Order(header, before, [], []) + [c]
  {
  }

  lemma OrderData(header: Chunk, before: seq<Chunk>, data: seq<Chunk>, c: Chunk)
    ensures Order(header, before, data + [c], []) == Order(header, before, data, []) + [c]
  {
  }

  lemma OrderAfter(header: Chunk, before: seq<Chunk>, data: seq<Chunk>, after: seq<Chunk>, c: Chunk)
    ensures Order(header, before, data, after + [c]) == Order(header, before, data, after) + [c]
  {
  }

  /** What has been read, sorted into its parts. */
  ghost predicate Sorted(cs: seq<Chunk>, before: seq<Chunk>, data: seq<Chunk>, after: seq<Chunk>) {
    PartsOk(before, data, after) && (data == [] ==> after == []) && Judged(cs, data, after)
  }

  /** A chunk that may follow belongs to one of the parts. */
  lemma Belongs(cs: seq<Chunk>, data: seq<Chunk>, after: seq<Chunk>, c: Chunk)
    requires Judged(cs, data, after) && ChunkOk(cs, c)
    ensures || (data == [] && MayPrecede(c)) || (after == [] && Named(c, "IDAT")) || (data != [] && Skippable(c))
  {
    NamesAreKinds(c);
    OptionalIsAncillary(c);
  }

  lemma HeaderAlone(c: Chunk)
    requires ChunkOk([], c)
    ensures Sorted([c], [], [], []) && Order(c, [], [], []) == [c]
  {
    HeaderIsPrefix(c);
    assert Prefix([c]) && !HasData([c]) && !DataEnded([c]) && Data([c]) == [] == Bodies([]);
  }

  lemma HeaderIsPrefix(c: Chunk)
    requires ChunkOk([], c)
    ensures Prefix([c]) && !HasData([c]) && !DataEnded([c]) && Data([c]) == []
  {
    assert [c][..0] == [];
  }

  /** The part that the chunk belongs to grows. */
  lemma Takes(cs: seq<Chunk>, before: seq<Chunk>, data: seq<Chunk>, after: seq<Chunk>, c: Chunk)
    returns (b: seq<Chunk>, d: seq<Chunk>, a: seq<Chunk>)
    requires Sorted(cs, before, data, after) && ChunkOk(cs, c)
    ensures Sorted(cs + [c], b, d, a) && Grows(before, data, after, b, d, a, c)
  {
    Belongs(cs, data, after, c);
    PartsGrow(before, data, after, c);
    if data == [] && MayPrecede(c) {
      b, d, a := before + [c], data, after;
      JudgedBefore(cs, c);
    } else if after == [] && Named(c, "IDAT") {
      b, d, a := before, data + [c], after;
      JudgedData(cs, data, c);
    } else {
      b, d, a := before, data, after + [c];
      JudgedAfter(cs, data, after, c);
    }
  }

  predicate Grows(before: seq<Chunk>, data: seq<Chunk>, after: seq<Chunk>,
    b: seq<Chunk>, d: seq<Chunk>, a: seq<Chunk>, c: Chunk)
  {
    || (data == after == d == a == [] && b == before + [c])
    || (after == a == [] && b == before && d == data + [c])
    || (b == before && d == data && a == after + [c])
  }

  lemma OrderGrows(header: Chunk, before: seq<Chunk>, data: seq<Chunk>, after: seq<Chunk>,
    b: seq<Chunk>, d: seq<Chunk>, a: seq<Chunk>, c: Chunk)
    requires Grows(before, data, after, b, d, a, c)
    ensures Order(header, b, d, a) == Order(header, before, data, after) + [c]
  {
    OrderBefore(header, before, c);
    OrderData(header, before, data, c);
    OrderAfter(header, before, data, after, c);
  }

  lemma {:induction false} Parts(cs: seq<Chunk>) returns (before: seq<Chunk>, data: seq<Chunk>, after: seq<Chunk>)
    requires cs != [] && Prefix(cs)
    ensures cs == Order(cs[0], before, data, after) && Sorted(cs, before, data, after)
  {
    var front, c := cs[..|cs| - 1], cs[|cs| - 1];
    assert cs == front + [c];
    PrefixStep(front, c);
    if front == [] {
      before, data, after := [], [], [];
      HeaderAlone(c);
    } else {
      var b, d, a := Parts(front);
      before, data, after := Takes(front, b, d, a, c);
      OrderGrows(front[0], b, d, a, before, data, after, c);
    }
  }

  lemma {:induction false} BeforeIsSorted(c: Chunk, before: seq<Chunk>)
    requires ChunkOk([], c) && PartsOk(before, [], [])
    ensures Sorted(Order(c, before, [], []), before, [], [])
  {
    if before == [] {
      HeaderAlone(c);
    } else {
      var front, last := before[..|before| - 1], before[|before| - 1];
      assert before == front + [last];
      BeforeIsSorted(c, front);
      JudgedBefore(Order(c, front, [], []), last);
      OrderBefore(c, front, last);
    }
  }

  lemma {:induction false} DataIsSorted(c: Chunk, before: seq<Chunk>, data: seq<Chunk>)
    requires ChunkOk([], c) && PartsOk(before, data, [])
    ensures Sorted(Order(c, before, data, []), before, data, [])
  {
    if data == [] {
      BeforeIsSorted(c, before);
    } else {
      var front, last := data[..|data| - 1], data[|data| - 1];
      assert data == front + [last];
      DataIsSorted(c, before, front);
      JudgedData(Order(c, before, front, []), front, last);
      OrderData(c, before, front, last);
    }
  }

  lemma {:induction false} PartsAreSorted(c: Chunk, before: seq<Chunk>, data: seq<Chunk>, after: seq<Chunk>)
    requires ChunkOk([], c) && PartsOk(before, data, after) && data != []
    ensures Sorted(Order(c, before, data, after), before, data, after)
    decreases |after|
  {
    if after == [] {
      DataIsSorted(c, before, data);
    } else {
      var front, last := after[..|after| - 1], after[|after| - 1];
      assert after == front + [last];
      PartsAreSorted(c, before, data, front);
      JudgedAfter(Order(c, before, data, front), data, front, last);
      OrderAfter(c, before, data, front, last);
    }
  }

  // ------------------------------------------------------------ what comes out

  /** The palettes and transparency among the chunks before the image data. */
  function Shown(before: seq<Chunk>): seq<Chunk> {
    if before == [] then []
    else
      var last := before[|before| - 1];
      Shown(before[..|before| - 1]) + if Named(last, "PLTE") || Named(last, "tRNS") then [last] else []
  }

  lemma {:induction false} KeptConcat(a: seq<Chunk>, b: seq<Chunk>)
    ensures Kept(a + b) == Kept(a) + Kept(b)
  {
    if b == [] {
      assert a + b == a && Kept(a) + [] == Kept(a);
    } else {
      var front, last := b[..|b| - 1], b[|b| - 1];
      KeptConcat(a, front);
      assert b == front + [last];
      KeptConcatStep(a, front, last);
    }
  }

  lemma {:induction false} KeptConcatStep(a: seq<Chunk>, front: seq<Chunk>, last: Chunk)
    requires Kept(a + front) == Kept(a) + Kept(front)
    ensures Kept(a + (front + [last])) == Kept(a) + Kept(front + [last])
  {
    assert a + (front + [last]) == (a + front) + [last];
    KeptStep(a + front, last);
    KeptStep(front, last);
  }

  lemma {:induction false} KeptIsShown(before: seq<Chunk>)
    requires forall i | 0 <= i < |before| :: MayPrecede(before[i])
    ensures Kept(before) == Shown(before)
  {
    if before != [] {
      KeptIsShown(before[..|before| - 1]);
      NamesAreKinds(before[|before| - 1]);
      OptionalIsAncillary(before[|before| - 1]);
    }
  }

  lemma {:induction false} DataIsKept(data: seq<Chunk>)
    requires forall i | 0 <= i < |data| :: Named(data[i], "IDAT")
    ensures Kept(data) == data
  {
    if data != [] {
      DataIsKept(data[..|data| - 1]);
      NamesAreKinds(data[|data| - 1]);
      assert data == data[..|data| - 1] + [data[|data| - 1]];
    }
  }

  lemma {:induction false} SkippableIsDropped(after: seq<Chunk>)
    requires forall i | 0 <= i < |after| :: Skippable(after[i])
    ensures Kept(after) == []
  {
    if after != [] {
      SkippableIsDropped(after[..|after| - 1]);
      NamesAreKinds(after[|after| - 1]);
      OptionalIsAncillary(after[|after| - 1]);
    }
  }

  lemma {:induction false} KeptOne(c: Chunk)
    requires IsKept(c)
    ensures Kept([c]) == [c]
  {
    assert [c] == [] + [c] && [] + [c] == [c];
    KeptStep([], c);
  }

  lemma {:induction false} KeptOfOrder(c: Chunk, before: seq<Chunk>, data: seq<Chunk>, after: seq<Chunk>)
    requires PartsOk(before, data, after) && IsKept(c)
    ensures Kept(Order(c, before, data, after)) == [c] + Shown(before) + data
  {
    KeptConcat([c], before);
    KeptConcat([c] + before, data);
    KeptConcat([c] + before + data, after);
    KeptOne(c);
    KeptIsShown(before);
    DataIsKept(data);
    SkippableIsDropped(after);
    assert ([c] + Shown(before) + data) + [] == [c] + Shown(before) + data;
  }

  lemma {:induction false} KeptOfFile(f: File)
    requires PartsOk(f.before, f.data, f.after) && IsKept(f.header) && IsKept(f.end)
    ensures Kept(ChunksOf(f)) == [f.header] + Shown(f.before) + f.data + [f.end]
  {
    KeptOfOrder(f.header, f.before, f.data, f.after);
    KeptStep(Order(f.header, f.before, f.data, f.after), f.end);
  }

  // ------------------------------------------------------------ admission

  lemma HeaderSays(c: Chunk, im: Image)
    requires SaysImage(c, im) && ImageOk(im)
    ensures ChunkOk([], c) && c[17] == im.colour
  {
    NamesAreKinds(c);
    assert c[16..21][0] == c[16] && c[16..21][1] == c[17] && c[16..21][2] == c[18] && c[16..21][3] == c[19] && c[16..21][4] == c[20];
  }

  /** Every image is admitted, and comes out as its header, palette, transparency, data and end. */
  lemma {:induction false} ImagesAreAdmitted(b: Bytes, inflate: Inflate, f: File, im: Image)
    requires |b| >= 8 && IsImage(b, inflate, f, im)
    ensures Admitted(b, inflate) == Some(b[..8] + Flatten([f.header] + Shown(f.before) + f.data + [f.end]))
  {
    ImageIsAdmissible(inflate, f, im);
    ChunksOfFlatten(b[..8], ChunksOf(f), b);
    NamesAreKinds(f.header);
    NamesAreKinds(f.end);
    KeptOfFile(f);
  }

  lemma {:induction false} ImageHasPixels(c: Chunk, im: Image)
    requires SaysImage(c, im) && ImageOk(im)
    ensures ChunkOk([], c) && PixelsOk(Some(Spelled(im.lines)), c)
  {
    HeaderSays(c, im);
    SpelledHasRows(im.lines, im.width, im.colour);
  }

  lemma {:induction false} ImageIsAdmissible(inflate: Inflate, f: File, im: Image)
    requires SaysImage(f.header, im) && ImageOk(im) && PartsOk(f.before, f.data, f.after) && f.data != []
    requires Named(f.end, "IEND") && |f.end| == 12 && inflate(Bodies(f.data)) == Some(Spelled(im.lines))
    ensures Admissible(ChunksOf(f), inflate)
  {
    ImageHasPixels(f.header, im);
    PartsAreSorted(f.header, f.before, f.data, f.after);
    SortedIsAdmissible(f, inflate);
  }

  lemma SortedIsAdmissible(f: File, inflate: Inflate)
    requires ChunkOk([], f.header) && f.data != []
    requires Sorted(Order(f.header, f.before, f.data, f.after), f.before, f.data, f.after)
    requires Named(f.end, "IEND") && |f.end| == 12 && PixelsOk(inflate(Bodies(f.data)), f.header)
    ensures Admissible(ChunksOf(f), inflate)
  {
    var cs, front := ChunksOf(f), Order(f.header, f.before, f.data, f.after);
    NamesAreKinds(f.end);
    assert cs[..|cs| - 1] == front && cs[|cs| - 1] == f.end;
  }

  /** And nothing else is admitted. */
  lemma {:induction false} AdmittedIsImage(b: Bytes, inflate: Inflate) returns (f: File, im: Image)
    requires |b| >= 8 && Admitted(b, inflate).Some?
    ensures IsImage(b, inflate, f, im)
  {
    var cs := Chunks(b, 8).value;
    FlattenOfChunks(b, 8);
    f := AdmissibleFile(cs, inflate);
    im := HeaderImage(f.header, inflate(Bodies(f.data)));
    assert b == b[..8] + b[8..];
  }

  lemma {:induction false} AdmissibleFile(cs: seq<Chunk>, inflate: Inflate) returns (f: File)
    requires Admissible(cs, inflate)
    ensures ChunksOf(f) == cs && ChunkOk([], f.header) && PixelsOk(inflate(Bodies(f.data)), f.header)
    ensures PartsOk(f.before, f.data, f.after) && f.data != [] && Named(f.end, "IEND") && |f.end| == 12
  {
    var front, end := cs[..|cs| - 1], cs[|cs| - 1];
    var before, data, after := Parts(front);
    f := File(front[0], before, data, after, end);
    FileIsList(cs, front, f);
    NamesAreKinds(end);
  }

  lemma FileIsList(cs: seq<Chunk>, front: seq<Chunk>, f: File)
    requires cs != [] && front == cs[..|cs| - 1] && f.end == cs[|cs| - 1]
    requires front == Order(f.header, f.before, f.data, f.after)
    ensures ChunksOf(f) == cs
  {
    assert cs == front + [f.end];
  }

  lemma {:induction false} HeaderImage(c: Chunk, pixels: Option<Bytes>) returns (im: Image)
    requires ChunkOk([], c) && PixelsOk(pixels, c)
    ensures SaysImage(c, im) && ImageOk(im) && pixels == Some(Spelled(im.lines))
  {
    NamesAreKinds(c);
    var lines := ReadLines(pixels.value, U32At(c, 8), U32At(c, 12), c[17], U32At(c, 8) * Channels(c[17]) + 1);
    im := Image(U32At(c, 8), U32At(c, 12), c[17], lines);
    assert c[16..21] == [8, c[17], 0, 0, 0];
  }

  /** What is admitted is exactly the images. */
  lemma {:induction false} AdmittedExactly(b: Bytes, inflate: Inflate)
    requires |b| >= 8
    ensures Admitted(b, inflate).Some? <==> exists f, im :: IsImage(b, inflate, f, im)
  {
    if Admitted(b, inflate).Some? {
      var f, im := AdmittedIsImage(b, inflate);
    }
    if exists f, im :: IsImage(b, inflate, f, im) {
      var f, im :| IsImage(b, inflate, f, im);
      ImagesAreAdmitted(b, inflate, f, im);
    }
  }
}
