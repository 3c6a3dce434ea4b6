/**
 Admission of an image preview by its first bytes (src/XivLantern.Core/ImagePreview.cs:13-24).
 */
module ImagePreview {
  import opened ByteStrings
  import opened Results
  import Png
  import Jpeg
  import PngImages
  import JpegImages

  /** 16 MiB */
  const MAX_BYTES := 16 * 1024 * 1024

  const PNG_SIGNATURE: Bytes := [137, 80, 78, 71, 13, 10, 26, 10]
  const JPEG_START: Bytes := [255, 216]

  predicate StartsWith(b: Bytes, prefix: Bytes) {
    |prefix| <= |b| && b[..|prefix|] == prefix
  }

  /** What admission makes of any input: a clean image, or nothing where the source throws. */
  function Admitted(b: Bytes, inflate: Png.Inflate): Option<Bytes> {
    if |b| > MAX_BYTES then None
    else if StartsWith(b, PNG_SIGNATURE) then Png.Admitted(b, inflate)
    else if StartsWith(b, JPEG_START) then Jpeg.Admitted(b)
    else None
  }

  method Admit(bytes: Bytes, inflate: Png.Inflate) returns (out: Option<Bytes>)
    ensures out == Admitted(bytes, inflate)
  {
    if |bytes| > MAX_BYTES { return None; }
    if StartsWith(bytes, PNG_SIGNATURE) {
      out := Png.Admit(bytes, inflate);
    } else if StartsWith(bytes, JPEG_START) {
      out := Jpeg.Admit(bytes);
    } else {
      out := None;
    }
  }

  lemma SamePrefix(b: Bytes, out: Bytes, prefix: Bytes, n: nat)
    requires n <= |b| && n <= |out| && b[..n] == out[..n] && |prefix| <= n
    ensures StartsWith(b, prefix) <==> StartsWith(out, prefix)
  {
    assert b[..|prefix|] == b[..n][..|prefix|];
    assert out[..|prefix|] == out[..n][..|prefix|];
  }

  /**
   What admission returns is itself admitted, in the same format, and returned unchanged; it is
   never longer than the input, so the size limit keeps holding.
   */
  lemma AdmissionIsFixedPoint(b: Bytes, inflate: Png.Inflate)
    requires Admitted(b, inflate).Some?
    ensures var out := Admitted(b, inflate).value;
      && |out| <= |b| && Admitted(out, inflate) == Some(out)
      && (StartsWith(out, PNG_SIGNATURE) <==> StartsWith(b, PNG_SIGNATURE))
      && (StartsWith(out, JPEG_START) <==> StartsWith(b, JPEG_START))
  {
    var out := Admitted(b, inflate).value;
    if StartsWith(b, PNG_SIGNATURE) {
      Png.AdmissionKeepsMeaning(b, inflate);
      Png.AdmissionIsFixedPoint(b, inflate);
      SamePrefix(b, out, PNG_SIGNATURE, 8);
      SamePrefix(b, out, JPEG_START, 8);
    } else {
      Jpeg.AdmissionKeepsMeaning(b);
      Jpeg.AdmissionIsFixedPoint(b);
      SamePrefix(b, out, JPEG_START, 2);
      NotPng(b);
      NotPng(out);
    }
  }

  /** No input carries both signatures. */
  lemma NotPng(b: Bytes)
    requires StartsWith(b, JPEG_START)
    ensures !StartsWith(b, PNG_SIGNATURE)
  {
    assert b[0] == b[..2][0] == 255;
    if |b| >= 8 { assert b[..8][0] == b[0]; }
  }

  /** What is admitted is exactly the PNG and JPEG images of at most 16 MiB. */
  lemma {:induction false} PreviewsAreImages(b: Bytes, inflate: Png.Inflate)
    ensures Admitted(b, inflate).Some? <==>
      && |b| <= 16777216
      && ((StartsWith(b, [137, 80, 78, 71, 13, 10, 26, 10]) && exists f, im :: PngImages.IsImage(b, inflate, f, im))
          || (StartsWith(b, [255, 216]) && exists im :: JpegImages.IsImage(b, im)))
  {
    if StartsWith(b, JPEG_START) { NotPng(b); }
    if |b| >= 8 { PngImages.AdmittedExactly(b, inflate); }
    if |b| >= 2 { JpegImages.AdmittedExactly(b); }
  }
}
