/** Bounds common to both preview formats (src/XivLantern.Core/ImagePreview.cs:12-25). */
module PreviewLimits {
  const MAX_SIDE := 4096
  const MAX_PIXELS := 8 * 1024 * 1024

  predicate DimensionsOk(width: nat, height: nat) {
    1 <= width <= MAX_SIDE && 1 <= height <= MAX_SIDE && width * height <= MAX_PIXELS
  }
}
