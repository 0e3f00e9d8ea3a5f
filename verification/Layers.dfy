/** Layers as the composer receives them, and as the regionizer stores them. */
module Layers {
  import opened Geometry
  import opened Rotation

  datatype Format =
    BGRA8888 | BGRX8888 | RGBA8888 | RGBX8888 | RGB565 | NV12 | NV12Padded | OtherFormat

  /** A native buffer, no buffer, or the dummy handle 0x1 that must never be dereferenced. */
  datatype Handle = Null | Dummy | Native(id: nat, width: nat, height: nat, format: Format)

  /** The background layer is zero-filled, which is neither of these; like `NoBlend` it replaces. */
  datatype Blending = NoBlend | Premult | Coverage

  datatype Transform = Transform(flipH: bool, flipV: bool, rot90: bool)

  datatype Layer = Layer(handle: Handle, transform: Transform, blending: Blending,
                         crop: Rect, frame: Rect)

  datatype RgzLayer = RgzLayer(hwc: Layer, identity: int, buffidx: int, dirty: nat)

  /** Buffer indexes that mark the background and layers carrying the clear hint. */
  const BACKGROUND_BUFFIDX := -2
  const CLEARHINT_BUFFIDX := -1

  predicate IsOpaque(f: Format) { f == RGB565 || f == RGBX8888 || f == BGRX8888 }

  predicate IsNV12(f: Format) { f == NV12 || f == NV12Padded }

  /** `rgz_hwc_scaled`. */
  predicate Scaled(l: Layer) {
    if l.transform.rot90
    then l.frame.Width() != l.crop.Height() || l.frame.Height() != l.crop.Width()
    else l.frame.Width() != l.crop.Width() || l.frame.Height() != l.crop.Height()
  }

  /** `rgz_get_orientation`: both flips together are a half turn. */
  function Orientation(t: Transform): Angle {
    (if t.flipH && t.flipV then 180 else 0) + (if t.rot90 then 90 else 0)
  }

  /** A mirror image, which is what a single flip asks for. */
  predicate Mirrored(t: Transform) { t.flipH != t.flipV }

  predicate IsBackground(l: RgzLayer) { l.buffidx == BACKGROUND_BUFFIDX }

  predicate IsClearHint(l: RgzLayer) { l.buffidx == CLEARHINT_BUFFIDX }

  /** A layer with pixels of its own; only its handle may be dereferenced. */
  predicate IsImage(l: RgzLayer) { !IsBackground(l) && !IsClearHint(l) }
}
