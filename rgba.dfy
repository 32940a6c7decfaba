/**
 * The decoded frames the compositor works on: `Rgba<u8>` pixels and
 * `RgbaImage` buffers of the `image` crate, as values.
 */
module Rgba {

  /** One 8-bit colour or alpha channel (`u8`). */
  type Channel = c: int | 0 <= c < 256

  /** `Rgba<u8>`: red, green, blue and alpha, alpha last. */
  datatype Pixel = Pixel(r: Channel, g: Channel, b: Channel, a: Channel)

  /** The colour channel `k` of `p`: 0 is red, 1 green, 2 blue. */
  function Rgb(p: Pixel, k: nat): Channel
    requires k < 3
  {
    if k == 0 then p.r else if k == 1 then p.g else p.b
  }

  /** Two pixels are equal when their colour channels and their alpha are. */
  lemma PixelExt(p: Pixel, q: Pixel)
    requires forall k :: 0 <= k < 3 ==> Rgb(p, k) == Rgb(q, k)
    requires p.a == q.a
    ensures p == q
  {
    assert Rgb(p, 0) == Rgb(q, 0) && Rgb(p, 1) == Rgb(q, 1) && Rgb(p, 2) == Rgb(q, 2);
  }

  /** `RgbaImage`: `width` × `height` pixels, stored row by row. */
  datatype RgbaImage = RgbaImage(width: nat, height: nat, rows: seq<seq<Pixel>>) {

    /** The buffer holds exactly `height` rows of `width` pixels. */
    predicate WellFormed() {
      |rows| == height && forall y :: 0 <= y < |rows| ==> |rows[y]| == width
    }

    /** `img.get_pixel(x, y)`; the crate panics outside the image. */
    function GetPixel(x: nat, y: nat): Pixel
      requires WellFormed() && x < width && y < height
    {
      rows[y][x]
    }
  }

  /** Every frame is well formed and at least `w` wide and `h` high. */
  predicate CoversAll(frames: seq<RgbaImage>, w: nat, h: nat) {
    forall i :: 0 <= i < |frames| ==> frames[i].WellFormed() && w <= frames[i].width && h <= frames[i].height
  }

  /**
   * Every `get_pixel(x, y)` a compositor makes for `x < w` and `y < h` lies
   * inside every frame.  A `w` × `h` output with `w` or `h` zero reads
   * nothing, whatever the frames are.
   */
  predicate ReadsInside(frames: seq<RgbaImage>, w: nat, h: nat) {
    w == 0 || h == 0 || CoversAll(frames, w, h)
  }

  /** `(x, y)` is a pixel of `f`, so that `f.get_pixel(x, y)` does not panic. */
  predicate Inside(f: RgbaImage, x: nat, y: nat) {
    f.WellFormed() && x < f.width && y < f.height
  }

  /** ReadsInside is exactly "each coordinate read is inside each frame". */
  lemma ReadsInsidePointwise(frames: seq<RgbaImage>, w: nat, h: nat)
    ensures ReadsInside(frames, w, h) <==>
              forall i, x: nat, y: nat :: 0 <= i < |frames| && x < w && y < h ==> Inside(frames[i], x, y)
  {
    if w > 0 && h > 0 && !CoversAll(frames, w, h) {
      var i :| 0 <= i < |frames| && !(frames[i].WellFormed() && w <= frames[i].width && h <= frames[i].height);
      assert !Inside(frames[i], w - 1, h - 1);
    }
  }

  /** Every frame is well formed and exactly `w` × `h`. */
  predicate UniformSize(frames: seq<RgbaImage>, w: nat, h: nat) {
    forall i :: 0 <= i < |frames| ==> frames[i].WellFormed() && frames[i].width == w && frames[i].height == h
  }
}
