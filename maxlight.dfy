/**
 * The Max-Light blend and the per-pixel fold of the long-exposure
 * compositor: every output channel is the brightest value that channel takes
 * at that coordinate across the frames, and the output is fully opaque.
 */
module MaxLight {
  import opened Rgba

  /** `u8::max` */
  function MaxChannel(c1: Channel, c2: Channel): (m: Channel)
    ensures m >= c1 && m >= c2 && (m == c1 || m == c2)
  {
    if c1 >= c2 then c1 else c2
  }

  /** `Rgba([0, 0, 0, 255])`, the seed of the fold. */
  const OpaqueBlack := Pixel(0, 0, 0, 255)

  /** `blend_max`: the brighter of each colour channel, alpha forced to 255. */
  function BlendMax(p1: Pixel, p2: Pixel): (q: Pixel)
    ensures q.a == 255
    ensures forall k :: 0 <= k < 3 ==> Rgb(q, k) >= Rgb(p1, k) && Rgb(q, k) >= Rgb(p2, k)
    ensures forall k :: 0 <= k < 3 ==> Rgb(q, k) == Rgb(p1, k) || Rgb(q, k) == Rgb(p2, k)
  {
    Pixel(MaxChannel(p1.r, p2.r), MaxChannel(p1.g, p2.g), MaxChannel(p1.b, p2.b), 255)
  }

  /** `blend_max` is commutative, associative and idempotent up to the forced alpha. */
  lemma BlendMaxLaws(p: Pixel, q: Pixel, s: Pixel)
    ensures BlendMax(p, q) == BlendMax(q, p)
    ensures BlendMax(BlendMax(p, q), s) == BlendMax(p, BlendMax(q, s))
    ensures BlendMax(p, p) == Pixel(p.r, p.g, p.b, 255)
  {
  }

  /** `ps.iter().fold(acc, blend_max)`, a left fold. */
  function FoldMax(acc: Pixel, ps: seq<Pixel>): Pixel
    decreases |ps|
  {
    if ps == [] then acc else FoldMax(BlendMax(acc, ps[0]), ps[1..])
  }

  /** Folding one more pixel blends it into the fold of the others. */
  lemma {:induction false} FoldMaxSnoc(acc: Pixel, ps: seq<Pixel>, p: Pixel)
    ensures FoldMax(acc, ps + [p]) == BlendMax(FoldMax(acc, ps), p)
    decreases |ps|
  {
    if ps == [] {
      assert ps + [p] == [p];
    } else {
      assert (ps + [p])[1..] == ps[1..] + [p];
      FoldMaxSnoc(BlendMax(acc, ps[0]), ps[1..], p);
    }
  }

  /**
   * Each colour channel of the fold is at least the seed's and every pixel's,
   * and is the seed's or some pixel's; alpha is 255 once a pixel was folded.
   */
  lemma {:induction false} FoldMaxBounds(acc: Pixel, ps: seq<Pixel>)
    ensures forall k :: 0 <= k < 3 ==> Rgb(FoldMax(acc, ps), k) >= Rgb(acc, k)
    ensures forall k, i :: 0 <= k < 3 && 0 <= i < |ps| ==> Rgb(FoldMax(acc, ps), k) >= Rgb(ps[i], k)
    ensures forall k :: 0 <= k < 3 ==>
              Rgb(FoldMax(acc, ps), k) == Rgb(acc, k) || exists i :: 0 <= i < |ps| && Rgb(FoldMax(acc, ps), k) == Rgb(ps[i], k)
    ensures FoldMax(acc, ps).a == if ps == [] then acc.a else 255
    decreases |ps|
  {
    if ps != [] {
      var b := BlendMax(acc, ps[0]);
      var rest := ps[1..];
      var m := FoldMax(acc, ps);
      assert m == FoldMax(b, rest);
      FoldMaxBounds(b, rest);
      forall k, i | 0 <= k < 3 && 0 <= i < |ps| ensures Rgb(m, k) >= Rgb(ps[i], k) {
        if i > 0 {
          assert ps[i] == rest[i - 1];
        }
      }
      forall k | 0 <= k < 3
        ensures Rgb(m, k) == Rgb(acc, k) || exists i :: 0 <= i < |ps| && Rgb(m, k) == Rgb(ps[i], k)
      {
        if Rgb(m, k) != Rgb(b, k) {
          var j :| 0 <= j < |rest| && Rgb(m, k) == Rgb(rest[j], k);
          assert rest[j] == ps[j + 1];
        } else if Rgb(m, k) != Rgb(acc, k) {
          assert Rgb(m, k) == Rgb(ps[0], k);
        }
      }
    }
  }

  /**
   * The fold depends only on which pixels are folded, not on their order or
   * on how often each occurs.
   */
  lemma FoldMaxSetDetermined(acc: Pixel, ps: seq<Pixel>, qs: seq<Pixel>)
    requires forall p :: p in ps <==> p in qs
    ensures FoldMax(acc, ps) == FoldMax(acc, qs)
  {
    var m1, m2 := FoldMax(acc, ps), FoldMax(acc, qs);
    FoldMaxBounds(acc, ps);
    FoldMaxBounds(acc, qs);
    forall k | 0 <= k < 3 ensures Rgb(m1, k) <= Rgb(m2, k) {
      if Rgb(m1, k) != Rgb(acc, k) {
        var i :| 0 <= i < |ps| && Rgb(m1, k) == Rgb(ps[i], k);
        assert ps[i] in qs;
        var j :| 0 <= j < |qs| && qs[j] == ps[i];
      }
    }
    forall k | 0 <= k < 3 ensures Rgb(m2, k) <= Rgb(m1, k) {
      if Rgb(m2, k) != Rgb(acc, k) {
        var j :| 0 <= j < |qs| && Rgb(m2, k) == Rgb(qs[j], k);
        assert qs[j] in ps;
        var i :| 0 <= i < |ps| && ps[i] == qs[j];
      }
    }
    assert ps == [] <==> qs == [] by {
      if ps != [] { assert ps[0] in qs; }
      if qs != [] { assert qs[0] in ps; }
    }
    PixelExt(m1, m2);
  }

  /** The pixels at `(x, y)` of every frame, in frame order. */
  function Column(frames: seq<RgbaImage>, x: nat, y: nat): (col: seq<Pixel>)
    requires CoversAll(frames, x + 1, y + 1)
    ensures |col| == |frames|
    ensures forall i :: 0 <= i < |frames| ==> col[i] == frames[i].GetPixel(x, y)
  {
    seq(|frames|, i requires 0 <= i < |frames| => frames[i].GetPixel(x, y))
  }

  /** The output pixel at `(x, y)`: the fold of `blend_max` from `[0, 0, 0, 255]`. */
  function CompositePixel(frames: seq<RgbaImage>, x: nat, y: nat): Pixel
    requires CoversAll(frames, x + 1, y + 1)
  {
    FoldMax(OpaqueBlack, Column(frames, x, y))
  }

  /**
   * The long-exposure image: as large as the first frame, each pixel the
   * Max-Light fold over the frames at that coordinate.
   */
  function Composite(frames: seq<RgbaImage>): (img: RgbaImage)
    requires |frames| > 0 && ReadsInside(frames, frames[0].width, frames[0].height)
    ensures img.WellFormed()
    ensures img.width == frames[0].width && img.height == frames[0].height
    ensures forall x: nat, y: nat :: x < img.width && y < img.height ==> img.GetPixel(x, y) == CompositePixel(frames, x, y)
  {
    var w, h := frames[0].width, frames[0].height;
    RgbaImage(w, h, seq(h, (y: int) requires 0 <= y < h => seq(w, (x: int) requires 0 <= x < w => CompositePixel(frames, x, y))))
  }

  /**
   * A first frame with no pixels gives an output with no pixels: nothing is
   * read from the other frames, whatever their size.
   */
  lemma CompositeOfEmptyFirstFrame(frames: seq<RgbaImage>)
    requires |frames| > 0 && (frames[0].width == 0 || frames[0].height == 0)
    ensures ReadsInside(frames, frames[0].width, frames[0].height)
    ensures Composite(frames).width == frames[0].width && Composite(frames).height == frames[0].height
  {
  }

  /**
   * Every output colour channel is at least that channel of every frame at
   * the same coordinate, and the output is opaque.
   */
  lemma CompositePixelBounds(frames: seq<RgbaImage>, x: nat, y: nat)
    requires CoversAll(frames, x + 1, y + 1)
    ensures forall k, i :: 0 <= k < 3 && 0 <= i < |frames| ==>
              Rgb(CompositePixel(frames, x, y), k) >= Rgb(frames[i].GetPixel(x, y), k)
    ensures CompositePixel(frames, x, y).a == 255
  {
    var col := Column(frames, x, y);
    FoldMaxBounds(OpaqueBlack, col);
    forall k, i | 0 <= k < 3 && 0 <= i < |frames|
      ensures Rgb(CompositePixel(frames, x, y), k) >= Rgb(frames[i].GetPixel(x, y), k)
    {
      assert col[i] == frames[i].GetPixel(x, y);
    }
  }

  /** With at least one frame, every output colour channel is some frame's value there. */
  lemma CompositePixelAttained(frames: seq<RgbaImage>, x: nat, y: nat)
    requires |frames| > 0 && CoversAll(frames, x + 1, y + 1)
    ensures forall k :: 0 <= k < 3 ==>
              exists i :: 0 <= i < |frames| && Rgb(CompositePixel(frames, x, y), k) == Rgb(frames[i].GetPixel(x, y), k)
  {
    var col := Column(frames, x, y);
    var m := FoldMax(OpaqueBlack, col);
    FoldMaxBounds(OpaqueBlack, col);
    forall k | 0 <= k < 3
      ensures exists i :: 0 <= i < |frames| && Rgb(m, k) == Rgb(frames[i].GetPixel(x, y), k)
    {
      if Rgb(m, k) == Rgb(OpaqueBlack, k) {
        assert Rgb(m, k) >= Rgb(col[0], k) >= 0;
        assert Rgb(m, k) == Rgb(frames[0].GetPixel(x, y), k);
      } else {
        var i :| 0 <= i < |col| && Rgb(m, k) == Rgb(col[i], k);
        assert Rgb(m, k) == Rgb(frames[i].GetPixel(x, y), k);
      }
    }
  }

  /** A single frame comes back with its colours unchanged and alpha set to 255. */
  lemma CompositeSingleFrame(f: RgbaImage, x: nat, y: nat)
    requires f.WellFormed() && x < f.width && y < f.height
    ensures CoversAll([f], f.width, f.height)
    ensures var p := f.GetPixel(x, y);
            Composite([f]).GetPixel(x, y) == Pixel(p.r, p.g, p.b, 255)
  {
    var col := Column([f], x, y);
    assert col == [f.GetPixel(x, y)];
    assert FoldMax(OpaqueBlack, col) == FoldMax(BlendMax(OpaqueBlack, col[0]), []);
  }

  /**
   * Frames of one size give the same image whatever their order and however
   * often each is repeated.
   */
  lemma CompositeOrderIndependent(frames1: seq<RgbaImage>, frames2: seq<RgbaImage>, w: nat, h: nat)
    requires |frames1| > 0 && UniformSize(frames1, w, h) && UniformSize(frames2, w, h)
    requires forall f :: f in frames1 <==> f in frames2
    ensures |frames2| > 0 && CoversAll(frames1, w, h) && CoversAll(frames2, w, h)
    ensures Composite(frames1) == Composite(frames2)
  {
    assert frames1[0] in frames2;
    var c1, c2 := Composite(frames1), Composite(frames2);
    forall y | 0 <= y < h ensures c1.rows[y] == c2.rows[y] {
      forall x | 0 <= x < w ensures c1.rows[y][x] == c2.rows[y][x] {
        var col1, col2 := Column(frames1, x, y), Column(frames2, x, y);
        forall p ensures p in col1 <==> p in col2 {
          if p in col1 {
            var i :| 0 <= i < |col1| && col1[i] == p;
            assert frames1[i] in frames2;
            var j :| 0 <= j < |frames2| && frames2[j] == frames1[i];
            assert col2[j] == p;
          }
          if p in col2 {
            var j :| 0 <= j < |col2| && col2[j] == p;
            assert frames2[j] in frames1;
            var i :| 0 <= i < |frames1| && frames1[i] == frames2[j];
            assert col1[i] == p;
          }
        }
        FoldMaxSetDetermined(OpaqueBlack, col1, col2);
        assert c1.GetPixel(x, y) == c2.GetPixel(x, y);
      }
    }
  }

  /**
   * Adding the composite itself to the frames changes nothing: the previous
   * output lying beside the frames is absorbed.
   */
  lemma CompositeAbsorbsOwnOutput(frames: seq<RgbaImage>, w: nat, h: nat)
    requires |frames| > 0 && UniformSize(frames, w, h)
    ensures CoversAll(frames + [Composite(frames)], w, h)
    ensures Composite(frames + [Composite(frames)]) == Composite(frames)
  {
    var c := Composite(frames);
    var more := frames + [c];
    assert more[0] == frames[0];
    assert CoversAll(more, w, h) by {
      forall i | 0 <= i < |more| ensures more[i].WellFormed() && w <= more[i].width && h <= more[i].height {
        if i < |frames| { assert more[i] == frames[i]; }
      }
    }
    var c2 := Composite(more);
    forall y | 0 <= y < h ensures c2.rows[y] == c.rows[y] {
      forall x | 0 <= x < w ensures c2.rows[y][x] == c.rows[y][x] {
        var col := Column(frames, x, y);
        var cp := FoldMax(OpaqueBlack, col);
        assert Column(more, x, y) == col + [c.GetPixel(x, y)];
        FoldMaxSnoc(OpaqueBlack, col, cp);
        FoldMaxBounds(OpaqueBlack, col);
        PixelExt(BlendMax(cp, cp), cp);
        assert c2.GetPixel(x, y) == c.GetPixel(x, y);
      }
    }
  }
}
