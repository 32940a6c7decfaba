/**
 * The earlier compositor: it takes every entry of a directory, sorts the
 * paths, decodes each one (giving up at the first that fails), and fills a
 * fresh pixel buffer with nested loops, one Max-Light fold per pixel.
 */
module LegacyLongExposure {
  import opened Wrappers
  import opened Paths
  import opened Rgba
  import opened MaxLight

  /**
   * The order `Vec<PathBuf>::sort` puts paths of one directory in:
   * lexicographic by character.
   */
  predicate LexLe(a: string, b: string)
    decreases |a|
  {
    a == [] || (b != [] && (a[0] < b[0] || (a[0] == b[0] && LexLe(a[1..], b[1..]))))
  }

  lemma {:induction false} LexLeTotal(a: string, b: string)
    ensures LexLe(a, b) || LexLe(b, a)
    decreases |a|
  {
    if a != [] && b != [] && a[0] == b[0] {
      LexLeTotal(a[1..], b[1..]);
    }
  }

  lemma {:induction false} LexLeTransitive(a: string, b: string, c: string)
    requires LexLe(a, b) && LexLe(b, c)
    ensures LexLe(a, c)
    decreases |a|
  {
    if a != [] && a[0] == b[0] && b[0] == c[0] {
      LexLeTransitive(a[1..], b[1..], c[1..]);
    }
  }

  lemma {:induction false} LexLeAntisymmetric(a: string, b: string)
    requires LexLe(a, b) && LexLe(b, a)
    ensures a == b
    decreases |a|
  {
    if a != [] {
      LexLeAntisymmetric(a[1..], b[1..]);
      assert a == [a[0]] + a[1..];
      assert b == [b[0]] + b[1..];
    }
  }

  /** A common prefix does not change the order. */
  lemma {:induction false} LexLeSharedPrefix(p: string, a: string, b: string)
    ensures LexLe(p + a, p + b) <==> LexLe(a, b)
    decreases |p|
  {
    if p != [] {
      var pa, pb := p + a, p + b;
      assert pa != [] && pb != [] && pa[0] == pb[0];
      assert LexLe(pa, pb) <==> LexLe(pa[1..], pb[1..]);
      assert pa[1..] == p[1..] + a;
      assert pb[1..] == p[1..] + b;
      LexLeSharedPrefix(p[1..], a, b);
    } else {
      assert p + a == a && p + b == b;
    }
  }

  /**
   * Two entries of one directory are ordered by their names alone.  The
   * component-wise order of `PathBuf` says the same, since the directory's
   * components are shared and a name is a single component.
   */
  lemma {:induction false} EntryPathOrder(dir: string, n1: string, n2: string)
    requires n1 == [] || n1[0] != '/'
    requires n2 == [] || n2[0] != '/'
    ensures LexLe(Join(dir, n1), Join(dir, n2)) <==> LexLe(n1, n2)
  {
    if dir == [] {
      assert Join(dir, n1) == n1 && Join(dir, n2) == n2;
    } else if dir[|dir| - 1] == '/' {
      JoinRelative(dir, n1);
      JoinRelative(dir, n2);
      LexLeSharedPrefix(dir, n1, n2);
    } else {
      JoinRelative(dir, n1);
      JoinRelative(dir, n2);
      assert dir + ("/" + n1) == (dir + "/") + n1;
      assert dir + ("/" + n2) == (dir + "/") + n2;
      LexLeSharedPrefix(dir + "/", n1, n2);
    }
  }

  predicate Sorted(s: seq<string>) {
    forall i, j :: 0 <= i < j < |s| ==> LexLe(s[i], s[j])
  }

  /** Prepending an element that is no greater than any other keeps a sequence sorted. */
  lemma ConsSorted(x: string, s: seq<string>)
    requires Sorted(s)
    requires forall j :: 0 <= j < |s| ==> LexLe(x, s[j])
    ensures Sorted([x] + s)
  {
    var r := [x] + s;
    forall i, j | 0 <= i < j < |r| ensures LexLe(r[i], r[j]) {
      if i == 0 {
        assert r[j] == s[j - 1];
      } else {
        assert r[i] == s[i - 1] && r[j] == s[j - 1];
      }
    }
  }

  lemma SortedTail(s: seq<string>)
    requires Sorted(s) && s != []
    ensures Sorted(s[1..])
  {
    forall i, j | 0 <= i < j < |s[1..]| ensures LexLe(s[1..][i], s[1..][j]) {
      assert s[1..][i] == s[i + 1] && s[1..][j] == s[j + 1];
    }
  }

  /** `p` goes in front when it does not exceed the first element. */
  lemma InsertInFront(p: string, s: seq<string>)
    requires Sorted(s) && s != [] && LexLe(p, s[0])
    ensures Sorted([p] + s)
  {
    forall j | 0 <= j < |s| ensures LexLe(p, s[j]) {
      if j > 0 {
        LexLeTransitive(p, s[0], s[j]);
      }
    }
    ConsSorted(p, s);
  }

  /** Otherwise the first element stays in front of the rest with `p` inserted. */
  lemma {:induction false} InsertBehind(p: string, s: seq<string>, rest: seq<string>)
    requires Sorted(s) && s != [] && !LexLe(p, s[0])
    requires Sorted(rest) && multiset(rest) == multiset(s[1..]) + multiset{p}
    ensures Sorted([s[0]] + rest)
    ensures multiset([s[0]] + rest) == multiset(s) + multiset{p}
  {
    LexLeTotal(p, s[0]);
    forall j | 0 <= j < |rest| ensures LexLe(s[0], rest[j]) {
      assert rest[j] in multiset(rest);
      if rest[j] != p {
        assert rest[j] in multiset(s[1..]);
        var k :| 0 <= k < |s[1..]| && s[1..][k] == rest[j];
        assert s[k + 1] == rest[j];
      }
    }
    ConsSorted(s[0], rest);
    assert s == [s[0]] + s[1..];
  }

  /** Insert `p` into a sorted sequence, before the first element it does not exceed. */
  function Insert(p: string, s: seq<string>): (r: seq<string>)
    requires Sorted(s)
    ensures Sorted(r) && multiset(r) == multiset(s) + multiset{p}
    decreases |s|
  {
    if s == [] then [p]
    else if LexLe(p, s[0]) then
      InsertInFront(p, s);
      [p] + s
    else
      SortedTail(s);
      var rest := Insert(p, s[1..]);
      InsertBehind(p, s, rest);
      [s[0]] + rest
  }

  /** `image_paths.sort()`: a sorted permutation of the paths. */
  function SortPaths(s: seq<string>): (r: seq<string>)
    ensures Sorted(r) && multiset(r) == multiset(s)
    decreases |s|
  {
    if s == [] then []
    else
      assert s == [s[0]] + s[1..];
      Insert(s[0], SortPaths(s[1..]))
  }

  /** In a sorted sequence no element is below the first. */
  lemma {:induction false} SortedHeadIsLeast(s: seq<string>, x: string)
    requires Sorted(s) && x in s
    ensures LexLe(s[0], x)
  {
    var i :| 0 <= i < |s| && s[i] == x;
    if i == 0 {
      LexLeTotal(x, x);
    }
  }

  lemma MultisetTail(s: seq<string>)
    requires s != []
    ensures multiset(s[1..]) == multiset(s) - multiset{s[0]}
  {
    assert s == [s[0]] + s[1..];
  }

  /**
   * There is only one sorted permutation, so `SortPaths` gives whatever any
   * correct sort gives.
   */
  lemma {:induction false} SortedUnique(s1: seq<string>, s2: seq<string>)
    requires Sorted(s1) && Sorted(s2) && multiset(s1) == multiset(s2)
    ensures s1 == s2
    decreases |s1|
  {
    if s1 == [] {
      assert |multiset(s2)| == 0;
    } else {
      assert s1[0] in multiset(s2);
      assert s2 != [];
      assert s1[0] == s2[0] by {
        assert s2[0] in multiset(s1);
        SortedHeadIsLeast(s2, s1[0]);
        SortedHeadIsLeast(s1, s2[0]);
        LexLeAntisymmetric(s1[0], s2[0]);
      }
      assert s1[1..] == s2[1..] by {
        MultisetTail(s1);
        MultisetTail(s2);
        SortedTail(s1);
        SortedTail(s2);
        SortedUnique(s1[1..], s2[1..]);
      }
      assert s1 == [s1[0]] + s1[1..];
      assert s2 == [s2[0]] + s2[1..];
    }
  }

  /** `entry.path()` for every listed entry of `dir`. */
  function EntryPaths(dir: string, names: seq<string>): (paths: seq<string>)
    ensures |paths| == |names|
  {
    seq(|names|, i requires 0 <= i < |names| => Join(dir, names[i]))
  }

  /** How the earlier compositor fails. */
  datatype LegacyFailure =
    | ReadDirFailed           // `fs::read_dir(dir_path)?`
    | DecodeFailed(path: string) // `image::open(path)?`
    | IndexPanicked           // `image_buffers[0]` on an empty directory
    | GetPixelPanicked        // a frame smaller than the first

  /**
   * The loading loop: decodes the paths in order and stops at the first one
   * that does not decode.
   */
  method LoadImages(paths: seq<string>, decoded: map<string, RgbaImage>) returns (r: Result<seq<RgbaImage>, LegacyFailure>)
    ensures r.Ok? <==> forall i :: 0 <= i < |paths| ==> paths[i] in decoded
    ensures r.Ok? ==> |r.value| == |paths| && forall i :: 0 <= i < |paths| ==> r.value[i] == decoded[paths[i]]
    ensures r.Err? ==> exists i :: 0 <= i < |paths| && r.error == DecodeFailed(paths[i]) && paths[i] !in decoded
                                   && forall j :: 0 <= j < i ==> paths[j] in decoded
  {
    var imageBuffers := [];
    for k := 0 to |paths|
      invariant |imageBuffers| == k
      invariant forall i :: 0 <= i < k ==> paths[i] in decoded && imageBuffers[i] == decoded[paths[i]]
    {
      if paths[k] !in decoded {
        return Err(DecodeFailed(paths[k]));
      }
      imageBuffers := imageBuffers + [decoded[paths[k]]];
    }
    return Ok(imageBuffers);
  }

  /**
   * The innermost loop: starting from opaque black, blend in the pixel of
   * every frame at `(x, y)`, in frame order.
   */
  method MaxPixelAt(frames: seq<RgbaImage>, x: nat, y: nat) returns (maxPixel: Pixel)
    requires CoversAll(frames, x + 1, y + 1)
    ensures maxPixel == CompositePixel(frames, x, y)
    ensures maxPixel.a == 255
  {
    ghost var column := Column(frames, x, y);
    maxPixel := OpaqueBlack;
    for k := 0 to |frames|
      invariant maxPixel == FoldMax(OpaqueBlack, column[..k])
      invariant maxPixel.a == 255
    {
      var currentPixel := frames[k].GetPixel(x, y);
      assert column[..k + 1] == column[..k] + [currentPixel];
      FoldMaxSnoc(OpaqueBlack, column[..k], currentPixel);
      maxPixel := BlendMax(maxPixel, currentPixel);
    }
    assert column[..|frames|] == column;
  }

  /**
   * The nested loops: a buffer as large as the first frame, each pixel set
   * once to the Max-Light fold over the frames, the same pixel the backend's
   * composite computes.
   */
  method CompositeImages(frames: seq<RgbaImage>) returns (img: array2<Pixel>)
    requires |frames| > 0 && ReadsInside(frames, frames[0].width, frames[0].height)
    ensures fresh(img)
    ensures img.Length0 == frames[0].width && img.Length1 == frames[0].height
    ensures forall x, y :: 0 <= x < img.Length0 && 0 <= y < img.Length1 ==>
              img[x, y] == CompositePixel(frames, x, y) == Composite(frames).GetPixel(x, y)
  {
    var width, height := frames[0].width, frames[0].height;
    img := new Pixel[width, height]((x, y) => Pixel(0, 0, 0, 0));
    for y := 0 to height
      invariant forall i, j :: 0 <= i < width && 0 <= j < y ==> img[i, j] == CompositePixel(frames, i, j)
    {
      for x := 0 to width
        invariant forall i, j :: 0 <= i < width && 0 <= j < y ==> img[i, j] == CompositePixel(frames, i, j)
        invariant forall i :: 0 <= i < x ==> img[i, y] == CompositePixel(frames, i, y)
      {
        var maxPixel := MaxPixelAt(frames, x, y);
        img[x, y] := maxPixel;
      }
    }
  }

  /** The decoded frames in the order they are loaded, when every path decodes. */
  function LoadedFrames(paths: seq<string>, decoded: map<string, RgbaImage>): (frames: seq<RgbaImage>)
    requires forall i :: 0 <= i < |paths| ==> paths[i] in decoded
    ensures |frames| == |paths|
  {
    seq(|paths|, i requires 0 <= i < |paths| => decoded[paths[i]])
  }

  /** The image the earlier compositor writes and where. */
  datatype LegacyImage = LegacyImage(pixels: array2<Pixel>, path: string)

  /**
   * `create_long_exposure_image(dir_path)`: `listing` is `None` when
   * `read_dir` fails and otherwise the names of the entries it yields that
   * read without error (`filter_map(.. entry.ok() ..)` skips the others);
   * `decoded` holds the frames that decode, by path.
   */
  method CreateLongExposureImageLegacy(dirPath: string, listing: Option<seq<string>>, decoded: map<string, RgbaImage>)
    returns (r: Result<LegacyImage, LegacyFailure>)
    requires forall p :: p in decoded ==> decoded[p].WellFormed()
    ensures listing.None? ==> r == Err(ReadDirFailed)
    ensures listing.Some? ==>
              var paths := SortPaths(EntryPaths(dirPath, listing.value));
              && ((exists i :: 0 <= i < |paths| && paths[i] !in decoded) <==> r.Err? && r.error.DecodeFailed?)
              && (r.Err? && r.error.DecodeFailed? ==>
                    exists i :: 0 <= i < |paths| && r.error == DecodeFailed(paths[i]) && paths[i] !in decoded
                                && forall j :: 0 <= j < i ==> paths[j] in decoded)
              && ((forall i :: 0 <= i < |paths| ==> paths[i] in decoded) ==>
                    var frames := LoadedFrames(paths, decoded);
                    && (frames == [] <==> r == Err(IndexPanicked))
                    && (frames != [] && !ReadsInside(frames, frames[0].width, frames[0].height) <==> r == Err(GetPixelPanicked))
                    && (frames != [] && ReadsInside(frames, frames[0].width, frames[0].height) ==> r.Ok?)
                    && (r.Ok? ==>
                          && frames != [] && ReadsInside(frames, frames[0].width, frames[0].height)
                          && fresh(r.value.pixels)
                          && r.value.pixels.Length0 == frames[0].width && r.value.pixels.Length1 == frames[0].height
                          && (forall x, y :: 0 <= x < frames[0].width && 0 <= y < frames[0].height ==>
                                r.value.pixels[x, y] == Composite(frames).GetPixel(x, y))
                          && r.value.path == Join(dirPath, "long_exposure_image.png")))
  {
    if listing.None? {
      return Err(ReadDirFailed);
    }
    var imagePaths := SortPaths(EntryPaths(dirPath, listing.value));
    var loaded := LoadImages(imagePaths, decoded);
    if loaded.Err? {
      return Err(loaded.error);
    }
    var imageBuffers := loaded.value;
    assert imageBuffers == LoadedFrames(imagePaths, decoded);
    if |imageBuffers| == 0 {
      return Err(IndexPanicked);
    }
    if !ReadsInside(imageBuffers, imageBuffers[0].width, imageBuffers[0].height) {
      return Err(GetPixelPanicked);
    }
    var longExposureImg := CompositeImages(imageBuffers);
    return Ok(LegacyImage(longExposureImg, Join(dirPath, "long_exposure_image.png")));
  }
}
