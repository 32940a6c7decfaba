/**
 * The backend's long-exposure operation: scan the frames directory, keep the
 * frames whose number was selected, drop those that do not decode, refuse an
 * empty selection, composite with Max-Light and name the output after the
 * current time, next to the frames directory.
 */
module LongExposure {
  import opened Wrappers
  import opened Strings
  import opened Decimal
  import opened Paths
  import opened Rgba
  import opened MaxLight

  /** The prefix ffmpeg gives every extracted frame. */
  const FramePrefix := "ffout_"

  /**
   * How the operation ends when it does not produce an image.  Only
   * `NoImagesChosen` is an error value; the others abort the request.
   */
  datatype CreateFailure =
    | ReadDirPanicked                  // `read_dir(..).expect("Should have read")`
    | StemPanicked(name: string)       // `file_stem()` gave nothing to convert
    | FrameNumberPanicked(stem: string) // the frame number text did not parse as `usize`
    | NoImagesChosen                   // `Err("No images were chosen")`
    | GetPixelPanicked                 // a frame smaller than the first was indexed out of bounds

  /**
   * The text parsed as the frame number: what follows the last `ffout_`
   * separator, with every literal `0+` removed (a plain-text replacement).
   */
  function FrameNumberText(stem: string): string {
    Replace(SplitLast(stem, FramePrefix), "0+", "")
  }

  /** The frame number of a directory entry, or the panic its name causes. */
  function FrameNumber(name: string): (r: Result<nat, CreateFailure>)
    ensures r.Ok? ==> r.value <= UsizeMax
    ensures r.Err? ==> r.error.StemPanicked? || r.error.FrameNumberPanicked?
  {
    match FileStem(name)
    case None => Err(StemPanicked(name))
    case Some(stem) =>
      match ParseUsize(FrameNumberText(stem))
      case None => Err(FrameNumberPanicked(stem))
      case Some(n) => Ok(n)
  }

  /** The entry is a frame whose number is among the selected ones. */
  predicate Keeps(name: string, selected: seq<nat>) {
    FrameNumber(name).Ok? && FrameNumber(name).value in selected
  }

  /** Every entry of the listing has a frame number. */
  predicate AllNumbered(names: seq<string>) {
    forall i :: 0 <= i < |names| ==> FrameNumber(names[i]).Ok?
  }

  /** The paths of the kept entries, in listing order. */
  function SelectedPaths(dir: string, names: seq<string>, selected: seq<nat>): (r: seq<string>)
    ensures |r| <= |names|
    decreases |names|
  {
    if names == [] then []
    else
      var last := names[|names| - 1];
      SelectedPaths(dir, names[..|names| - 1], selected) + (if Keeps(last, selected) then [Join(dir, last)] else [])
  }

  /** Selection distributes over concatenated listings: listing order is kept. */
  lemma {:induction false} SelectedPathsAppend(dir: string, a: seq<string>, b: seq<string>, selected: seq<nat>)
    ensures SelectedPaths(dir, a + b, selected) == SelectedPaths(dir, a, selected) + SelectedPaths(dir, b, selected)
    decreases |b|
  {
    if b == [] {
      assert a + b == a;
    } else {
      var b' := b[..|b| - 1];
      assert (a + b)[..|a + b| - 1] == a + b';
      assert (a + b)[|a + b| - 1] == b[|b| - 1];
      SelectedPathsAppend(dir, a, b', selected);
    }
  }

  /** Every selected path is the path of a kept entry. */
  lemma {:induction false} SelectedPathsSound(dir: string, names: seq<string>, selected: seq<nat>, p: string)
    requires p in SelectedPaths(dir, names, selected)
    ensures exists i :: 0 <= i < |names| && Keeps(names[i], selected) && p == Join(dir, names[i])
    decreases |names|
  {
    var init, last := names[..|names| - 1], names[|names| - 1];
    var front := SelectedPaths(dir, init, selected);
    if p in front {
      SelectedPathsSound(dir, init, selected, p);
      var i :| 0 <= i < |init| && Keeps(init[i], selected) && p == Join(dir, init[i]);
      assert names[i] == init[i];
    } else {
      assert Keeps(last, selected) && p == Join(dir, last);
    }
  }

  /** Every kept entry's path is selected. */
  lemma {:induction false} SelectedPathsComplete(dir: string, names: seq<string>, selected: seq<nat>, i: nat)
    requires i < |names| && Keeps(names[i], selected)
    ensures Join(dir, names[i]) in SelectedPaths(dir, names, selected)
    decreases |names|
  {
    var init := names[..|names| - 1];
    var front := SelectedPaths(dir, init, selected);
    if i < |init| {
      assert init[i] == names[i];
      SelectedPathsComplete(dir, init, selected, i);
      assert Join(dir, names[i]) in front;
    }
  }

  /**
   * The directory scan: walks the listing, panics at the first entry without
   * a frame number, and otherwise collects the selected frames' paths.
   */
  method CollectFramePaths(framesDir: string, names: seq<string>, selected: seq<nat>) returns (r: Result<seq<string>, CreateFailure>)
    ensures r.Ok? <==> AllNumbered(names)
    ensures r.Err? ==> exists i :: 0 <= i < |names| && FrameNumber(names[i]) == Err(r.error) && AllNumbered(names[..i])
    ensures r.Ok? ==> r.value == SelectedPaths(framesDir, names, selected)
  {
    var imagePaths := [];
    var i := 0;
    while i < |names|
      invariant 0 <= i <= |names|
      invariant AllNumbered(names[..i])
      invariant imagePaths == SelectedPaths(framesDir, names[..i], selected)
    {
      var name := names[i];
      var number := FrameNumber(name);
      if number.Err? {
        assert !AllNumbered(names) by {
          assert FrameNumber(names[i]).Err?;
        }
        return Err(number.error);
      }
      ghost var done := names[..i + 1];
      assert done[..i] == names[..i] && done[i] == name;
      assert AllNumbered(done) by {
        forall j | 0 <= j < i + 1 ensures FrameNumber(done[j]).Ok? {
          if j < i {
            assert done[j] == names[..i][j];
          }
        }
      }
      if number.value in selected {
        imagePaths := imagePaths + [Join(framesDir, name)];
      }
      assert imagePaths == SelectedPaths(framesDir, done, selected);
      i := i + 1;
    }
    assert names[..i] == names;
    return Ok(imagePaths);
  }

  /** The frames that decode, in the order of their paths (undecodable ones are dropped). */
  function Decoded(paths: seq<string>, decoded: map<string, RgbaImage>): (frames: seq<RgbaImage>)
    ensures |frames| <= |paths|
    ensures frames == [] <==> forall i :: 0 <= i < |paths| ==> paths[i] !in decoded
    ensures forall f :: f in frames ==> exists i :: 0 <= i < |paths| && paths[i] in decoded && f == decoded[paths[i]]
    decreases |paths|
  {
    if paths == [] then []
    else
      var init := paths[..|paths| - 1];
      var last := paths[|paths| - 1];
      var r := Decoded(init, decoded) + (if last in decoded then [decoded[last]] else []);
      assert forall i :: 0 <= i < |init| ==> init[i] == paths[i];
      r
  }

  /** Decoding a concatenated path list concatenates the decoded frames: the path order is kept. */
  lemma {:induction false} DecodedAppend(a: seq<string>, b: seq<string>, decoded: map<string, RgbaImage>)
    ensures Decoded(a + b, decoded) == Decoded(a, decoded) + Decoded(b, decoded)
    decreases |b|
  {
    if b == [] {
      assert a + b == a;
    } else {
      var b', last := b[..|b| - 1], b[|b| - 1];
      var tail := if last in decoded then [decoded[last]] else [];
      assert (a + b)[..|a + b| - 1] == a + b';
      assert (a + b)[|a + b| - 1] == last;
      assert Decoded(a + b, decoded) == Decoded(a + b', decoded) + tail;
      assert Decoded(b, decoded) == Decoded(b', decoded) + tail;
      DecodedAppend(a, b', decoded);
    }
  }

  /** Every path that decodes contributes its frame. */
  lemma {:induction false} DecodedComplete(paths: seq<string>, decoded: map<string, RgbaImage>)
    ensures forall i :: 0 <= i < |paths| && paths[i] in decoded ==> decoded[paths[i]] in Decoded(paths, decoded)
    decreases |paths|
  {
    if paths != [] {
      var init := paths[..|paths| - 1];
      DecodedComplete(init, decoded);
      assert forall i :: 0 <= i < |init| ==> init[i] == paths[i];
    }
  }

  /**
   * The first frame, whose size fixes the output's and decides whether
   * `get_pixel` panics, is the decoding of the first path that decodes.
   */
  lemma DecodedFirst(paths: seq<string>, decoded: map<string, RgbaImage>, k: nat)
    requires k < |paths| && paths[k] in decoded
    requires forall j :: 0 <= j < k ==> paths[j] !in decoded
    ensures Decoded(paths, decoded) != [] && Decoded(paths, decoded)[0] == decoded[paths[k]]
  {
    var front, rest := paths[..k], paths[k + 1..];
    assert paths == front + ([paths[k]] + rest);
    DecodedAppend(front, [paths[k]] + rest, decoded);
    DecodedAppend([paths[k]], rest, decoded);
    assert Decoded(front, decoded) == [] by {
      assert forall j :: 0 <= j < |front| ==> front[j] == paths[j];
    }
    assert [paths[k]][..0] == [];
  }

  /** A moment of `Utc::now()`, as its calendar fields. */
  datatype DateTime = DateTime(year: nat, month: nat, day: nat, hour: nat, minute: nat, second: nat)

  /** A UTC time of years 0 to 9999 (second 60 is a leap second). */
  predicate ValidDateTime(t: DateTime) {
    t.year < 10000 && 1 <= t.month <= 12 && 1 <= t.day <= 31 && t.hour < 24 && t.minute < 60 && t.second <= 60
  }

  /** `format("%Y%m%d%H%M%S")`: every field zero-padded, 14 digits in all. */
  function Timestamp(t: DateTime): (s: string)
    requires ValidDateTime(t)
    ensures |s| == 14 && AllDigits(s)
  {
    ZeroPaddedValue(t.year, 4);
    ZeroPaddedValue(t.month, 2);
    ZeroPaddedValue(t.day, 2);
    ZeroPaddedValue(t.hour, 2);
    ZeroPaddedValue(t.minute, 2);
    ZeroPaddedValue(t.second, 2);
    ZeroPadded(t.year, 4) + ZeroPadded(t.month, 2) + ZeroPadded(t.day, 2)
      + ZeroPadded(t.hour, 2) + ZeroPadded(t.minute, 2) + ZeroPadded(t.second, 2)
  }

  /** Distinct moments, to the second, give distinct timestamps. */
  lemma TimestampInjective(t1: DateTime, t2: DateTime)
    requires ValidDateTime(t1) && ValidDateTime(t2)
    requires Timestamp(t1) == Timestamp(t2)
    ensures t1 == t2
  {
    var y1, mo1, d1, h1, mi1, s1 := ZeroPadded(t1.year, 4), ZeroPadded(t1.month, 2), ZeroPadded(t1.day, 2),
                                    ZeroPadded(t1.hour, 2), ZeroPadded(t1.minute, 2), ZeroPadded(t1.second, 2);
    var y2, mo2, d2, h2, mi2, s2 := ZeroPadded(t2.year, 4), ZeroPadded(t2.month, 2), ZeroPadded(t2.day, 2),
                                    ZeroPadded(t2.hour, 2), ZeroPadded(t2.minute, 2), ZeroPadded(t2.second, 2);
    ZeroPaddedValue(t1.year, 4); ZeroPaddedValue(t2.year, 4);
    ZeroPaddedValue(t1.month, 2); ZeroPaddedValue(t2.month, 2);
    ZeroPaddedValue(t1.day, 2); ZeroPaddedValue(t2.day, 2);
    ZeroPaddedValue(t1.hour, 2); ZeroPaddedValue(t2.hour, 2);
    ZeroPaddedValue(t1.minute, 2); ZeroPaddedValue(t2.minute, 2);
    ZeroPaddedValue(t1.second, 2); ZeroPaddedValue(t2.second, 2);
    ConcatCancel(y1 + mo1 + d1 + h1 + mi1, s1, y2 + mo2 + d2 + h2 + mi2, s2);
    ConcatCancel(y1 + mo1 + d1 + h1, mi1, y2 + mo2 + d2 + h2, mi2);
    ConcatCancel(y1 + mo1 + d1, h1, y2 + mo2 + d2, h2);
    ConcatCancel(y1 + mo1, d1, y2 + mo2, d2);
    ConcatCancel(y1, mo1, y2, mo2);
  }

  /** Two concatenations with equally long second parts agree part by part. */
  lemma ConcatCancel(a1: string, b1: string, a2: string, b2: string)
    requires |b1| == |b2| && a1 + b1 == a2 + b2
    ensures a1 == a2 && b1 == b2
  {
    assert a1 == (a1 + b1)[..|a1|];
    assert a2 == (a2 + b2)[..|a2|];
    assert b1 == (a1 + b1)[|a1|..];
    assert b2 == (a2 + b2)[|a2|..];
  }

  /** `generate_timestamped_path`: `<base>/<name>_<timestamp>.<extension>`. */
  function TimestampedPath(base: string, baseName: string, extension: string, now: DateTime): string
    requires ValidDateTime(now)
  {
    Join(base, baseName + "_" + Timestamp(now) + "." + extension)
  }

  /** The file name the long-exposure image is saved under. */
  function OutputFileName(now: DateTime): string
    requires ValidDateTime(now)
  {
    "long_exposure_image_" + Timestamp(now) + ".png"
  }

  /** Where the image is saved: in the parent of the frames directory. */
  function OutputPath(framesDir: string, now: DateTime): string
    requires ValidDateTime(now)
  {
    TimestampedPath(Join(framesDir, ".."), "long_exposure_image", "png", now)
  }

  /** Unfolding aid: the literal pieces `format!("{}_{}.{}", ..)` glues together. */
  lemma OutputNameParts()
    ensures "long_exposure_image" + "_" == "long_exposure_image_"
    ensures "." + "png" == ".png"
  {
  }

  /** The output is `long_exposure_image_<timestamp>.png` in `<frames dir>/..`. */
  lemma {:induction false} OutputPathJoinsFileName(framesDir: string, now: DateTime)
    requires ValidDateTime(now)
    ensures OutputPath(framesDir, now) == Join(Join(framesDir, ".."), OutputFileName(now))
  {
    OutputNameParts();
    var t := Timestamp(now);
    assert "long_exposure_image" + "_" + t + "." + "png" == ("long_exposure_image" + "_") + t + ("." + "png");
  }

  /** The output path starts with `<frames dir>/..` and ends with the output file name. */
  lemma {:induction false} OutputPathShape(framesDir: string, now: DateTime)
    requires ValidDateTime(now)
    ensures StartsWith(OutputPath(framesDir, now), Join(framesDir, ".."))
    ensures EndsWith(OutputPath(framesDir, now), OutputFileName(now))
  {
    OutputPathJoinsFileName(framesDir, now);
    var name := OutputFileName(now);
    assert name[0] == 'l';
    JoinShape(Join(framesDir, ".."), name);
  }

  /** Images saved in different seconds get different names. */
  lemma {:induction false} OutputFileNameInjective(now: DateTime, later: DateTime)
    requires ValidDateTime(now) && ValidDateTime(later)
    requires OutputFileName(now) == OutputFileName(later)
    ensures now == later
  {
    var prefix := "long_exposure_image_";
    var t1, t2 := Timestamp(now), Timestamp(later);
    ConcatCancel(prefix + t1, ".png", prefix + t2, ".png");
    ConcatCancel(prefix, t1, prefix, t2);
    TimestampInjective(now, later);
  }

  /** The image produced and the path it is saved under. */
  datatype LongExposureImage = LongExposureImage(image: RgbaImage, path: string)

  /**
   * `create_long_exposure_image(frames_dir, selected)`.  `listing` is `None`
   * when `read_dir` fails (the source panics there) and otherwise the names
   * `next_entry` yields before the stream ends or first fails: the
   * `while let Ok(Some(entry))` loop stops silently at an I/O error, exactly
   * as at the end.  `decoded` holds the frames `image::open` can decode,
   * keyed by path, and `now` is the clock reading.
   */
  method CreateLongExposureImage(framesDir: string, listing: Option<seq<string>>, selected: seq<nat>,
                                 decoded: map<string, RgbaImage>, now: DateTime)
    returns (r: Result<LongExposureImage, CreateFailure>)
    requires ValidDateTime(now)
    requires forall p :: p in decoded ==> decoded[p].WellFormed()
    ensures listing.None? ==> r == Err(ReadDirPanicked)
    ensures listing.Some? && !AllNumbered(listing.value) ==>
              r.Err? && exists i :: 0 <= i < |listing.value| && FrameNumber(listing.value[i]) == Err(r.error)
                                      && AllNumbered(listing.value[..i])
    ensures listing.Some? && AllNumbered(listing.value) ==>
              var frames := Decoded(SelectedPaths(framesDir, listing.value, selected), decoded);
              && (frames == [] <==> r == Err(NoImagesChosen))
              && (frames != [] ==>
                    if ReadsInside(frames, frames[0].width, frames[0].height)
                    then r == Ok(LongExposureImage(Composite(frames), OutputPath(framesDir, now)))
                    else r == Err(GetPixelPanicked))
  {
    if listing.None? {
      return Err(ReadDirPanicked);
    }
    var imagePaths := CollectFramePaths(framesDir, listing.value, selected);
    if imagePaths.Err? {
      return Err(imagePaths.error);
    }
    var imageBuffers := Decoded(imagePaths.value, decoded);
    if imageBuffers == [] {
      return Err(NoImagesChosen);
    }
    var width, height := imageBuffers[0].width, imageBuffers[0].height;
    if !ReadsInside(imageBuffers, width, height) {
      return Err(GetPixelPanicked);
    }
    var longExposureImg := Composite(imageBuffers);
    return Ok(LongExposureImage(longExposureImg, OutputPath(framesDir, now)));
  }
}
