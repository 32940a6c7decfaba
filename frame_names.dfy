/**
 * The names ffmpeg gives the frames and thumbnails of an upload, and the
 * frame numbers the compositor reads back from them.
 */
module FrameNames {
  import opened Wrappers
  import opened Strings
  import opened Decimal
  import opened Paths
  import opened LongExposure

  /**
   * The name of frame `n` as ffmpeg writes it for the pattern
   * `ffout_%4d.png`: the number zero-padded to four digits.
   */
  function FrameFileName(n: nat): string {
    FramePrefix + ZeroPadded(n, 4) + ".png"
  }

  /** The name of thumbnail `n` for the pattern `ffout_thumbnail_%4d.webp`. */
  function ThumbnailFileName(n: nat): string {
    FramePrefix + "thumbnail_" + ZeroPadded(n, 4) + ".webp"
  }

  /** The padded number has digits only, and so no `.`, `f`, `+` or `\`. */
  lemma PaddedDigits(n: nat)
    ensures var d := ZeroPadded(n, 4);
            d != [] && AllDigits(d) && Value(d) == n && '.' !in d && 'f' !in d && '+' !in d && '\\' !in d
  {
    ZeroPaddedValue(n, 4);
    var d := ZeroPadded(n, 4);
    assert '\\' !in d by {
      forall i | 0 <= i < |d| ensures d[i] != '\\' {
        assert IsDigit(d[i]);
      }
    }
  }

  /** The compositor reads back the number of every frame ffmpeg writes. */
  lemma {:induction false} FrameNumberOfFrameFile(n: nat)
    requires n <= UsizeMax
    ensures FrameNumber(FrameFileName(n)) == Ok(n)
  {
    var digits := ZeroPadded(n, 4);
    var stem := FramePrefix + digits;
    PaddedDigits(n);
    assert FileStem(FrameFileName(n)) == Some(stem) by {
      assert FrameFileName(n) == stem + "." + "png";
      assert '.' !in FramePrefix;
      FileStemOfDottedName(stem, "png");
    }
    assert FrameNumberText(stem) == digits by {
      SplitLastAfterPattern(FramePrefix, digits);
      NoOccurrenceWithoutChar(digits, "0+", 1);
      ReplaceWithoutOccurrence(digits, "0+", "");
    }
    ParseUsizeOfDigits(digits);
  }

  /** Unfolding aid: regrouping a name of three parts and a two-part extension. */
  lemma RegroupName(a: string, b: string, c: string, d: string, e: string)
    ensures ((a + b) + c) + (d + e) == ((a + (b + c)) + d) + e
  {
  }

  /** A thumbnail's stem is the frame prefix followed by `thumbnail_` and the digits. */
  lemma {:induction false} ThumbnailStem(n: nat)
    ensures FileStem(ThumbnailFileName(n)) == Some(FramePrefix + ("thumbnail_" + ZeroPadded(n, 4)))
  {
    var digits := ZeroPadded(n, 4);
    var stem := FramePrefix + ("thumbnail_" + digits);
    assert ThumbnailFileName(n) == stem + "." + "webp" by {
      assert ".webp" == "." + "webp";
      RegroupName(FramePrefix, "thumbnail_", digits, ".", "webp");
    }
    assert '.' !in stem by {
      PaddedDigits(n);
      assert '.' !in FramePrefix && '.' !in "thumbnail_";
    }
    assert '.' !in "webp";
    FileStemOfDottedName(stem, "webp");
  }

  /** What follows the frame prefix in a thumbnail's stem is left as it is. */
  lemma {:induction false} ThumbnailNumberText(n: nat)
    ensures FrameNumberText(FramePrefix + ("thumbnail_" + ZeroPadded(n, 4))) == "thumbnail_" + ZeroPadded(n, 4)
  {
    var rest := "thumbnail_" + ZeroPadded(n, 4);
    assert 'f' !in rest && '+' !in rest by {
      PaddedDigits(n);
      assert 'f' !in "thumbnail_" && '+' !in "thumbnail_";
    }
    assert SplitLast(FramePrefix + rest, FramePrefix) == rest by {
      SplitLastAfterPattern(FramePrefix, rest);
    }
    assert Replace(rest, "0+", "") == rest by {
      NoOccurrenceWithoutChar(rest, "0+", 1);
      ReplaceWithoutOccurrence(rest, "0+", "");
    }
  }

  /** A thumbnail's name carries no frame number: reading one out of it panics. */
  lemma {:induction false} FrameNumberOfThumbnailFile(n: nat)
    ensures FrameNumber(ThumbnailFileName(n)).Err?
    ensures FrameNumber(ThumbnailFileName(n)).error.FrameNumberPanicked?
  {
    var rest := "thumbnail_" + ZeroPadded(n, 4);
    ThumbnailStem(n);
    ThumbnailNumberText(n);
    assert ParseUsize(rest).None? by {
      assert rest[0] == 't' && !IsDigit(rest[0]);
    }
  }

  /**
   * The frames directory an upload fills also receives the thumbnails, and
   * one thumbnail in the listing is enough for the compositor to stop.
   */
  lemma ThumbnailInListingStopsComposite(names: seq<string>, i: nat, n: nat)
    requires i < |names| && names[i] == ThumbnailFileName(n)
    ensures !AllNumbered(names)
  {
    FrameNumberOfThumbnailFile(n);
  }
}
