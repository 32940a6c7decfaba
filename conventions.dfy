/**
 * Literal file names cut at the boundaries of their parts, one cut per
 * lemma.  They are unfolding aids for the proofs in Conventions, kept in a
 * module of their own so that each literal comparison is checked alone.
 */
module SpelledNames {
  lemma FallbackDirectoryPiece()
    ensures "frames/ffout_thumbnail_0001.webp" == "frames/" + "ffout_thumbnail_0001.webp"
  {
  }

  lemma FallbackPrefixPiece()
    ensures "ffout_thumbnail_0001.webp" == "ffout_" + "thumbnail_0001.webp"
  {
  }

  lemma FallbackThumbnailPiece()
    ensures "thumbnail_0001.webp" == "thumbnail_" + "0001.webp"
  {
  }

  lemma FallbackSuffixPiece()
    ensures "0001.webp" == "0001" + ".webp" && "/" + "frames/" == "/frames/"
  {
  }
}

/**
 * How the pieces fit together: the frame and thumbnail names ffmpeg is told
 * to write, the numbers the compositor reads back from them, the addresses
 * the frontend builds for them, and the names the project service looks for.
 */
module Conventions {
  import opened Wrappers
  import opened Strings
  import opened Decimal
  import opened Paths
  import opened LongExposure
  import opened Utils
  import opened ProjectsService
  import opened Api
  import opened SpelledNames
  import opened FrameNames

  /** Both ffmpeg patterns of an upload resolve into the same frames directory. */
  lemma UploadPatternsShareFramesDir(plan: UploadPlan)
    requires plan.ffmpegOutput == Join(plan.framesDir, "ffout_%4d.png")
    requires plan.webpOutput == Join(plan.framesDir, "ffout_thumbnail_%4d.webp")
    ensures StartsWith(plan.ffmpegOutput, plan.framesDir) && StartsWith(plan.webpOutput, plan.framesDir)
  {
    JoinShape(plan.framesDir, "ffout_%4d.png");
    JoinShape(plan.framesDir, "ffout_thumbnail_%4d.webp");
  }

  /** The saved long-exposure image is the one the project listing picks as thumbnail. */
  lemma {:induction false} OutputFileIsLongExposureImage(now: DateTime)
    requires ValidDateTime(now)
    ensures IsLongExposureImageName(OutputFileName(now))
  {
    var name := OutputFileName(now);
    assert name[..|LongExposureImagePrefix|] == LongExposureImagePrefix;
    assert name[|name| - 4..] == ".png";
  }

  /** Unfolding aid: regrouping a concatenation whose literal parts are split differently on the two sides. */
  lemma ConcatRegroup(a: string, b: string, c: string, d: string, e: string, f: string, g: string, h: string, ab: string, def: string)
    requires a + b == ab && d + e + f == def
    ensures a + (((b + c) + d) + (((e + f) + g) + h)) == (((ab + c) + def) + g) + h
  {
  }

  /** The thumbnail's path relative to the media directory. */
  function ThumbnailRelative(projectId: string, n: nat): string {
    "outputs/" + projectId + "/frames/" + ThumbnailFileName(n)
  }

  /** Frame thumbnails lie below the output directory, under the project and `frames`. */
  function ThumbnailPath(mediaRoot: string, projectId: string, n: nat): string {
    mediaRoot + MediaMarker + ThumbnailRelative(projectId, n)
  }

  lemma ThumbnailRelativeHasNoBackslash(projectId: string, n: nat)
    requires '\\' !in projectId
    ensures '\\' !in ThumbnailRelative(projectId, n)
  {
    var name := ThumbnailFileName(n);
    assert '\\' !in name by {
      PaddedDigits(n);
      assert '\\' !in FramePrefix + "thumbnail_" by {
        assert '\\' !in FramePrefix && '\\' !in "thumbnail_";
      }
      assert '\\' !in ".webp";
    }
    assert '\\' !in "outputs/" + projectId + "/frames/" by {
      assert '\\' !in "outputs/" && '\\' !in "/frames/";
    }
  }

  /** Below the domain, the thumbnail is served at the frontend's address for it. */
  lemma {:induction false} ThumbnailRelativeIsFrameThumbnail(projectId: string, n: nat)
    ensures "/" + ThumbnailRelative(projectId, n) == FrameThumbnail(projectId, n)
  {
    var digits := ZeroPadded(n, 4);
    assert "/" + "outputs/" == "/outputs/";
    assert "/frames/" + FramePrefix + "thumbnail_" == "/frames/ffout_thumbnail_";
    ConcatRegroup("/", "outputs/", projectId, "/frames/", FramePrefix, "thumbnail_", digits, ".webp",
                  "/outputs/", "/frames/ffout_thumbnail_");
  }

  /** The frontend's thumbnail address is the address the backend serves that thumbnail at. */
  lemma {:induction false} FrameThumbnailIsServedThumbnail(domain: string, mediaRoot: string, projectId: string, n: nat)
    requires '\\' !in mediaRoot && '\\' !in projectId
    requires Find(mediaRoot + MediaMarker, MediaMarker) == Some(|mediaRoot|)
    ensures ServingUrl(Some(domain), ThumbnailPath(mediaRoot, projectId, n)) == domain + FrameThumbnail(projectId, n)
  {
    ThumbnailRelativeHasNoBackslash(projectId, n);
    ThumbnailRelativeIsFrameThumbnail(projectId, n);
    ServingUrlOfMediaFile(domain, mediaRoot, ThumbnailRelative(projectId, n));
  }

  /** Frame number 1 is written `0001`. */
  lemma ZeroPaddedOne()
    ensures ZeroPadded(1, 4) == "0001"
  {
  }

  /** Unfolding aid: regrouping a concatenation of five parts behind a separator. */
  lemma ConcatRegroupFive(sep: string, a: string, b: string, c: string, d: string, e: string, sa: string)
    requires sep + a == sa
    ensures sep + (a + (b + (c + (d + e)))) == sa + (((b + c) + d) + e)
  {
  }

  /** The fallback thumbnail is thumbnail 1 in the `frames` directory. */
  lemma {:induction false} FallbackNamesFirstThumbnail()
    ensures "/" + ThumbnailFallback == "/frames/" + ThumbnailFileName(1)
  {
    ZeroPaddedOne();
    assert ThumbnailFallback == "frames/ffout_thumbnail_0001.webp" && FramePrefix == "ffout_";
    FallbackDirectoryPiece();
    FallbackPrefixPiece();
    FallbackThumbnailPiece();
    FallbackSuffixPiece();
    ConcatRegroupFive("/", "frames/", FramePrefix, "thumbnail_", "0001", ".webp", "/frames/");
  }

  /**
   * A project without a long-exposure image shows its first thumbnail, which
   * is what the frontend addresses as frame 1.
   */
  lemma {:induction false} FallbackIsFirstThumbnail(mediaRoot: string, projectId: string)
    requires projectId != [] && '/' !in projectId
    ensures Join(Join(mediaRoot + MediaMarker + "outputs/", projectId), ThumbnailFallback) == ThumbnailPath(mediaRoot, projectId, 1)
  {
    var outputDir := mediaRoot + MediaMarker + "outputs/";
    var projectDir := outputDir + projectId;
    assert Join(outputDir, projectId) == projectDir by {
      assert outputDir[|outputDir| - 1] == '/';
      JoinRelative(outputDir, projectId);
    }
    assert Join(projectDir, ThumbnailFallback) == projectDir + ("/frames/" + ThumbnailFileName(1)) by {
      assert projectDir[|projectDir| - 1] == projectId[|projectId| - 1];
      assert ThumbnailFallback[0] != '/';
      JoinRelative(projectDir, ThumbnailFallback);
      FallbackNamesFirstThumbnail();
    }
    RegroupBelowMedia(mediaRoot + MediaMarker, "outputs/", projectId, "/frames/", ThumbnailFileName(1));
  }

  /** Unfolding aid: regrouping a path below the media directory. */
  lemma RegroupBelowMedia(head: string, c: string, p: string, d: string, t: string)
    ensures (head + c + p) + (d + t) == head + (c + p + d + t)
  {
  }

  /** The upload's path relative to the media directory. */
  function UploadRelative(projectId: string, extension: string): string {
    "uploads/" + UploadFileName(projectId, extension)
  }

  lemma UploadRelativeIsVideoFile(projectId: string, extension: string)
    ensures "/" + UploadRelative(projectId, extension) == VideoFile(projectId, extension)
  {
  }

  /** The frontend's video address is the address the upload is served at. */
  lemma {:induction false} VideoFileIsServedUpload(domain: string, mediaRoot: string, projectId: string, extension: string)
    requires '\\' !in mediaRoot && '\\' !in projectId && '\\' !in extension
    requires Find(mediaRoot + MediaMarker, MediaMarker) == Some(|mediaRoot|)
    ensures ServingUrl(Some(domain), mediaRoot + MediaMarker + UploadRelative(projectId, extension))
            == domain + VideoFile(projectId, extension)
  {
    var relative := UploadRelative(projectId, extension);
    assert '\\' !in relative;
    UploadRelativeIsVideoFile(projectId, extension);
    ServingUrlOfMediaFile(domain, mediaRoot, relative);
  }
}
