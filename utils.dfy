/**
 * Directory settings and the public URL of a stored image.  The environment
 * variables and the canonical form of a path are parameters: `None` stands
 * for a variable that is not set.
 */
module Utils {
  import opened Wrappers
  import opened Strings

  const DefaultUploadDir := "./media/uploads/"
  const DefaultOutputDir := "./media/outputs/"
  const DefaultDomain := "http://localhost:8080"
  const MediaMarker := "/media/"

  /**
   * The directory normalisation both settings share: a missing trailing `/`
   * is appended, nothing else changes.
   */
  function WithTrailingSlash(dir: string): string {
    if EndsWith(dir, "/") then dir else dir + "/"
  }

  /** The result ends in `/`, extends the value by at most that `/`, and is the value itself exactly when it already ends in `/`. */
  lemma WithTrailingSlashShape(dir: string)
    ensures var r := WithTrailingSlash(dir);
            EndsWith(r, "/") && StartsWith(r, dir) && |r| <= |dir| + 1 && (EndsWith(dir, "/") <==> r == dir)
  {
    var r := dir + "/";
    assert r[|r| - 1..] == "/";
    assert r[..|dir|] == dir;
  }

  /** Normalising twice is normalising once. */
  lemma {:induction false} WithTrailingSlashIdempotent(dir: string)
    ensures WithTrailingSlash(WithTrailingSlash(dir)) == WithTrailingSlash(dir)
  {
    WithTrailingSlashShape(dir);
  }

  /** `get_upload_dir()`, given the value of `MOVIE_UPLOAD_DIR`. */
  function GetUploadDir(uploadDirVar: Option<string>): (dir: string)
    ensures uploadDirVar.None? ==> dir == DefaultUploadDir
  {
    match uploadDirVar
    case None =>
      assert DefaultUploadDir[|DefaultUploadDir| - 1..] == "/";
      WithTrailingSlash(DefaultUploadDir)
    case Some(v) => WithTrailingSlash(v)
  }

  /** `get_output_dir()`, given the value of `LONG_EXPOSURE_IMG_OUTPUT_DIR`. */
  function GetOutputDir(outputDirVar: Option<string>): (dir: string)
    ensures outputDirVar.None? ==> dir == DefaultOutputDir
  {
    match outputDirVar
    case None =>
      assert DefaultOutputDir[|DefaultOutputDir| - 1..] == "/";
      WithTrailingSlash(DefaultOutputDir)
    case Some(v) => WithTrailingSlash(v)
  }

  /** Both directories end in `/` and extend a set value by at most that `/`. */
  lemma {:induction false} DirectoriesShape(dirVar: Option<string>)
    ensures EndsWith(GetUploadDir(dirVar), "/") && EndsWith(GetOutputDir(dirVar), "/")
    ensures dirVar.Some? ==> StartsWith(GetUploadDir(dirVar), dirVar.value) && |GetUploadDir(dirVar)| <= |dirVar.value| + 1
    ensures dirVar.Some? ==> StartsWith(GetOutputDir(dirVar), dirVar.value) && |GetOutputDir(dirVar)| <= |dirVar.value| + 1
  {
    match dirVar
    case None =>
      assert DefaultUploadDir[|DefaultUploadDir| - 1..] == "/";
      assert DefaultOutputDir[|DefaultOutputDir| - 1..] == "/";
    case Some(v) => WithTrailingSlashShape(v);
  }

  /** The server's public address, given the value of `DOMAIN`. */
  function Domain(domainVar: Option<string>): string {
    match domainVar
    case None => DefaultDomain
    case Some(d) => d
  }

  /**
   * The part of the URL after the domain: backslashes turned into slashes,
   * everything up to the first `/media/` dropped (the whole path when there
   * is none), and leading slashes removed.
   */
  function ServingRest(canonicalPath: string): (rest: string)
    ensures '\\' !in rest
    ensures rest == [] || rest[0] != '/'
  {
    var pathStr := Replace(canonicalPath, "\\", "/");
    ReplaceRemovesChar(canonicalPath, '\\', "/");
    var cleanPath := match AfterFirst(pathStr, MediaMarker)
      case None => pathStr
      case Some(afterMedia) => afterMedia;
    assert EndsWith(pathStr, cleanPath);
    var rest := TrimStart(cleanPath, '/');
    assert '\\' !in rest by {
      if '\\' in rest {
        SuffixChars(cleanPath, rest, '\\');
        SuffixChars(pathStr, cleanPath, '\\');
      }
    }
    rest
  }

  /** `convert_image_path_to_serving_url(image_path)`, `canonicalPath` being the canonical form of `image_path`. */
  function ServingUrl(domainVar: Option<string>, canonicalPath: string): string {
    Domain(domainVar) + "/" + ServingRest(canonicalPath)
  }

  /** Every served URL is the domain, a `/`, and a rest free of backslashes and leading slashes. */
  lemma ServingUrlShape(domainVar: Option<string>, canonicalPath: string)
    ensures StartsWith(ServingUrl(domainVar, canonicalPath), Domain(domainVar) + "/")
    ensures EndsWith(ServingUrl(domainVar, canonicalPath), ServingRest(canonicalPath))
  {
    var url := ServingUrl(domainVar, canonicalPath);
    assert url[..|Domain(domainVar) + "/"|] == Domain(domainVar) + "/";
    assert url[|url| - |ServingRest(canonicalPath)|..] == ServingRest(canonicalPath);
  }

  /**
   * A path without `/media/` is served whole, after its leading slashes: an
   * absolute path outside the media directory keeps all of its directories.
   */
  lemma ServingUrlWithoutMedia(domainVar: Option<string>, canonicalPath: string)
    requires '\\' !in canonicalPath
    requires Find(canonicalPath, MediaMarker).None?
    ensures ServingUrl(domainVar, canonicalPath) == Domain(domainVar) + "/" + TrimStart(canonicalPath, '/')
  {
    assert Replace(canonicalPath, "\\", "/") == canonicalPath by {
      NoOccurrenceWithoutChar(canonicalPath, "\\", 0);
      ReplaceWithoutOccurrence(canonicalPath, "\\", "/");
    }
  }

  /**
   * A file stored below the first `/media/` of its canonical path is served
   * under its path relative to the media directory.
   */
  lemma {:induction false} ServingUrlOfMediaFile(domain: string, prefix: string, relative: string)
    requires '\\' !in prefix && '\\' !in relative
    requires Find(prefix + MediaMarker, MediaMarker) == Some(|prefix|)
    requires relative == [] || relative[0] != '/'
    ensures ServingUrl(Some(domain), prefix + MediaMarker + relative) == domain + ("/" + relative)
  {
    var head := prefix + MediaMarker;
    var path := head + relative;
    assert '\\' !in path by {
      assert '\\' !in MediaMarker;
    }
    assert Replace(path, "\\", "/") == path by {
      NoOccurrenceWithoutChar(path, "\\", 0);
      ReplaceWithoutOccurrence(path, "\\", "/");
    }
    assert AfterFirst(path, MediaMarker) == Some(relative) by {
      FindExtends(head, relative, MediaMarker, |prefix|);
      assert path[|prefix| + |MediaMarker|..] == relative;
    }
    assert TrimStart(relative, '/') == relative;
    assert ServingRest(path) == relative;
    assert domain + "/" + relative == domain + ("/" + relative);
  }
}
