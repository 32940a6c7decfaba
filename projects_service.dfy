/**
 * The project service: listing the projects in the output directory,
 * choosing each one's thumbnail, deleting a project, and the decisions taken
 * when a video is uploaded.  The file system is an abstract value: which
 * directories can be read and what their streams yield, which paths exist,
 * which are directories, the stored metadata by project id, and which paths
 * cannot be removed.
 */
module ProjectsService {
  import opened Wrappers
  import opened Strings
  import opened Paths
  import opened Utils

  /** One directory entry: its file name and its kind. */
  datatype Entry = Entry(name: string, isDir: bool, isFile: bool)

  /**
   * What a directory stream yields: the entries, in order, that come before
   * the stream ends, and whether it ends with an error instead of its end.
   */
  datatype Stream = Stream(entries: seq<Entry>, failsAtEnd: bool)

  /** The state of each project, kept next to its frames. */
  datatype ProjectMetadata = ProjectMetadata(
    projectName: string,
    fps: nat,
    scale: string,
    videoFileExtension: string,
    latestLongExposureImageName: Option<string>)

  /** A project as the listing shows it. */
  datatype Project = Project(id: string, projectName: string, thumbnailPath: string)

  datatype FileSystem = FileSystem(
    listings: map<string, Stream>,           // directories `read_dir` can open
    existing: set<string>,                   // paths that exist
    directories: set<string>,                // paths that are directories
    metadata: map<string, ProjectMetadata>,  // metadata that can be read, by project id
    undeletable: set<string>)                // paths whose removal fails

  /** The I/O errors the service propagates. */
  datatype IoFailure =
    | ReadDirFailed(path: string)
    | NextEntryFailed(path: string)
    | RemoveFailed(path: string)
    | NotFound  // "Project directory or uploaded video file not found"

  const LongExposureImagePrefix := "long_exposure_image_"
  const ThumbnailFallback := "frames/ffout_thumbnail_0001.webp"

  /** The names `find_long_exposure_image` accepts. */
  predicate IsLongExposureImageName(name: string) {
    StartsWith(name, LongExposureImagePrefix) && EndsWith(name, ".png")
  }

  predicate IsLongExposureImageFile(e: Entry) {
    e.isFile && IsLongExposureImageName(e.name)
  }

  /** The position of the first long-exposure image among `entries`, from position `i` on. */
  function FirstLongExposureImageFrom(entries: seq<Entry>, i: nat): (r: Option<nat>)
    requires i <= |entries|
    ensures r.Some? ==> i <= r.value < |entries| && IsLongExposureImageFile(entries[r.value])
    ensures r.Some? ==> forall j :: i <= j < r.value ==> !IsLongExposureImageFile(entries[j])
    ensures r.None? <==> forall j :: i <= j < |entries| ==> !IsLongExposureImageFile(entries[j])
    decreases |entries| - i
  {
    if i == |entries| then None
    else if IsLongExposureImageFile(entries[i]) then Some(i)
    else FirstLongExposureImageFrom(entries, i + 1)
  }

  /** The position of the first long-exposure image among `entries`. */
  function FirstLongExposureImage(entries: seq<Entry>): Option<nat> {
    FirstLongExposureImageFrom(entries, 0)
  }

  /** The long-exposure image `find_long_exposure_image` finds in the directory `path`. */
  function LongExposureImageIn(path: string, fs: FileSystem): Option<string> {
    if path !in fs.listings then None
    else
      var entries := fs.listings[path].entries;
      match FirstLongExposureImage(entries)
      case None => None
      case Some(i) => Some(Join(path, entries[i].name))
  }

  /**
   * `find_long_exposure_image(path)`: the first regular file of the
   * directory named like a long-exposure image; none when the directory
   * cannot be read or the stream fails first.
   */
  method FindLongExposureImage(path: string, fs: FileSystem) returns (r: Option<string>)
    ensures r == LongExposureImageIn(path, fs)
  {
    if path !in fs.listings {
      return None;
    }
    var entries := fs.listings[path].entries;
    var i := 0;
    while i < |entries|
      invariant 0 <= i <= |entries|
      invariant forall j :: 0 <= j < i ==> !IsLongExposureImageFile(entries[j])
    {
      if IsLongExposureImageFile(entries[i]) {
        return Some(Join(path, entries[i].name));
      }
      i := i + 1;
    }
    return None;
  }

  /** The thumbnail of the project directory `path`. */
  function ThumbnailFor(path: string, fs: FileSystem): string {
    match LongExposureImageIn(path, fs)
    case Some(image) => image
    case None => Join(path, ThumbnailFallback)
  }

  /**
   * The thumbnail is the first long-exposure image of the directory, and the
   * first frame's thumbnail when there is none or the directory cannot be read.
   */
  lemma ThumbnailForChoice(path: string, fs: FileSystem)
    ensures (path !in fs.listings || forall j :: 0 <= j < |fs.listings[path].entries| ==> !IsLongExposureImageFile(fs.listings[path].entries[j]))
            ==> ThumbnailFor(path, fs) == Join(path, ThumbnailFallback)
    ensures path in fs.listings ==>
              forall i :: 0 <= i < |fs.listings[path].entries| && IsLongExposureImageFile(fs.listings[path].entries[i])
                          && (forall j :: 0 <= j < i ==> !IsLongExposureImageFile(fs.listings[path].entries[j]))
                          ==> ThumbnailFor(path, fs) == Join(path, fs.listings[path].entries[i].name)
  {
    if path in fs.listings {
      var entries := fs.listings[path].entries;
      match FirstLongExposureImage(entries)
      case None =>
      case Some(k) =>
        forall i | 0 <= i < |entries| && IsLongExposureImageFile(entries[i]) && (forall j :: 0 <= j < i ==> !IsLongExposureImageFile(entries[j]))
          ensures i == k
        {
        }
    }
  }

  /**
   * `find_thumbnail(path)`: the long-exposure image when there is one,
   * otherwise the first frame's thumbnail.  It always finds one.
   */
  method FindThumbnail(path: string, fs: FileSystem) returns (r: Option<string>)
    ensures r == Some(ThumbnailFor(path, fs))
  {
    var image := FindLongExposureImage(path, fs);
    if image.Some? {
      return Some(image.value);
    } else {
      return Some(Join(path, ThumbnailFallback));
    }
  }

  /**
   * The project `process_project_dir` makes of the entry `name` of the
   * output directory; `serve` is `convert_image_path_to_serving_url`.
   */
  function ProjectOf(outputDir: string, name: string, fs: FileSystem, serve: string -> string): (p: Option<Project>)
    ensures p.Some? <==> ThumbnailFor(Join(outputDir, name), fs) in fs.existing && name in fs.metadata
    ensures p.Some? ==> p.value.id == name && p.value.projectName == fs.metadata[name].projectName
    ensures p.Some? ==> p.value.thumbnailPath == serve(ThumbnailFor(Join(outputDir, name), fs))
  {
    var thumbnailPath := ThumbnailFor(Join(outputDir, name), fs);
    if thumbnailPath !in fs.existing || name !in fs.metadata then None
    else Some(Project(name, fs.metadata[name].projectName, serve(thumbnailPath)))
  }

  /**
   * `process_project_dir(path)` for the entry `name`: a project shows up
   * only when its thumbnail exists and its metadata can be read.
   */
  method ProcessProjectDir(outputDir: string, name: string, fs: FileSystem, serve: string -> string)
    returns (r: Option<Project>)
    ensures r == ProjectOf(outputDir, name, fs, serve)
  {
    var path := Join(outputDir, name);
    var projectId := name;
    var thumbnail := FindThumbnail(path, fs);
    var thumbnailPath := thumbnail.value;
    if thumbnailPath !in fs.existing {
      return None;
    }
    if projectId !in fs.metadata {
      return None;
    }
    var metadata := fs.metadata[projectId];
    var servingUrl := serve(thumbnailPath);
    return Some(Project(projectId, metadata.projectName, servingUrl));
  }

  /** `process_project_dir` for the entries of the output directory `outputDir`. */
  function ProcessorFor(outputDir: string, fs: FileSystem, serve: string -> string): string -> Option<Project> {
    name => ProjectOf(outputDir, name, fs, serve)
  }

  /** What one directory entry contributes to the listing: the project `process` makes of a directory. */
  function Listed(entry: Entry, process: string -> Option<Project>): seq<Project> {
    if entry.isDir then
      match process(entry.name)
      case Some(p) => [p]
      case None => []
    else []
  }

  /** The projects `process` makes of the first `n` directory entries, in listing order. */
  function ProjectsIn(entries: seq<Entry>, n: nat, process: string -> Option<Project>): (projects: seq<Project>)
    requires n <= |entries|
    ensures |projects| <= n
  {
    if n == 0 then [] else ProjectsIn(entries, n - 1, process) + Listed(entries[n - 1], process)
  }

  /** Listing one entry more adds that entry's project, if it makes one. */
  lemma ProjectsInStep(entries: seq<Entry>, i: nat, process: string -> Option<Project>)
    requires i < |entries|
    ensures ProjectsIn(entries, i + 1, process) == ProjectsIn(entries, i, process) + Listed(entries[i], process)
  {
  }

  /** Every listed project comes from a directory entry. */
  lemma {:induction false} ProjectsInSound(entries: seq<Entry>, n: nat, process: string -> Option<Project>, p: Project)
    requires n <= |entries| && p in ProjectsIn(entries, n, process)
    ensures exists i :: 0 <= i < n && entries[i].isDir && process(entries[i].name) == Some(p)
  {
    if p in ProjectsIn(entries, n - 1, process) {
      ProjectsInSound(entries, n - 1, process, p);
    } else {
      assert p in Listed(entries[n - 1], process);
      assert entries[n - 1].isDir && process(entries[n - 1].name) == Some(p);
    }
  }

  /** Every directory entry that makes a project is listed. */
  lemma {:induction false} ProjectsInComplete(entries: seq<Entry>, n: nat, process: string -> Option<Project>, i: nat)
    requires i < n <= |entries| && entries[i].isDir && process(entries[i].name).Some?
    ensures process(entries[i].name).value in ProjectsIn(entries, n, process)
  {
    if i < n - 1 {
      ProjectsInComplete(entries, n - 1, process, i);
    } else {
      assert Listed(entries[i], process) == [process(entries[i].name).value];
    }
  }

  /** Listing more entries only appends: the projects of earlier entries come first, in entry order. */
  lemma {:induction false} ProjectsInPrefix(entries: seq<Entry>, m: nat, n: nat, process: string -> Option<Project>)
    requires m <= n <= |entries|
    ensures ProjectsIn(entries, m, process) <= ProjectsIn(entries, n, process)
    decreases n
  {
    if m < n {
      ProjectsInPrefix(entries, m, n - 1, process);
    }
  }

  /** `convert_image_path_to_serving_url`, for the value of `DOMAIN` and the canonical form of paths. */
  function ServeFor(domainVar: Option<string>, canonicalize: string -> string): string -> string {
    path => ServingUrl(domainVar, canonicalize(path))
  }

  /** Every listed project's thumbnail is the serving URL, below the domain, of its project directory's thumbnail. */
  lemma {:induction false} ListedThumbnailsAreServed(outputDir: string, entries: seq<Entry>, fs: FileSystem, domainVar: Option<string>, canonicalize: string -> string, p: Project)
    requires p in ProjectsIn(entries, |entries|, ProcessorFor(outputDir, fs, ServeFor(domainVar, canonicalize)))
    ensures exists i :: 0 <= i < |entries| && entries[i].isDir && p.id == entries[i].name
                        && p.thumbnailPath == ServingUrl(domainVar, canonicalize(ThumbnailFor(Join(outputDir, entries[i].name), fs)))
    ensures StartsWith(p.thumbnailPath, Domain(domainVar) + "/")
  {
    var serve := ServeFor(domainVar, canonicalize);
    var process := ProcessorFor(outputDir, fs, serve);
    ProjectsInSound(entries, |entries|, process, p);
    var i :| 0 <= i < |entries| && entries[i].isDir && process(entries[i].name) == Some(p);
    var thumbnail := ThumbnailFor(Join(outputDir, entries[i].name), fs);
    assert p.thumbnailPath == ServingUrl(domainVar, canonicalize(thumbnail)) by {
      assert ProjectOf(outputDir, entries[i].name, fs, serve) == Some(p);
      assert serve(thumbnail) == ServingUrl(domainVar, canonicalize(thumbnail));
    }
    ServingUrlShape(domainVar, canonicalize(thumbnail));
  }

  /** The loop of `fetch_projects()`: each directory entry in turn goes through `process_project_dir`. */
  method CollectProjects(outputDir: string, entries: seq<Entry>, fs: FileSystem, serve: string -> string)
    returns (projects: seq<Project>)
    ensures projects == ProjectsIn(entries, |entries|, ProcessorFor(outputDir, fs, serve))
  {
    ghost var process := ProcessorFor(outputDir, fs, serve);
    projects := [];
    var i := 0;
    while i < |entries|
      invariant 0 <= i <= |entries|
      invariant projects == ProjectsIn(entries, i, process)
    {
      var entry := entries[i];
      ghost var before := projects;
      if entry.isDir {
        var project := ProcessProjectDir(outputDir, entry.name, fs, serve);
        assert Listed(entry, process) == if project.Some? then [project.value] else [] by {
          assert process(entry.name) == project;
        }
        if project.Some? {
          projects := projects + [project.value];
        }
      }
      assert projects == ProjectsIn(entries, i + 1, process) by {
        assert projects == before + Listed(entry, process);
        ProjectsInStep(entries, i, process);
      }
      i := i + 1;
    }
  }

  /**
   * `fetch_projects()`: every directory of the output directory that makes a
   * project, in listing order; an error when the directory cannot be read or
   * its stream fails.
   */
  method FetchProjects(outputDirVar: Option<string>, fs: FileSystem, serve: string -> string)
    returns (r: Result<seq<Project>, IoFailure>)
    ensures var outputDir := GetOutputDir(outputDirVar);
            && (outputDir !in fs.listings ==> r == Err(ReadDirFailed(outputDir)))
            && (outputDir in fs.listings ==>
                  var stream := fs.listings[outputDir];
                  && (stream.failsAtEnd ==> r == Err(NextEntryFailed(outputDir)))
                  && (!stream.failsAtEnd ==> r == Ok(ProjectsIn(stream.entries, |stream.entries|, ProcessorFor(outputDir, fs, serve)))))
  {
    var outputDir := GetOutputDir(outputDirVar);
    if outputDir !in fs.listings {
      return Err(ReadDirFailed(outputDir));
    }
    var stream := fs.listings[outputDir];
    var projects := CollectProjects(outputDir, stream.entries, fs, serve);
    if stream.failsAtEnd {
      return Err(NextEntryFailed(outputDir));
    }
    return Ok(projects);
  }

  /** The position of the first entry, from position `i` on, whose name starts with `prefix`. */
  function FirstWithPrefixFrom(entries: seq<Entry>, prefix: string, i: nat): (r: Option<nat>)
    requires i <= |entries|
    ensures r.Some? ==> i <= r.value < |entries| && StartsWith(entries[r.value].name, prefix)
    ensures r.Some? ==> forall j :: i <= j < r.value ==> !StartsWith(entries[j].name, prefix)
    ensures r.None? <==> forall j :: i <= j < |entries| ==> !StartsWith(entries[j].name, prefix)
    decreases |entries| - i
  {
    if i == |entries| then None
    else if StartsWith(entries[i].name, prefix) then Some(i)
    else FirstWithPrefixFrom(entries, prefix, i + 1)
  }

  /** The position of the first entry whose name starts with `prefix`. */
  function FirstWithPrefix(entries: seq<Entry>, prefix: string): Option<nat> {
    FirstWithPrefixFrom(entries, prefix, 0)
  }

  /** What a successful deletion removed. */
  datatype Deletion = Deletion(removedUpload: Option<string>, removedProjectDir: Option<string>)

  /**
   * `delete_project_by_id(project_id)`: removes the first upload whose name
   * starts with the id, then the project's output directory; it is an error
   * when there was neither.
   */
  method DeleteProjectById(projectId: string, uploadDirVar: Option<string>, outputDirVar: Option<string>, fs: FileSystem)
    returns (r: Result<Deletion, IoFailure>)
    ensures var uploadDir := GetUploadDir(uploadDirVar);
            var projectDir := Join(GetOutputDir(outputDirVar), projectId);
            && (uploadDir !in fs.listings ==> r == Err(ReadDirFailed(uploadDir)))
            && (uploadDir in fs.listings ==>
                  var stream := fs.listings[uploadDir];
                  match FirstWithPrefix(stream.entries, projectId)
                  case None =>
                    && (stream.failsAtEnd ==> r == Err(NextEntryFailed(uploadDir)))
                    && (!stream.failsAtEnd ==>
                          if projectDir !in fs.directories then r == Err(NotFound)
                          else if projectDir in fs.undeletable then r == Err(RemoveFailed(projectDir))
                          else r == Ok(Deletion(None, Some(projectDir))))
                  case Some(k) =>
                    var upload := Join(uploadDir, stream.entries[k].name);
                    if upload in fs.undeletable then r == Err(RemoveFailed(upload))
                    else if projectDir !in fs.directories then r == Ok(Deletion(Some(upload), None))
                    else if projectDir in fs.undeletable then r == Err(RemoveFailed(projectDir))
                    else r == Ok(Deletion(Some(upload), Some(projectDir))))
  {
    var outputDir := GetOutputDir(outputDirVar);
    var uploadDir := GetUploadDir(uploadDirVar);
    var projectDirPath := Join(outputDir, projectId);
    var uploadedFileFound := false;
    var removedUpload: Option<string> := None;
    if uploadDir !in fs.listings {
      return Err(ReadDirFailed(uploadDir));
    }
    var stream := fs.listings[uploadDir];
    var i := 0;
    while i < |stream.entries|
      invariant 0 <= i <= |stream.entries|
      invariant forall j :: 0 <= j < i ==> !StartsWith(stream.entries[j].name, projectId)
      invariant !uploadedFileFound && removedUpload == None
    {
      var fileName := stream.entries[i].name;
      if StartsWith(fileName, projectId) {
        var uploadedFilePath := Join(uploadDir, fileName);
        if uploadedFilePath in fs.undeletable {
          return Err(RemoveFailed(uploadedFilePath));
        }
        removedUpload := Some(uploadedFilePath);
        uploadedFileFound := true;
        break;
      }
      i := i + 1;
    }
    if !uploadedFileFound && stream.failsAtEnd {
      return Err(NextEntryFailed(uploadDir));
    }
    if projectDirPath in fs.directories {
      if projectDirPath in fs.undeletable {
        return Err(RemoveFailed(projectDirPath));
      }
      return Ok(Deletion(removedUpload, Some(projectDirPath)));
    } else if !uploadedFileFound {
      return Err(NotFound);
    }
    return Ok(Deletion(removedUpload, None));
  }

  /**
   * The name an upload is stored under, `<id>.<ext>`: among uploads of ids
   * of one length, the prefix test of the deletion picks exactly the
   * project's own.
   */
  function UploadFileName(projectId: string, extension: string): string {
    projectId + "." + extension
  }

  lemma UploadMatchesOwnId(projectId: string, otherId: string, extension: string)
    requires |projectId| == |otherId|
    ensures StartsWith(UploadFileName(otherId, extension), projectId) <==> otherId == projectId
  {
    assert UploadFileName(otherId, extension)[..|projectId|] == otherId;
  }

  /** An id shorter than another project's id also matches that project's upload. */
  lemma ShorterIdMatchesOtherUpload(projectId: string, otherId: string, extension: string)
    requires StartsWith(otherId, projectId)
    ensures StartsWith(UploadFileName(otherId, extension), projectId)
  {
    assert UploadFileName(otherId, extension)[..|projectId|] == otherId[..|projectId|];
  }

  /** The reply to an upload. */
  datatype UploadVideoResponse = UploadVideoResponse(message: string, videoId: string)

  const SkippedMessage := "Processing skipped as FPS and scale match existing project"
  const UploadedMessage := "Video was uploaded successfully"

  /** What `process_upload` sets up when it does process the video. */
  datatype UploadPlan = UploadPlan(
    savedVideo: Option<string>,   // where the video data is written, when some was sent
    framesDir: string,            // the directory emptied and refilled with frames
    ffmpegOutput: string,         // ffmpeg's pattern for the frames
    webpOutput: string,           // ffmpeg's pattern for the thumbnails
    metadata: ProjectMetadata)    // what is saved for the project

  datatype UploadOutcome = UploadOutcome(response: UploadVideoResponse, plan: Option<UploadPlan>)

  datatype UploadFailure =
    | MetadataUnreadable(id: string)  // the error `read_metadata_from_project` returned, passed on by `?`
    | ExtensionMissing                // "Video extension not provided and no metadata available"

  /**
   * The decisions of `process_upload`.  `freshId` is the id drawn when none
   * is supplied; ids are their text form.
   */
  method ProcessUpload(videoId: Option<string>, freshId: string, hasVideoData: bool, videoExtension: Option<string>,
                       projectName: string, scale: string, fps: nat,
                       uploadDirVar: Option<string>, outputDirVar: Option<string>, fs: FileSystem)
    returns (r: Result<UploadOutcome, UploadFailure>)
    ensures (videoId.Some? && videoId.value !in fs.metadata) <==> r.Err? && r.error.MetadataUnreadable?
    ensures r.Err? && r.error.MetadataUnreadable? ==> videoId == Some(r.error.id)
    ensures videoId.None? && videoExtension.None? <==> r == Err(ExtensionMissing)
    ensures r.Ok? ==>
              var id := if videoId.Some? then videoId.value else freshId;
              var existing := if videoId.Some? then Some(fs.metadata[videoId.value]) else None;
              var extension := if videoExtension.Some? then videoExtension.value else existing.value.videoFileExtension;
              var skip := existing.Some? && existing.value.fps == fps && existing.value.scale == scale;
              && (skip ==> r.value == UploadOutcome(UploadVideoResponse(SkippedMessage, id), None))
              && (!skip ==>
                    var framesDir := Join(GetOutputDir(outputDirVar), id + "/frames/");
                    r.value == UploadOutcome(
                      UploadVideoResponse(UploadedMessage, id),
                      Some(UploadPlan(
                        if hasVideoData then Some(Join(GetUploadDir(uploadDirVar), UploadFileName(id, extension))) else None,
                        framesDir,
                        Join(framesDir, "ffout_%4d.png"),
                        Join(framesDir, "ffout_thumbnail_%4d.webp"),
                        ProjectMetadata(projectName, fps, scale, extension, None)))))
  {
    var uploadDir := GetUploadDir(uploadDirVar);
    var outputDir := GetOutputDir(outputDirVar);
    var metadata: Option<ProjectMetadata> := None;
    var id: string;
    if videoId.Some? {
      if videoId.value !in fs.metadata {
        return Err(MetadataUnreadable(videoId.value));
      }
      metadata := Some(fs.metadata[videoId.value]);
      id := videoId.value;
    } else {
      id := freshId;
    }
    var videoFileExtension: string;
    match videoExtension {
      case Some(ext) =>
        videoFileExtension := ext;
      case None =>
        if metadata.Some? {
          videoFileExtension := metadata.value.videoFileExtension;
        } else {
          return Err(ExtensionMissing);
        }
    }
    if metadata.Some? {
      var existingMetadata := metadata.value;
      if existingMetadata.fps == fps && existingMetadata.scale == scale {
        return Ok(UploadOutcome(UploadVideoResponse(SkippedMessage, id), None));
      }
    }
    var uploadedMovieSaveFilePath := Join(uploadDir, UploadFileName(id, videoFileExtension));
    var savedVideo := if hasVideoData then Some(uploadedMovieSaveFilePath) else None;
    var cutImagesSaveDirPath := Join(outputDir, id + "/frames/");
    var ffmpegOutputPath := Join(cutImagesSaveDirPath, "ffout_%4d.png");
    var webpOutputPath := Join(cutImagesSaveDirPath, "ffout_thumbnail_%4d.webp");
    var newMetadata := ProjectMetadata(projectName, fps, scale, videoFileExtension, None);
    return Ok(UploadOutcome(UploadVideoResponse(UploadedMessage, id),
                            Some(UploadPlan(savedVideo, cutImagesSaveDirPath, ffmpegOutputPath, webpOutputPath, newMetadata))));
  }
}
