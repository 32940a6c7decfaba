/**
 * The frontend's address builders: the backend endpoints, the names of
 * frame thumbnails and uploaded videos, and the success test on HTTP
 * statuses.  `VITE_BACKEND_URL` is a parameter, `None` when it is not set.
 */
module Api {
  import opened Wrappers
  import opened Strings
  import opened Decimal

  const ProjectsEndpoint := "/projects"
  const ThumbnailSuffix := ".webp"

  /** `endpoints.specificProject(projectId)` */
  function SpecificProject(projectId: string): string {
    ProjectsEndpoint + "/" + projectId
  }

  /** A project's endpoint is `/projects/` followed by exactly its id. */
  lemma SpecificProjectShape(projectId: string)
    ensures StartsWith(SpecificProject(projectId), ProjectsEndpoint + "/")
    ensures SpecificProject(projectId)[|ProjectsEndpoint| + 1..] == projectId
  {
    var e := SpecificProject(projectId);
    assert e[..|ProjectsEndpoint| + 1] == ProjectsEndpoint + "/";
  }

  /** `endpoints.createLongExposureImage(projectId)` */
  function CreateLongExposureImage(projectId: string): string {
    ProjectsEndpoint + "/" + projectId + "/createLongExposureImage"
  }

  /** The creation endpoint is an action below the project's own endpoint. */
  lemma CreateLongExposureImageShape(projectId: string)
    ensures StartsWith(CreateLongExposureImage(projectId), SpecificProject(projectId) + "/")
    ensures EndsWith(CreateLongExposureImage(projectId), "/createLongExposureImage")
  {
    var e := CreateLongExposureImage(projectId);
    assert e == SpecificProject(projectId) + "/createLongExposureImage";
    assert e[..|SpecificProject(projectId)| + 1] == SpecificProject(projectId) + "/";
    assert e[|e| - |"/createLongExposureImage"|..] == "/createLongExposureImage";
  }

  /** Different projects have different endpoints. */
  lemma {:induction false} SpecificProjectInjective(id1: string, id2: string)
    requires SpecificProject(id1) == SpecificProject(id2)
    ensures id1 == id2
  {
    SpecificProjectShape(id1);
    SpecificProjectShape(id2);
  }

  /** The fixed text in front of a project's frame-thumbnail numbers. */
  function ThumbnailPrefix(projectId: string): string {
    "/outputs/" + projectId + "/frames/ffout_thumbnail_"
  }

  /**
   * `endpoints.frameThumbnail(projectId, frameNumber)`: the number in
   * decimal, left-padded with `0` to four characters.
   */
  function FrameThumbnail(projectId: string, frameNumber: nat): string {
    ThumbnailPrefix(projectId) + ZeroPadded(frameNumber, 4) + ThumbnailSuffix
  }

  /** The address is the prefix, at least four digits, and `.webp`; exactly four below 10000. */
  lemma {:induction false} FrameThumbnailShape(projectId: string, frameNumber: nat)
    ensures StartsWith(FrameThumbnail(projectId, frameNumber), ThumbnailPrefix(projectId))
    ensures EndsWith(FrameThumbnail(projectId, frameNumber), ThumbnailSuffix)
    ensures |FrameThumbnail(projectId, frameNumber)| >= |ThumbnailPrefix(projectId)| + 4 + |ThumbnailSuffix|
    ensures frameNumber < 10000 ==> |FrameThumbnail(projectId, frameNumber)| == |ThumbnailPrefix(projectId)| + 4 + |ThumbnailSuffix|
  {
    ZeroPaddedValue(frameNumber, 4);
    assert Pow10(4) == 10000;
    var e := FrameThumbnail(projectId, frameNumber);
    assert e[..|ThumbnailPrefix(projectId)|] == ThumbnailPrefix(projectId);
    assert e[|e| - |ThumbnailSuffix|..] == ThumbnailSuffix;
  }

  /** Reads the frame number back out of a frame-thumbnail address of the project. */
  function ParseFrameThumbnail(projectId: string, e: string): (n: Option<nat>)
    ensures n.Some? ==> StartsWith(e, ThumbnailPrefix(projectId)) && EndsWith(e, ThumbnailSuffix)
  {
    var prefix := ThumbnailPrefix(projectId);
    if StartsWith(e, prefix) && EndsWith(e, ThumbnailSuffix) && |prefix| + |ThumbnailSuffix| < |e| then
      var digits := e[|prefix|..|e| - |ThumbnailSuffix|];
      if AllDigits(digits) then Some(Value(digits)) else None
    else None
  }

  /** The backend's frame numbers invert the frontend's padding. */
  lemma {:induction false} ParseFrameThumbnailRoundTrip(projectId: string, frameNumber: nat)
    ensures ParseFrameThumbnail(projectId, FrameThumbnail(projectId, frameNumber)) == Some(frameNumber)
  {
    var prefix := ThumbnailPrefix(projectId);
    var digits := ZeroPadded(frameNumber, 4);
    ZeroPaddedValue(frameNumber, 4);
    FrameThumbnailShape(projectId, frameNumber);
    var e := FrameThumbnail(projectId, frameNumber);
    assert e[|prefix|..|e| - |ThumbnailSuffix|] == digits;
  }

  /** Different frames have different thumbnail addresses. */
  lemma FrameThumbnailInjective(projectId: string, n1: nat, n2: nat)
    requires FrameThumbnail(projectId, n1) == FrameThumbnail(projectId, n2)
    ensures n1 == n2
  {
    ParseFrameThumbnailRoundTrip(projectId, n1);
    ParseFrameThumbnailRoundTrip(projectId, n2);
  }

  /** `endpoints.videoFile(projectId, fileExtension)` */
  function VideoFile(projectId: string, fileExtension: string): string {
    "/uploads/" + projectId + "." + fileExtension
  }

  /** A video address is `/uploads/`, then the id, then `.` and the extension. */
  lemma VideoFileShape(projectId: string, fileExtension: string)
    ensures StartsWith(VideoFile(projectId, fileExtension), "/uploads/")
    ensures EndsWith(VideoFile(projectId, fileExtension), "." + fileExtension)
    ensures VideoFile(projectId, fileExtension)[|"/uploads/"|..|"/uploads/"| + |projectId|] == projectId
  {
    var e := VideoFile(projectId, fileExtension);
    assert e[..|"/uploads/"|] == "/uploads/";
    assert e[|e| - |"." + fileExtension|..] == "." + fileExtension;
  }

  /** `isSuccessfulStatus(status)`: a 2xx status. */
  function IsSuccessfulStatus(status: int): (ok: bool)
    ensures ok <==> status / 100 == 2
  {
    status >= 200 && status < 300
  }

  /**
   * `getBackendUrlByEndpoint(endpoint)`: the endpoint appended to the
   * backend's address; a template literal renders an unset address as
   * `undefined`.
   */
  function GetBackendUrlByEndpoint(backendUrl: Option<string>, endpoint: string): string {
    var base := match backendUrl case Some(u) => u case None => "undefined";
    base + endpoint
  }

  /** The address is the backend's address, or `undefined`, followed by exactly the endpoint. */
  lemma GetBackendUrlShape(backendUrl: Option<string>, endpoint: string)
    ensures var url := GetBackendUrlByEndpoint(backendUrl, endpoint);
            var base := if backendUrl.Some? then backendUrl.value else "undefined";
            StartsWith(url, base) && EndsWith(url, endpoint) && |url| == |base| + |endpoint|
  {
    var url := GetBackendUrlByEndpoint(backendUrl, endpoint);
    var base := if backendUrl.Some? then backendUrl.value else "undefined";
    assert url[..|base|] == base;
    assert url[|url| - |endpoint|..] == endpoint;
  }
}
