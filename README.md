# Max-Light: a verified model of the long-exposure core

Max-Light turns a video into a "long exposure" photograph. The backend cuts
the uploaded video into numbered frames (`ffout_0001.png`, …) and
thumbnails (`ffout_thumbnail_0001.webp`, …) under
`<output dir>/<project id>/frames/`. The user picks some frame numbers. The
backend then builds an image in which every pixel is the channel-wise
maximum of that pixel over the chosen frames, with alpha forced to 255. It
saves that image as `long_exposure_image_<YYYYMMDDHHMMSS>.png` beside the
frames directory. The frontend builds its URLs from the project id.

This project models that core in Dafny and proves properties of the model.
One module covers each concern:

| module | file | models |
|---|---|---|
| `Wrappers` | wrappers.dfy | `Option` and `Result` |
| `Strings` | strings.dfy | the Rust string operations the core uses: `starts_with`, `ends_with`, `find`, `replace`, `split(..).last()`, `splitn(2, ..).nth(1)` and `trim_start_matches` |
| `Decimal` | decimal.dfy | `usize` parsing, decimal rendering and JavaScript's `padStart` |
| `Paths` | paths.dfy | `PathBuf::join` and `Path::file_stem` on textual paths |
| `Rgba` | rgba.dfy | RGBA pixels and images |
| `MaxLight` | maxlight.dfy | `blend_max` and the per-pixel fold that both compositors share |
| `LongExposure` | long_exposure.dfy | the current compositor in `backend/src/core/long_exposure_image_logic.rs` |
| `LegacyLongExposure` | legacy_long_exposure.dfy | the older compositor in `src/core/image_magic.rs` |
| `Utils` | utils.dfy | directory settings and the serving URL, from `backend/src/utils.rs` |
| `ProjectsService` | projects_service.dfy | listing, deleting and uploading projects, from `backend/src/services/projects_service.rs` |
| `Api` | api.dfy | the endpoint builders of `frontend/src/api.ts` |
| `FrameNames` | frame_names.dfy | the names ffmpeg gives frames and thumbnails, and what the compositor makes of them |
| `SpelledNames`, `Conventions` | conventions.dfy | how the backend's names and the frontend's URLs fit together |

How the model is built:

- **State is a value.** The file system is a `FileSystem` value: directory
  listings (each a stream that may fail after its entries), existing files,
  directories, readable project metadata and paths that cannot be removed.
  An operation that touches the disk is a method over that value. It
  returns what the Rust code returns, plus what it would write or remove.
- **Loops stay loops.** The sequential loops (the frame-selection loop, the
  legacy load and pixel loops, the project listing, the thumbnail search and
  the upload search) are Dafny methods with loops. Each `ensures` ties the
  result to a specification function, such as `SelectedPaths`, `ProjectsIn`,
  `LongExposureImageIn`, `FirstWithPrefix` or `Composite`. The properties are
  proved about those functions.
- **Iterator pipelines are functions.** The backend's `par_iter` decoding
  (long_exposure_image_logic.rs:58-62) is the function `LongExposure.Decoded`.
  Its `par_bridge` pixel pass (74-85) is the function `MaxLight.Composite`.
  Both are written as iterator chains, not loops that update variables.
- **Panics are results.** A panic (`expect`, `unwrap`, an out-of-range
  index, `get_pixel` outside the image) becomes a distinct error value, so
  that each path to it is stated.
- **Path order is text order.** `sort()` on the legacy paths is modelled as
  character order on the path text. All the sorted paths are one directory
  joined with an entry name, and names contain no `/`.
  LegacyLongExposure.EntryPathOrder proves that such paths are ordered by
  their names. That is also the component-wise order of `PathBuf`, so the
  model is exact. UTF-8 byte order and code-point order agree.
- **The legacy output is a mutable buffer.** The legacy compositor writes
  its output into an `array2`, as its `enumerate_pixels_mut` loop writes
  into the buffer.

## Model

| member | source | states |
|---|---|---|
| MaxLight.MaxChannel | backend/src/core/long_exposure_image_logic.rs:115-117 | `u8::max`: the result is at least both arguments and is one of them |
| MaxLight.BlendMax | backend/src/core/long_exposure_image_logic.rs:113-120 | every colour channel is the larger of the two inputs' channels, and therefore bounds both and is attained by one; alpha is always 255 |
| MaxLight.BlendMaxLaws | backend/src/core/long_exposure_image_logic.rs:113-120 | blending is commutative and associative; blending a pixel with itself gives it back with alpha 255 |
| MaxLight.FoldMax | backend/src/core/long_exposure_image_logic.rs:78-83 | the `fold` from a starting pixel, blending each frame's pixel in frame order; its meaning is stated by FoldMaxSnoc, FoldMaxBounds and FoldMaxSetDetermined |
| MaxLight.FoldMaxSnoc | backend/src/core/long_exposure_image_logic.rs:78-83 | folding one more frame blends its pixel into the fold of the earlier ones |
| MaxLight.FoldMaxBounds | backend/src/core/long_exposure_image_logic.rs:78-83 | each channel of the fold is at least the starting pixel's and every frame's, and equals the starting pixel's or some frame's; alpha is 255 once a frame was folded |
| MaxLight.FoldMaxSetDetermined | backend/src/core/long_exposure_image_logic.rs:78-83 | the fold depends only on the set of pixels folded, not their order or repetition, so a pixel's value does not depend on frame order among frames of one size |
| MaxLight.Column | backend/src/core/long_exposure_image_logic.rs:81 | the pixels at `(x, y)` of every frame, in frame order |
| MaxLight.CompositePixel | backend/src/core/long_exposure_image_logic.rs:78-83 | the folded pixel at `(x, y)` starting from opaque black `Rgba([0, 0, 0, 255])`; CompositePixelBounds and CompositePixelAttained state what it is |
| MaxLight.Composite | backend/src/core/long_exposure_image_logic.rs:71-85 | the output has the first frame's width and height, is well formed, and each pixel is CompositePixel; it needs only that every pixel read lies inside every frame |
| MaxLight.CompositePixelBounds | backend/src/core/long_exposure_image_logic.rs:78-83 | each output channel is at least that channel in every frame, and alpha is 255 |
| MaxLight.CompositePixelAttained | backend/src/core/long_exposure_image_logic.rs:78-83 | each output channel equals that channel in some frame: the composite introduces no brightness that no frame had |
| MaxLight.CompositeSingleFrame | backend/src/core/long_exposure_image_logic.rs:78-84 | the composite of one frame is that frame with alpha set to 255 |
| MaxLight.CompositeOrderIndependent | backend/src/core/long_exposure_image_logic.rs:55-56 | two lists of equally sized frames that hold the same frames give the same composite, whatever their order or repetitions, so the commented-out sort is not needed |
| MaxLight.CompositeAbsorbsOwnOutput | backend/src/core/long_exposure_image_logic.rs:78-84 | adding the composite itself as a further frame changes nothing (idempotence) |
| Rgba.PixelExt | backend/src/core/long_exposure_image_logic.rs:113-119 | two pixels with equal channels are equal |
| Rgba.ReadsInsidePointwise | backend/src/core/long_exposure_image_logic.rs:72-85 | the condition under which no `get_pixel` panics is exactly that every coordinate of the first frame's size lies inside every frame; with a zero width or height nothing is read |
| MaxLight.CompositeOfEmptyFirstFrame | backend/src/core/long_exposure_image_logic.rs:72-85 | a first frame with zero width or height reads no pixel and gives an output of that size, whatever the other frames are |
| LongExposure.FrameNumberText | backend/src/core/long_exposure_image_logic.rs:39-44 | the text after the last `ffout_` of the stem with each literal `0+` removed; FrameNames.ThumbnailNumberText and FrameNames.FrameNumberOfFrameFile state what it gives for ffmpeg's names |
| LongExposure.FrameNumber | backend/src/core/long_exposure_image_logic.rs:30-48 | a frame number read from a name fits in a usize; the only failures are the file-stem panic and the parse panic (the literal, non-regex `replace("0+", "")` is modelled as written) |
| LongExposure.SelectedPaths | backend/src/core/long_exposure_image_logic.rs:49-52 | one path per selected entry at most; SelectedPathsSound and SelectedPathsComplete state which |
| LongExposure.SelectedPathsAppend | backend/src/core/long_exposure_image_logic.rs:29-53 | selecting from a longer listing extends the earlier selection |
| LongExposure.SelectedPathsSound | backend/src/core/long_exposure_image_logic.rs:49-51 | every selected path is `frames_dir/<name>` for an entry whose number was chosen |
| LongExposure.SelectedPathsComplete | backend/src/core/long_exposure_image_logic.rs:49-51 | every entry whose number was chosen is selected |
| LongExposure.CollectFramePaths | backend/src/core/long_exposure_image_logic.rs:28-53 | the loop succeeds exactly when every entry has a frame number; the error is that of the first entry without one; on success it returns SelectedPaths |
| LongExposure.Decoded | backend/src/core/long_exposure_image_logic.rs:58-62 | frames that fail to decode are dropped: every frame is the decoding of some path, there are no more frames than paths, and none at all exactly when no path decodes |
| LongExposure.DecodedAppend | backend/src/core/long_exposure_image_logic.rs:58-62 | decoding a concatenation of path lists concatenates their frames, so the frames keep the paths' order |
| LongExposure.DecodedComplete | backend/src/core/long_exposure_image_logic.rs:58-62 | the frame of every path that decodes is kept |
| LongExposure.DecodedFirst | backend/src/core/long_exposure_image_logic.rs:58-71 | the first frame, which fixes the output size and the panic condition, is the decoding of the first path that decodes |
| LongExposure.Timestamp | backend/src/core/long_exposure_image_logic.rs:13 | `%Y%m%d%H%M%S` is 14 decimal digits |
| LongExposure.TimestampedPath | backend/src/core/long_exposure_image_logic.rs:12-15 | `base` joined with `<name>_<timestamp>.<ext>`; OutputPathJoinsFileName and OutputFileNameInjective state its properties |
| LongExposure.TimestampInjective | backend/src/core/long_exposure_image_logic.rs:13 | distinct valid clock readings give distinct timestamps |
| LongExposure.OutputFileName | backend/src/core/long_exposure_image_logic.rs:14 | `long_exposure_image_<timestamp>.png`; Conventions.OutputFileIsLongExposureImage and OutputFileNameInjective state its properties |
| LongExposure.OutputPath | backend/src/core/long_exposure_image_logic.rs:103-104 | the timestamped path in `<frames dir>/..`; OutputPathJoinsFileName and OutputPathShape state its shape |
| LongExposure.OutputPathJoinsFileName | backend/src/core/long_exposure_image_logic.rs:103-104 | the output path is `<frames dir>/..` joined with the timestamped file name |
| LongExposure.OutputPathShape | backend/src/core/long_exposure_image_logic.rs:103-104 | the output path starts with `<frames dir>/..` and ends with the timestamped file name |
| LongExposure.OutputFileNameInjective | backend/src/core/long_exposure_image_logic.rs:12-15 | different seconds give different output names, so a new image never overwrites an earlier one |
| LongExposure.CreateLongExposureImage | backend/src/core/long_exposure_image_logic.rs:17-111 | an unreadable directory panics; an unnumbered entry gives the panic of the first such entry; no decodable selected frame gives "No images were chosen"; a pixel of the first frame's size missing from some frame panics in get_pixel (never when the first frame is empty); otherwise the result is the composite of the decoded frames, saved under the timestamped path |
| LegacyLongExposure.LexLeTotal | src/core/image_magic.rs:12 | the path order is total |
| LegacyLongExposure.LexLeTransitive | src/core/image_magic.rs:12 | the path order is transitive |
| LegacyLongExposure.LexLeAntisymmetric | src/core/image_magic.rs:12 | the path order is antisymmetric |
| LegacyLongExposure.LexLeSharedPrefix | src/core/image_magic.rs:12 | a common prefix does not change the order |
| LegacyLongExposure.EntryPathOrder | src/core/image_magic.rs:7-12 | two paths of one directory are ordered by their entry names; for names without `/` this is also `PathBuf`'s component-wise order |
| LegacyLongExposure.Insert | src/core/image_magic.rs:12 | inserting into a sorted list keeps it sorted and adds exactly that element |
| LegacyLongExposure.SortPaths | src/core/image_magic.rs:11-12 | `sort()` gives a sorted permutation of the paths |
| LegacyLongExposure.SortedHeadIsLeast | src/core/image_magic.rs:12 | the first of a sorted list is below every element |
| LegacyLongExposure.SortedUnique | src/core/image_magic.rs:12 | two sorted permutations of one list are equal, so the sort result is determined |
| LegacyLongExposure.EntryPaths | src/core/image_magic.rs:7-9 | every listed name becomes `dir_path/<name>`, in order |
| LegacyLongExposure.LoadImages | src/core/image_magic.rs:14-19 | the loop succeeds exactly when every path decodes and then returns the decoded frames in order; otherwise the error names the first path that does not decode |
| LegacyLongExposure.MaxPixelAt | src/core/image_magic.rs:26-31 | the inner loop's pixel is the fold over all frames, with alpha 255 |
| LegacyLongExposure.CompositeImages | src/core/image_magic.rs:22-34 | a fresh buffer of the first frame's size whose every pixel equals the composite's |
| LegacyLongExposure.LoadedFrames | src/core/image_magic.rs:16-19 | one frame per path |
| LegacyLongExposure.CreateLongExposureImageLegacy | src/core/image_magic.rs:6-38 | an unreadable directory fails; otherwise the first sorted path that does not decode fails naming it; no frames panics at `image_buffers[0]`; a pixel of the first frame's size missing from some frame panics in get_pixel (never when the first frame is empty); otherwise a fresh buffer equal to the composite of the sorted frames, saved as `dir_path/long_exposure_image.png` |
| Utils.WithTrailingSlash | backend/src/utils.rs:25-29 | the shared normalisation of both directory settings; WithTrailingSlashShape and WithTrailingSlashIdempotent state what it does |
| Utils.WithTrailingSlashShape | backend/src/utils.rs:25-29 | the normalised directory ends in `/`, extends the value by at most that `/`, and is the value unchanged exactly when it already ended in `/` |
| Utils.WithTrailingSlashIdempotent | backend/src/utils.rs:35-39 | normalising twice is normalising once |
| Utils.GetUploadDir | backend/src/utils.rs:23-30 | without `MOVIE_UPLOAD_DIR` the directory is `./media/uploads/` |
| Utils.GetOutputDir | backend/src/utils.rs:32-40 | without `LONG_EXPOSURE_IMG_OUTPUT_DIR` the directory is `./media/outputs/` |
| Utils.DirectoriesShape | backend/src/utils.rs:23-40 | both directories always end in `/`, and a set value is kept up to that `/` |
| Utils.Domain | backend/src/utils.rs:61 | `DOMAIN`, or `http://localhost:8080` when it is not set |
| Utils.ServingRest | backend/src/utils.rs:66-73 | the part after the domain contains no backslash and does not start with `/`; ServingUrlOfMediaFile and ServingUrlWithoutMedia give it exactly |
| Utils.ServingUrl | backend/src/utils.rs:60-76 | `format!("{}/{}", domain, final_path)` of the canonical path; ServingUrlShape, ServingUrlOfMediaFile and ServingUrlWithoutMedia state what it gives |
| Utils.ServingUrlShape | backend/src/utils.rs:60-76 | a serving URL is the domain, a `/`, and that rest |
| Utils.ServingUrlOfMediaFile | backend/src/utils.rs:60-76 | a file below the first `/media/` of its canonical path is served at `<domain>/<path below media>` |
| Utils.ServingUrlWithoutMedia | backend/src/utils.rs:70-75 | a canonical path without `/media/` is served whole after its leading slashes (the `unwrap_or(&path_str)` case) |
| Strings.StartsWith | backend/src/services/projects_service.rs:61 | `str::starts_with` |
| Strings.EndsWith | backend/src/services/projects_service.rs:61 | `str::ends_with` |
| Strings.Find | backend/src/utils.rs:70 | `str::find`: the first position of the pattern; FindFrom's contract, FindFromFirst and FindExtends state it |
| Strings.Replace | backend/src/core/long_exposure_image_logic.rs:43 | `str::replace` of non-overlapping occurrences from left to right; ReplaceRemovesChar and ReplaceWithoutOccurrence state its properties |
| Strings.LastIndexOf | backend/src/core/long_exposure_image_logic.rs:32-33 | the last position of a character, as `file_stem` looks for the last `.`; the position holds the character and none follows |
| Strings.SplitLast | backend/src/core/long_exposure_image_logic.rs:39-42 | `split(p).last()` is a suffix without `p`: the whole string when `p` does not occur, and otherwise text that follows an occurrence of `p` |
| Strings.AfterFirst | backend/src/utils.rs:70 | `splitn(2, p).nth(1)` is `None` exactly when `p` does not occur, and otherwise the text after its first occurrence |
| Strings.TrimStart | backend/src/utils.rs:73 | the result is a suffix that does not start with the character, after only that character was removed |
| Strings.FindExtends | backend/src/utils.rs:70 | the first occurrence of a pattern is still the first after appending text |
| Strings.ReplaceRemovesChar | backend/src/utils.rs:67 | replacing a character by text without it leaves none of it |
| Strings.ReplaceWithoutOccurrence | backend/src/utils.rs:67 | replacing a pattern that does not occur changes nothing |
| Strings.SplitLastAfterPattern | backend/src/core/long_exposure_image_logic.rs:39-42 | for `p` followed by text without `p`'s first character, `split(p).last()` is that text |
| Decimal.ParseUsize | backend/src/core/long_exposure_image_logic.rs:46-48 | `parse::<usize>()` (an optional `+`, then digits) yields only values that fit in a 64-bit usize |
| Decimal.ParseUsizeOfDigits | backend/src/core/long_exposure_image_logic.rs:46-48 | a digit string whose value fits in a usize parses to that value |
| Decimal.ToDecimal | frontend/src/api.ts:107 | `toString()` of a natural number: non-empty decimal digits without a leading zero |
| Decimal.ValueOfToDecimal | frontend/src/api.ts:107 | `toString()` of a natural number is its decimal digits |
| Decimal.ValueLeadingZeros | frontend/src/api.ts:107 | leading zeros do not change a decimal value |
| Decimal.ZeroPadded | frontend/src/api.ts:107 | `toString().padStart(width, '0')`; ZeroPaddedValue states its value and length |
| Decimal.ZeroPaddedValue | frontend/src/api.ts:107 | `padStart(4, '0')` of a number is digits of the same value, at least 4 long, and exactly 4 long below 10000 |
| Decimal.PadStart | frontend/src/api.ts:107 | padding prefixes the fill character up to the width and keeps the text as a suffix |
| Paths.Join | backend/src/services/projects_service.rs:51 | `Path::join` on text: an absolute name replaces the base, otherwise one `/` separates them unless the base ends in one; JoinShape and JoinRelative state this |
| Paths.JoinShape | backend/src/services/projects_service.rs:51 | a join ends with the joined name, and starts with the base when the name is relative |
| Paths.JoinRelative | backend/src/services/projects_service.rs:73 | joining a relative name inserts exactly one `/` unless the base already ends in one |
| Paths.FileStem | backend/src/core/long_exposure_image_logic.rs:32-36 | `Path::file_stem`: none for an empty name, `.` or `..`, otherwise the name before its last `.`, or the whole name when its only `.` leads or there is none; FileStemShape and FileStemOfDottedName state it |
| Paths.FileStemShape | backend/src/core/long_exposure_image_logic.rs:32-36 | a stem is a non-empty prefix of the file name, and a name without a dot is its own stem |
| Paths.FileStemOfDottedName | backend/src/core/long_exposure_image_logic.rs:32-36 | the stem of `<stem>.<ext>` is the stem, when neither part contains a dot and the stem is not empty |
| ProjectsService.FirstLongExposureImageFrom | backend/src/services/projects_service.rs:57-66 | the first entry from a position that is a file named `long_exposure_image_*.png`, and `None` exactly when there is none |
| ProjectsService.LongExposureImageIn | backend/src/services/projects_service.rs:55-68 | the path of the first long-exposure image of a readable directory; FindLongExposureImage is proved to compute it |
| ProjectsService.FindLongExposureImage | backend/src/services/projects_service.rs:55-68 | the loop finds the first such image of a readable directory, and `None` when the directory is unreadable or has none |
| ProjectsService.ThumbnailFor | backend/src/services/projects_service.rs:47-53 | the thumbnail find_thumbnail picks; ThumbnailForChoice states both cases |
| ProjectsService.ThumbnailForChoice | backend/src/services/projects_service.rs:47-53 | the thumbnail is `frames/ffout_thumbnail_0001.webp` below the project exactly when no long-exposure image is found, and otherwise the first image found |
| ProjectsService.FindThumbnail | backend/src/services/projects_service.rs:47-53 | find_thumbnail always yields a path, the one ThumbnailForChoice describes |
| ProjectsService.ProjectOf | backend/src/services/projects_service.rs:30-45 | a project is listed exactly when its thumbnail exists and its metadata is readable; its id is the directory name, its name is the metadata's, and its thumbnail is the served thumbnail path |
| ProjectsService.ProcessProjectDir | backend/src/services/projects_service.rs:30-45 | the method computes ProjectOf |
| ProjectsService.ProcessorFor | backend/src/services/projects_service.rs:21 | the processing each directory entry gets: ProjectOf below the output directory |
| ProjectsService.ProjectsIn | backend/src/services/projects_service.rs:18-25 | no more projects than entries |
| ProjectsService.ProjectsInStep | backend/src/services/projects_service.rs:18-25 | one more entry appends that entry's project, if any |
| ProjectsService.ProjectsInSound | backend/src/services/projects_service.rs:18-25 | every listed project comes from a directory entry |
| ProjectsService.ProjectsInComplete | backend/src/services/projects_service.rs:18-25 | every directory entry that yields a project is listed |
| ProjectsService.ProjectsInPrefix | backend/src/services/projects_service.rs:18-25 | the listing of fewer entries is a prefix: projects appear in directory order |
| ProjectsService.ListedThumbnailsAreServed | backend/src/services/projects_service.rs:30-45 | every listed project is named after a directory entry, and its thumbnail is that project's thumbnail served below the domain |
| ProjectsService.CollectProjects | backend/src/services/projects_service.rs:15-25 | the loop collects exactly ProjectsIn of the listing |
| ProjectsService.FetchProjects | backend/src/services/projects_service.rs:13-28 | an unreadable output directory or a failing stream is an error; otherwise the projects of every directory entry, in order |
| ProjectsService.FirstWithPrefixFrom | backend/src/services/projects_service.rs:79-92 | the first upload name from a position that starts with the id, and `None` exactly when there is none |
| ProjectsService.FirstWithPrefix | backend/src/services/projects_service.rs:79-92 | the first upload whose name starts with the id, the one DeleteProjectById removes |
| ProjectsService.DeleteProjectById | backend/src/services/projects_service.rs:70-105 | the first upload starting with the id is removed, then the project directory if it exists; failures to list or remove are errors; with neither an upload nor the directory, the result is NotFound |
| ProjectsService.UploadFileName | backend/src/services/projects_service.rs:154-158 | `<id>.<ext>`, the name an upload is stored under |
| ProjectsService.UploadMatchesOwnId | backend/src/services/projects_service.rs:84 | among ids of one length, the prefix test matches exactly the project's own upload |
| ProjectsService.ShorterIdMatchesOtherUpload | backend/src/services/projects_service.rs:84 | an id that is a prefix of another id matches the other project's upload too |
| ProjectsService.ProcessUpload | backend/src/services/projects_service.rs:108-245 | an unreadable existing project fails; no extension and no id fail; equal fps and scale skip processing; otherwise the video is saved as `<upload dir>/<id>.<ext>`, ffmpeg writes into `<output dir>/<id>/frames/`, and the new metadata is computed |
| Api.SpecificProject | frontend/src/api.ts:104 | `endpoints.specificProject`; SpecificProjectShape and SpecificProjectInjective state it |
| Api.SpecificProjectShape | frontend/src/api.ts:104 | `/projects/` followed by the id |
| Api.SpecificProjectInjective | frontend/src/api.ts:104 | distinct ids give distinct project endpoints |
| Api.CreateLongExposureImage | frontend/src/api.ts:105 | `endpoints.createLongExposureImage`; CreateLongExposureImageShape states it |
| Api.CreateLongExposureImageShape | frontend/src/api.ts:105 | the project endpoint followed by `/createLongExposureImage` |
| Api.ThumbnailPrefix | frontend/src/api.ts:107 | the text before the padded number, `/outputs/<id>/frames/ffout_thumbnail_` |
| Api.FrameThumbnail | frontend/src/api.ts:106-107 | `endpoints.frameThumbnail`; FrameThumbnailShape, ParseFrameThumbnailRoundTrip and FrameThumbnailInjective state it |
| Api.FrameThumbnailShape | frontend/src/api.ts:106-107 | `/outputs/<id>/frames/ffout_thumbnail_`, the padded number, `.webp`; the length is determined below 10000 |
| Api.ParseFrameThumbnail | frontend/src/api.ts:106-107 | reads the frame number back from a project's thumbnail endpoint |
| Api.ParseFrameThumbnailRoundTrip | frontend/src/api.ts:106-107 | parsing a project's thumbnail endpoint gives the frame number back |
| Api.FrameThumbnailInjective | frontend/src/api.ts:106-107 | distinct frame numbers of one project have distinct thumbnail endpoints |
| Api.VideoFile | frontend/src/api.ts:108-109 | `endpoints.videoFile`; VideoFileShape states it |
| Api.VideoFileShape | frontend/src/api.ts:108-109 | `/uploads/<id>.<ext>` |
| Api.IsSuccessfulStatus | frontend/src/api.ts:71-73 | success exactly for the 2xx statuses, 200 to 299 |
| Api.GetBackendUrlByEndpoint | frontend/src/api.ts:113 | `` `${BACKEND_URL}${endpoint}` ``; GetBackendUrlShape states it |
| Api.GetBackendUrlShape | frontend/src/api.ts:113 | the backend URL (`undefined` when `VITE_BACKEND_URL` is not set) followed by the endpoint, and nothing else |
| FrameNames.FrameFileName | backend/src/services/projects_service.rs:179-183 | the name ffmpeg gives frame `n` for `ffout_%4d.png`; FrameNumberOfFrameFile reads it back |
| FrameNames.PaddedDigits | backend/src/services/projects_service.rs:179-183 | a zero-padded number is all digits |
| FrameNames.FrameNumberOfFrameFile | backend/src/services/projects_service.rs:179-183 | the compositor reads frame `n` back from ffmpeg's name `ffout_<n padded to 4>.png` |
| FrameNames.ThumbnailStem | backend/src/services/projects_service.rs:184-188 | the stem of thumbnail `n` is `ffout_thumbnail_<n padded to 4>` |
| FrameNames.ThumbnailNumberText | backend/src/services/projects_service.rs:184-188 | the text the compositor cuts from a thumbnail name is `thumbnail_` followed by the padded number |
| FrameNames.FrameNumberOfThumbnailFile | backend/src/core/long_exposure_image_logic.rs:39-48 | a thumbnail's name does not parse as a frame number |
| FrameNames.ThumbnailInListingStopsComposite | backend/src/services/projects_service.rs:184-188 | a frames directory that contains a thumbnail makes the compositor fail with the frame-number panic |
| Conventions.UploadPatternsShareFramesDir | backend/src/services/projects_service.rs:168-188 | both ffmpeg output patterns are below the project's frames directory |
| Conventions.OutputFileIsLongExposureImage | backend/src/services/projects_service.rs:61 | every file name the compositor writes passes find_long_exposure_image's name test |
| Conventions.ThumbnailRelativeHasNoBackslash | backend/src/services/projects_service.rs:184-188 | thumbnail paths below the media directory contain no backslash |
| Conventions.ThumbnailRelativeIsFrameThumbnail | frontend/src/api.ts:106-107 | the thumbnail's path below the media directory is the frontend's thumbnail endpoint |
| Conventions.FrameThumbnailIsServedThumbnail | frontend/src/api.ts:106-107 | the URL the backend serves for thumbnail `n` of a project is the domain followed by the frontend's frameThumbnail endpoint |
| Conventions.FallbackNamesFirstThumbnail | backend/src/services/projects_service.rs:51 | the fallback thumbnail name is ffmpeg's thumbnail number 1 |
| Conventions.FallbackIsFirstThumbnail | backend/src/services/projects_service.rs:51 | for a non-empty id without `/`, the fallback path is where ffmpeg writes the project's first thumbnail |
| Conventions.UploadRelativeIsVideoFile | frontend/src/api.ts:108-109 | an upload's path below the media directory is the frontend's videoFile endpoint |
| Conventions.VideoFileIsServedUpload | frontend/src/api.ts:108-109 | the URL served for a stored upload is the domain followed by the frontend's videoFile endpoint |

## Left out

- HTTP routing, multipart parsing (`read_text_from_field`), and the frontend's `apiCall`, `uploadFile` (XHR, progress) and the `api` object: these are I/O. Only `isSuccessfulStatus` is modelled.
- File-system effects are not performed. A `FileSystem` value stands for the disk, and each method returns what it would write or remove. The frames directory's removal and re-creation (projects_service.rs:171-176) and the video write (160-165) are plans in `UploadPlan`, and their I/O failures are not modelled.
- `create_directory_if_not_created_yet` and `save_metadata` (utils.rs:42-59, 78-94) are pure I/O. `read_metadata_from_project` is not part of this model, so a `metadata` map stands for the projects whose metadata can be read.
- Image decoding, encoding and saving are out of scope. A `decoded` map holds the frames that decode, so save errors (long_exposure_image_logic.rs:105-107, image_magic.rs:36) are not modelled.
- `rayon`'s `par_iter` and `par_bridge` are modelled as sequential maps. `par_iter().filter_map(..).collect()` keeps the input order, which `Decoded` keeps too (DecodedAppend), so frame 0 is the first path that decodes. `par_bridge` only changes the order in which pixels are written, and each pixel is computed independently.
- Running ffmpeg is out of scope. The model assumes that `%4d` names frames with four zero-padded digits starting at 1.
- Environment variables (`MOVIE_UPLOAD_DIR`, `LONG_EXPOSURE_IMG_OUTPUT_DIR`, `DOMAIN`), the clock (`Utc::now`) and `Uuid::new_v4` are parameters.
- `fs::canonicalize` is a parameter, and so is the whole serving conversion in the service (`serve`). `ServeFor` connects the two.
- LongExposure.CreateLongExposureImage: returns the saved path, not its serving URL (long_exposure_image_logic.rs:108-110). The source calls the async `convert_image_path_to_serving_url` there without awaiting it, so as written that line does not produce a `String`.
- LongExposure.ValidDateTime: only years 0 to 9999, where `%Y` has four digits.
- Paths and file names are Unicode text. Non-UTF-8 names (`to_string_lossy`, `to_str()?`) are not modelled.
- ProjectsService.ProcessProjectDir: `path.file_name()?` is taken to be the entry's name, because an entry name is never empty or `..`.
- The legacy `read_dir` skips entries that fail to read (image_magic.rs:8), and the backend's entry loop stops silently at the first failing `next_entry` (long_exposure_image_logic.rs:29). Each listing given to them holds just the entries they go on to see.
- Api.FrameThumbnailShape: `toString()` is modelled for natural numbers only, not for negative, fractional or very large numbers.
- `UploadVideoResponse.video_id`, and the string id passed to `save_metadata` where a path is expected, follow the code as written: the metadata is modelled as saved for that id.

Consequences the proofs bring out:

- FrameNames.ThumbnailInListingStopsComposite: ffmpeg writes the thumbnails into the same frames directory as the frames. The compositor's frame-number parse then panics on the first thumbnail it meets.
- ProjectsService.ShorterIdMatchesOtherUpload: deleting a project whose id is a prefix of another project's id can remove the other project's upload. UUIDs all have one length, so UploadMatchesOwnId shows that this cannot happen with generated ids.
