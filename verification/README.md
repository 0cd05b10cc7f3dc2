# Tubely upload handlers in Dafny

Tubely is a video-hosting back end written in Go. This project models its two
upload handlers:

- `handlerUploadVideo` stores an MP4 in S3 and records its CloudFront URL
  against the video.
- `handlerUploadThumbnail` stores an image in the local assets directory and
  in an in-memory map, then records its URL against the video.

The logic inside the handlers is modelled as written, with the differences
listed under Left out:

- the orientation classifier that picks the S3 key prefix from ffprobe's
  stream list (`getVideoAspectRationPrefix`);
- the fast-start output path (`processVideoForFastStart`);
- the key, file-name, extension and URL builders, including an unpadded
  base 64 encoder for the alphabets of sections 4 and 5 of RFC 4648, with
  padding omitted as section 3.2 permits;
- the order of the steps in each handler.

Each handler is a pure function. Its input is the outcome of every
collaborator call: uuid parsing, the auth package, the database, multipart
parsing, MIME parsing, temp files, ffprobe, ffmpeg, S3 and the file system.
Its output is the HTTP status or statuses written and the side effects
attempted, in order: S3 PutObject, writes to the thumbnail map, file writes,
and UpdateVideo.

Modules:

- `Wrappers` (`wrappers.dfy`): Option.
- `Base64` (`base64.dfy`): encoder and its inverse.
- `Strings` (`strings.dfy`): Go's `strings.Split` and `strings.ReplaceAll` for a one-character separator.
- `Media` (`media.dfy`): streams, classifier, fast-start path.
- `Keys` (`keys.dfy`): storage keys, file names, URLs.
- `Api` (`api.dfy`): statuses, records, effects.
- `VideoHandler` (`upload_video.dfy`).
- `ThumbnailHandler` (`upload_thumbnail.dfy`).

In four places the code departs from what one might expect, and the model
follows the code:

- A part whose media type is not `video/mp4` is answered 400, not 415.
- The ownership check of the thumbnail handler does not stop the handler
  (see Findings).
- The 1 GiB upload limit is not enforced. The reader that
  `http.MaxBytesReader` returns is discarded, so the request body is never
  wrapped.
- The ffmpeg output file (`<temp>.processing`) is never removed. Only the
  first temp file has a deferred `os.Remove`.

## Model

| member | source | states |
|---|---|---|
| Media.OrientationOf | handler_upload_video.go:192-199 | The label is one of landscape/portrait/other. It is landscape exactly when the ratio is "16:9", portrait exactly when it is "9:16", and other for every other ratio, including "". |
| Media.ClassifyStreams | handler_upload_video.go:189-203 | No error exactly when some stream has codec type "video". Then the prefix is the label of the first such stream's ratio. With no video stream the result is ("other", no-video-stream error). |
| Media.FindAspectRatioPrefix | handler_upload_video.go:189-203 | The `for range` loop itself, with early returns. It has the same contract as ClassifyStreams, proved with loop invariants. |
| Media.AspectRatioPrefix | handler_upload_video.go:153-204 | Succeeds exactly when ffprobe ran, its output decoded, and a video stream was present. On success the prefix is one of the three labels, and it is the label of the first video stream. A failed run gives ("", run error). Undecodable output gives ("", decode error). No video stream gives ("other", no-video-stream error). |
| Media.LaterStreamsIgnored | handler_upload_video.go:190-199 | Once a video stream is present, appending any streams after it never changes the result. |
| Media.NonVideoStreamsSkipped | handler_upload_video.go:190-191 | Non-video streams in front of a list never change the result. |
| Media.FirstVideoExists | handler_upload_video.go:190-191 | If any stream is a video stream, there is a first one. |
| Media.ProcessForFastStart | handler_upload_video.go:206-216 | Yields a path exactly when ffmpeg succeeds. That path is the input path followed by ".processing". |
| Media.FastStartOutputIsNewFile | handler_upload_video.go:207 | The output path never equals the input path. Removing the suffix gives the input back. |
| Base64.DigitValue | handler_upload_video.go:122 | A character has a value exactly when it is in the alphabet of the RFC 4648 table. Encoding that value gives the character back. |
| Base64.Encode | handler_upload_video.go:122 | The length is Go's unpadded `EncodedLen`. Every character is in the chosen alphabet. |
| Base64.DecodeEncode | handler_upload_video.go:122 | Decoding the encoding of any byte sequence gives that sequence back, for both alphabets. |
| Base64.EncodeDecode | handler_upload_video.go:122 | Every string that decodes is the encoding of what it decodes to, so the encoding is a bijection onto canonical strings. |
| Base64.UrlSafeHasNoSlash | handler_upload_video.go:122 | The URL-safe encoding never contains '/'. |
| Base64.RfcVectors | handler_upload_thumbnail.go:88 | The encoder reproduces the test vectors of section 10 of RFC 4648 ("" to "foobar" give "" to "Zm9vYmFy"), without the padding the raw encoding omits. |
| Base64.AlphabetVectors | handler_upload_video.go:122 | The bytes 0xfb 0xff encode to "+/8" in the standard alphabet and to "-_8" in the URL-safe one, so the two alphabets differ exactly in the characters for 62 and 63. |
| Keys.RandomNameLength | handler_upload_video.go:120-122 | 32 random bytes encode to exactly 43 characters in both alphabets. |
| Keys.VideoKey | handler_upload_video.go:120-122 | The key is the prefix, '/', 43 URL-safe characters, then ".mp4" (length of the prefix plus 48). For a prefix without '/', the separator is the only '/' in the key. |
| Keys.VideoKeyRoundTrip | handler_upload_video.go:120-122 | Splitting the key at '/' and decoding the name gives back exactly the prefix and the 32 random bytes. |
| Keys.VideoKeyInjective | handler_upload_video.go:120-122 | Keys built from different prefixes or different random bytes are different. |
| Keys.VideoKeySegments | handler_upload_video.go:122 | For a prefix without '/', the key splits at '/' into exactly the prefix and the file name. |
| Keys.VideoUrl | handler_upload_video.go:139 | The URL is "https://", the distribution, one '/', then the key, at those exact positions (length 9 + both lengths). |
| Keys.VideoUrlSegments | handler_upload_video.go:139 | For a distribution without '/', the URL splits into "https:", "", the distribution, then exactly the pieces of the key. |
| Keys.VideoUrlOfKeySegments | handler_upload_video.go:120-139 | For a distribution and prefix without '/', the stored URL splits into "https:", "", the distribution, the orientation prefix and the 43-character name + ".mp4". |
| Strings.Split | handler_upload_thumbnail.go:91 | At least one piece. No piece contains the separator. Joining the pieces with the separator gives the input back. |
| Strings.SplitJoin | handler_upload_thumbnail.go:91 | Splitting a join of separator-free pieces gives the pieces back. |
| Strings.SplitWhole | handler_upload_thumbnail.go:91 | A string without the separator splits into itself alone. |
| Strings.SplitAfterPiece | handler_upload_thumbnail.go:91 | A separator-free piece followed by the separator becomes the first piece of the split. |
| Strings.SplitAtSeparator | handler_upload_thumbnail.go:91 | Splitting `a` + separator + `b` gives the pieces of `a` followed by the pieces of `b`. |
| Strings.SplitAfterThree | handler_upload_thumbnail.go:91 | Three separator-free pieces, each followed by the separator, are the first three pieces of the split, followed by the pieces of the rest. |
| Strings.RemoveAll | handler_upload_thumbnail.go:89 | The character is gone from the result, and the result is no longer than the input. |
| Strings.RemoveAllCounts | handler_upload_thumbnail.go:89 | The length drops by exactly the number of occurrences of the character. Every other character keeps its count. |
| Strings.RemoveAllSingle | handler_upload_thumbnail.go:89 | A one-character string is emptied when it is the removed character and kept otherwise. |
| Strings.RemoveAllAppend | handler_upload_thumbnail.go:89 | Removal from a concatenation is the concatenation of the removals. The survivors keep their order, so with RemoveAllSingle the result is fixed character by character. |
| Strings.RemoveAllSplit | handler_upload_thumbnail.go:89 | For any cut point, removal from the whole equals removal from the left part followed by removal from the right part. |
| Strings.RemoveAllSubset | handler_upload_thumbnail.go:89 | Every character of the result occurs in the input. |
| Strings.RemoveAbsent | handler_upload_thumbnail.go:89 | Removing a character that does not occur leaves the string unchanged. |
| Keys.ThumbnailFileName | handler_upload_thumbnail.go:86-89 | No '/'. At most 43 characters, all from the standard alphabet. Apart from '/', each character occurs as often as in the standard encoding of the random bytes. The surviving characters keep their order: for any cut of the encoding, the name is the removal from the left part followed by the removal from the right part. An encoding without '/' is the name unchanged. |
| Keys.FileExtension | handler_upload_thumbnail.go:91 | Defined exactly when the media type contains '/' (otherwise Go panics). The extension has no '/'. |
| Keys.ExtensionIsSubtype | handler_upload_thumbnail.go:91 | For "type/subtype" the extension is the subtype. |
| ThumbnailHandler.ImageExtension | handler_upload_thumbnail.go:91 | For an accepted media type the extension exists and is "jpeg" or "png". |
| Keys.AssetPath | handler_upload_thumbnail.go:92 | With an empty root the path is the file name. Otherwise it is the root, one '/', then the file name, at those exact positions. |
| Keys.AssetPathLastSegment | handler_upload_thumbnail.go:92 | For a file name without '/', the last '/'-separated piece of the path is the file name, whatever the root. |
| Keys.ThumbnailUrl | handler_upload_thumbnail.go:98 | The URL is "http://localhost:", the port, "/assets/", then the name, '.' and the extension, at those exact positions. |
| Keys.ThumbnailUrlPieces | handler_upload_thumbnail.go:98 | The URL regrouped around its slashes: "http:", "", "localhost:" + port, "assets" and the file, with '/' between. |
| Keys.ThumbnailUrlSegments | handler_upload_thumbnail.go:98 | The URL's '/'-separated pieces are "http:", "", "localhost:<port>", "assets", then the file name and extension. The file is one path segment under /assets/. |
| VideoHandler.UploadVideo | handler_upload_video.go:23-151 | Only 200, 400, 401 and 500 are answered. The answer is 200 exactly when every check passes and every collaborator succeeds, including ffprobe finding a video stream. PutObject is attempted exactly when every step before it passed. It targets the configured bucket and the key built from the first video stream's orientation and the random bytes, with the ffmpeg output as body and type video/mp4. A failed PutObject answers 500 with the upload as the only effect. UpdateVideo follows exactly when PutObject succeeded, and changes only the video URL, which points at the key just uploaded. A failed UpdateVideo answers 500. |
| VideoHandler.VideoLateFailures | handler_upload_video.go:119-150 | Once the file is prepared, the three possible responses are pinned exactly: a failed PutObject gives (500, [put]); a failed UpdateVideo gives (500, [put, update]), the object being already in S3; otherwise (200, [put, update]). |
| VideoHandler.VideoEarlyFailuresStop | handler_upload_video.go:29-117 | Bad ID gives 400. Missing token or bad JWT gives 401. GetVideo error gives 500. Owner mismatch gives 401. Missing form file, unparsable media type or a type other than video/mp4 gives 400. A staging, ffprobe or ffmpeg failure gives 500. In every case there is no PutObject and no UpdateVideo. |
| VideoHandler.NoVideoStreamStops | handler_upload_video.go:94-98 | A probe with no video stream gives 500, and nothing is uploaded or recorded. |
| VideoHandler.VideoUrlCarriesOrientation | handler_upload_video.go:120-140 | On success the URL is "https://" + distribution + "/" + the first video stream's orientation + "/" + the 43-character name + ".mp4". Its key parses back to that orientation and those random bytes. |
| ThumbnailHandler.ThumbnailEarlyFailuresStop | handler_upload_thumbnail.go:20-75 | Bad ID gives 400. Missing token or bad JWT gives 401. Form parse, form file, media-type parse or body read failure gives 422. GetVideo error gives 500. Each writes a single status, attempts nothing, and leaves the thumbnail map unchanged. |
| ThumbnailHandler.OnlyJpegAndPngAccepted | handler_upload_thumbnail.go:59-62 | Any parsed media type other than image/jpeg or image/png gives exactly 415 and nothing else. No effect ever happens for another type. |
| ThumbnailHandler.UploadThumbnail | handler_upload_thumbnail.go:19-107 | As written. An early failure writes its one status, has no effects and leaves the map unchanged. Past the early checks the statuses are a 401 on an ownership mismatch, then one final status: 200 exactly when the file write and UpdateVideo succeed, 500 otherwise. For the owner that final status is the only one. The client sees 200 exactly when every check passes and every collaborator succeeds. Past the early checks the map and the file are always written, and UpdateVideo follows exactly when the write succeeded. The map changes only at this video's entry, which holds the raw Content-Type and the body. The file written holds the body at assets-root/name.ext. UpdateVideo changes only the thumbnail URL, which names that file. |
| ThumbnailHandler.ThumbnailLateOutcomes | handler_upload_thumbnail.go:80-107 | Past the early checks the three responses are pinned exactly: a failed write gives 500 with [map write, file write]; a failed UpdateVideo gives 500 with [map write, file write, update]; otherwise 200 with all three. Each follows the ownership 401 when there was one, and the map holds the new entry in every case. |
| ThumbnailHandler.AfterOwnerCheck | handler_upload_thumbnail.go:80-104 | From the map write on: exactly one more status, 200 only when the write and the update succeed. The map gains this video's entry. The effects are the map write and the file write, plus UpdateVideo exactly when the write succeeded. |
| ThumbnailHandler.SideTableWrittenBeforeFile | handler_upload_thumbnail.go:80-97 | When the file write fails, the last status is 500. The map already holds the new entry. The record is not updated. |
| ThumbnailHandler.OwnerMismatchFallsThrough | handler_upload_thumbnail.go:76-78 | As written, a caller who does not own the video sees 401. The map is still updated and the file still written. When the later steps succeed, 200 is also written, and the other user's record gets the new thumbnail URL. |
| ThumbnailHandler.UploadThumbnailOwnerChecked | handler_upload_thumbnail.go:76-78 | Corrected: the handler with the missing `return` added. Exactly one status is written, and it is 200 exactly when every step succeeds. For the owner past the early checks, the status is 200 or 500 as the write and UpdateVideo succeed or fail, the map and file are written, and UpdateVideo follows exactly a successful write. Any effect implies the caller owns the video. With no effect the map is unchanged. A mismatch gives just 401, with no effects and an unchanged map. |
| ThumbnailHandler.OwnerCheckedAgreesOtherwise | handler_upload_thumbnail.go:76-78 | The corrected handler behaves identically to the one as written whenever the caller owns the video or an earlier step fails. |

## Left out

- The ffprobe and ffmpeg subprocesses and the JSON decoding of ffprobe's output are external tools. They are inputs: a stream list, a run failure or a decode failure for ffprobe, and success or failure for ffmpeg. The `width` and `height` fields are carried but unused, as in the code.
- S3 `PutObject`, `os.CreateTemp`, `io.Copy`, `Seek`, `os.Open`, `io.ReadAll`, `os.WriteFile` and the database calls are I/O. Each is only a succeed/fail input, plus its return value where the handler uses it.
- The deferred `Close` and `os.Remove` calls are not modelled. They affect only local files, and no response or record depends on them.
- `auth.GetBearerToken`, `auth.ValidateJWT`, `uuid.Parse`, `mime.ParseMediaType`, `r.ParseMultipartForm` and `r.FormFile` are library or auth-package calls. Their outcomes are inputs. A UUID is abstracted to a natural number.
- `crypto/rand` is replaced by a 32-byte parameter, and its ignored error is not modelled. Key uniqueness is probabilistic and is not claimed. VideoKeyInjective shows only that different bytes give different keys.
- The 1 GiB limit is not modelled. The code discards the limited reader, so the limit has no effect on any run.
- The `videoThumbnails` map is process-wide and is accessed without locking. Here it is a map passed in and returned, and concurrent requests are not modelled.
- Response bodies, JSON serialisation, error messages and logging are left out. The model keeps the status codes only.
- The record has only the fields the handlers touch. Every other field is carried unchanged by the `.(field := ...)` update.
- Keys.AssetPath: `filepath.Join` also cleans the path (it collapses repeated separators and resolves `.` and `..`). The model joins with one '/' and does not clean.
- Base64.Decode and Keys.ParseVideoKey are not called by the source, which never decodes a name or parses a key. They are there only as the inverses that the round-trip properties (DecodeEncode, EncodeDecode, VideoKeyRoundTrip) are stated against, and they promise nothing about the source on their own.

## Findings

| source | as written | input that shows it | evidently intended | confidence | as-written member | corrected member |
|---|---|---|---|---|---|---|
| handler_upload_thumbnail.go:76-78 | On an owner mismatch the handler writes 401 but does not `return`. It still stores the thumbnail in the map, writes the file, and updates the other user's record. | A valid token for user A, a video owned by user B, a valid PNG, and every later step succeeding. The client sees 401, yet B's record now carries A's thumbnail URL. | Return right after the 401, with no side effects. | high (not executed) | ThumbnailHandler.OwnerMismatchFallsThrough | ThumbnailHandler.UploadThumbnailOwnerChecked |
