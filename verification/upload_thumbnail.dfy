/**
  `handlerUploadThumbnail`, the upload of a thumbnail image. As for the
  video handler, collaborators are represented by their outcomes. The run
  also reads and writes the process-wide `videoThumbnails` map, which is
  passed in and returned.

  The handler's ownership check writes a 401 but has no `return`, so the run
  goes on: several responses can be written, and Go's `net/http` keeps the
  status of the first one (later `WriteHeader` calls are ignored).
  `UploadThumbnail` models the code as written; `UploadThumbnailOwnerChecked`
  is the same handler with the missing `return`.
 */
module ThumbnailHandler {
  import opened Wrappers
  import opened Base64
  import opened Keys
  import opened Api

  /** The outcome of each step, in the order the handler reaches them. */
  datatype ThumbnailUploadSteps = ThumbnailUploadSteps(
    idParsed: bool, videoId: Uuid,            // uuid.Parse of the path value
    tokenFound: bool,                         // auth.GetBearerToken
    jwtValid: bool, userId: Uuid,             // auth.ValidateJWT
    formParsed: bool,                         // r.ParseMultipartForm(10 << 20)
    formFileFound: bool,                      // r.FormFile("thumbnail")
    contentType: string,                      // the part's raw Content-Type header
    mediaTypeParsed: bool, mediaType: string, // mime.ParseMediaType(contentType)
    bodyRead: bool, body: seq<byte>,          // io.ReadAll of the part
    videoFetched: bool, stored: Video,        // db.GetVideo
    randBytes: seq<byte>,                     // the 32 bytes from crypto/rand
    fileWritten: bool,                        // os.WriteFile
    updateSucceeded: bool                     // db.UpdateVideo
  )

  /**
    The statuses written, in order (the client sees the first), the effects
    attempted, and the `videoThumbnails` map afterwards.
   */
  datatype Response = Response(statuses: seq<Status>, effects: seq<Effect>, thumbnails: map<Uuid, Thumbnail>)

  predicate IsAcceptedImageType(mediaType: string) {
    mediaType == "image/jpeg" || mediaType == "image/png"
  }

  /** The extension of an accepted image type: the part after the '/'. */
  function ImageExtension(mediaType: string): (ext: string)
    requires IsAcceptedImageType(mediaType)
    ensures FileExtension(mediaType) == Some(ext)
    ensures ext == "jpeg" || ext == "png"
  {
    if mediaType == "image/jpeg" then
      assert mediaType == "image" + "/" + "jpeg";
      ExtensionIsSubtype("image", "jpeg");
      FileExtension(mediaType).value
    else
      assert mediaType == "image" + "/" + "png";
      ExtensionIsSubtype("image", "png");
      FileExtension(mediaType).value
  }

  /** The status of the first failing step before the ownership check, if any. */
  function EarlyFailure(s: ThumbnailUploadSteps): Option<Status> {
    if !s.idParsed then Some(StatusBadRequest)
    else if !s.tokenFound then Some(StatusUnauthorized)
    else if !s.jwtValid then Some(StatusUnauthorized)
    else if !s.formParsed then Some(StatusUnprocessableEntity)
    else if !s.formFileFound then Some(StatusUnprocessableEntity)
    else if !s.mediaTypeParsed then Some(StatusUnprocessableEntity)
    else if !IsAcceptedImageType(s.mediaType) then Some(StatusUnsupportedMediaType)
    else if !s.bodyRead then Some(StatusUnprocessableEntity)
    else if !s.videoFetched then Some(StatusInternalServerError)
    else None
  }

  /**
    Everything from the side-table write on, after `written` (the statuses
    already written by the ownership check).
   */
  function AfterOwnerCheck(cfg: Config, s: ThumbnailUploadSteps, thumbnails: map<Uuid, Thumbnail>,
                           written: seq<Status>): (r: Response)
    requires EarlyFailure(s).None?
    requires |s.randBytes| == RandomByteCount
    ensures r.statuses == written + [if s.fileWritten && s.updateSucceeded then StatusOK else StatusInternalServerError]
    ensures r.thumbnails == thumbnails[s.videoId := Thumbnail(s.contentType, s.body)]
    ensures 2 <= |r.effects| <= 3 && (|r.effects| == 3 <==> s.fileWritten)
    ensures r.effects[0] == StoreThumbnail(s.videoId, Thumbnail(s.contentType, s.body))
    ensures var name, ext := ThumbnailFileName(s.randBytes), ImageExtension(s.mediaType);
            && r.effects[1] == WriteFile(AssetPath(cfg.assetsRoot, name + "." + ext), s.body)
            && (|r.effects| == 3 ==>
                  r.effects[2] == UpdateVideo(s.stored.(thumbnailUrl := Some(ThumbnailUrl(cfg.port, name, ext)))))
  {
    var thumbnail := Thumbnail(s.contentType, s.body);
    var table := thumbnails[s.videoId := thumbnail];
    var store := StoreThumbnail(s.videoId, thumbnail);
    var name := ThumbnailFileName(s.randBytes);
    var ext := ImageExtension(s.mediaType);
    var write := WriteFile(AssetPath(cfg.assetsRoot, name + "." + ext), s.body);
    if !s.fileWritten then Response(written + [StatusInternalServerError], [store, write], table)
    else
      var update := UpdateVideo(s.stored.(thumbnailUrl := Some(ThumbnailUrl(cfg.port, name, ext))));
      if !s.updateSucceeded then Response(written + [StatusInternalServerError], [store, write, update], table)
      else Response(written + [StatusOK], [store, write, update], table)
  }

  /**
    The handler as written: an ownership mismatch writes 401 and carries on.
    The client sees 200 exactly when every check passes and every
    collaborator succeeds. An early failure writes its one status and does
    nothing else; past the early checks the side table and the file are
    always written, the record update follows exactly when the file write
    succeeded, and the last status is 500 when either fails. The effects
    are a prefix of side-table write, file write, record update; the side table changes at most at this video's
    entry, which then holds the raw Content-Type and the body; the record is
    updated only after the file write succeeded, and only its thumbnail URL
    changes, to the URL of the file just written.
   */
  function UploadThumbnail(cfg: Config, s: ThumbnailUploadSteps, thumbnails: map<Uuid, Thumbnail>): (r: Response)
    requires |s.randBytes| == RandomByteCount
    ensures |r.statuses| >= 1
    ensures r.statuses[0] == StatusOK <==> PipelineSucceeds(s)
    ensures EarlyFailure(s).Some? ==> r == Response([EarlyFailure(s).value], [], thumbnails)
    ensures EarlyFailure(s).None? ==>
              r.statuses == (if s.stored.userId != s.userId then [StatusUnauthorized] else [])
                            + [if s.fileWritten && s.updateSucceeded then StatusOK else StatusInternalServerError]
    ensures EarlyFailure(s).None? && s.stored.userId == s.userId ==>
              r.statuses == [if s.fileWritten && s.updateSucceeded then StatusOK else StatusInternalServerError]
    ensures EarlyFailure(s).None? ==> 2 <= |r.effects| && (|r.effects| == 3 <==> s.fileWritten)
    ensures r.effects != [] <==> EarlyFailure(s).None?
    ensures |r.effects| <= 3
    ensures r.effects == [] ==> r.thumbnails == thumbnails
    ensures r.effects != [] ==>
              && EarlyFailure(s).None?
              && r.effects[0] == StoreThumbnail(s.videoId, Thumbnail(s.contentType, s.body))
              && r.thumbnails == thumbnails[s.videoId := Thumbnail(s.contentType, s.body)]
    ensures |r.effects| >= 2 ==> r.effects[1].WriteFile? && r.effects[1].data == s.body
    ensures |r.effects| == 3 ==> s.fileWritten && r.effects[2].UpdateVideo?
    ensures |r.effects| == 3 ==>
              var name, ext := ThumbnailFileName(s.randBytes), ImageExtension(s.mediaType);
              && r.effects[1].path == AssetPath(cfg.assetsRoot, name + "." + ext)
              && r.effects[2].record == s.stored.(thumbnailUrl := Some(ThumbnailUrl(cfg.port, name, ext)))
  {
    match EarlyFailure(s)
    case Some(status) => Response([status], [], thumbnails)
    case None =>
      var written := if s.stored.userId != s.userId then [StatusUnauthorized] else [];
      AfterOwnerCheck(cfg, s, thumbnails, written)
  }

  /**
    The handler with a `return` after the ownership 401: a caller who does
    not own the video is answered 401 alone and changes nothing, so every
    effect is the owner's; 200 still means every step succeeded.
   */
  function UploadThumbnailOwnerChecked(cfg: Config, s: ThumbnailUploadSteps, thumbnails: map<Uuid, Thumbnail>): (r: Response)
    requires |s.randBytes| == RandomByteCount
    ensures |r.statuses| == 1
    ensures r.statuses[0] == StatusOK <==> PipelineSucceeds(s)
    ensures EarlyFailure(s).None? && s.stored.userId == s.userId ==>
              && r.statuses == [if s.fileWritten && s.updateSucceeded then StatusOK else StatusInternalServerError]
              && 2 <= |r.effects| && (|r.effects| == 3 <==> s.fileWritten)
    ensures r.effects != [] ==> s.videoFetched && s.stored.userId == s.userId
    ensures r.effects == [] ==> r.thumbnails == thumbnails
    ensures EarlyFailure(s).None? && s.stored.userId != s.userId ==> r == Response([StatusUnauthorized], [], thumbnails)
  {
    match EarlyFailure(s)
    case Some(status) => Response([status], [], thumbnails)
    case None =>
      if s.stored.userId != s.userId then Response([StatusUnauthorized], [], thumbnails)
      else AfterOwnerCheck(cfg, s, thumbnails, [])
  }

  /** The request names a video and carries a valid token. */
  predicate Authenticated(s: ThumbnailUploadSteps) {
    s.idParsed && s.tokenFound && s.jwtValid
  }

  /** ... and the form part was read and has a parsable media type. */
  predicate FormRead(s: ThumbnailUploadSteps) {
    Authenticated(s) && s.formParsed && s.formFileFound && s.mediaTypeParsed
  }

  /** Every check passes and every collaborator succeeds. */
  predicate PipelineSucceeds(s: ThumbnailUploadSteps) {
    && FormRead(s) && IsAcceptedImageType(s.mediaType) && s.bodyRead
    && s.videoFetched && s.stored.userId == s.userId
    && s.fileWritten && s.updateSucceeded
  }

  /** What the client sees: the first status written. */
  function SeenStatus(r: Response): Status
    requires |r.statuses| >= 1
  {
    r.statuses[0]
  }

  /** Failures before the ownership check answer with their status and change nothing. */
  lemma ThumbnailEarlyFailuresStop(cfg: Config, s: ThumbnailUploadSteps, thumbnails: map<Uuid, Thumbnail>)
    requires |s.randBytes| == RandomByteCount
    ensures !s.idParsed ==> UploadThumbnail(cfg, s, thumbnails) == Response([StatusBadRequest], [], thumbnails)
    ensures s.idParsed && (!s.tokenFound || !s.jwtValid)
            ==> UploadThumbnail(cfg, s, thumbnails) == Response([StatusUnauthorized], [], thumbnails)
    ensures Authenticated(s) && !(s.formParsed && s.formFileFound && s.mediaTypeParsed)
            ==> UploadThumbnail(cfg, s, thumbnails) == Response([StatusUnprocessableEntity], [], thumbnails)
    ensures FormRead(s) && IsAcceptedImageType(s.mediaType) && !s.bodyRead
            ==> UploadThumbnail(cfg, s, thumbnails) == Response([StatusUnprocessableEntity], [], thumbnails)
    ensures FormRead(s) && IsAcceptedImageType(s.mediaType) && s.bodyRead && !s.videoFetched
            ==> UploadThumbnail(cfg, s, thumbnails) == Response([StatusInternalServerError], [], thumbnails)
  {
  }

  /** Only image/jpeg and image/png get past the media-type check; any other type is 415 with no effect. */
  lemma OnlyJpegAndPngAccepted(cfg: Config, s: ThumbnailUploadSteps, thumbnails: map<Uuid, Thumbnail>)
    requires |s.randBytes| == RandomByteCount
    ensures FormRead(s) && !IsAcceptedImageType(s.mediaType)
            ==> UploadThumbnail(cfg, s, thumbnails) == Response([StatusUnsupportedMediaType], [], thumbnails)
    ensures UploadThumbnail(cfg, s, thumbnails).effects != [] ==> IsAcceptedImageType(s.mediaType)
  {
  }

  /**
    The runs that pass the early checks, response by response: the side
    table and the file are always written; a failed write answers 500; a
    failed UpdateVideo answers 500 after the file exists; otherwise 200.
    Each status follows the 401 of an ownership mismatch, if there was one.
   */
  lemma ThumbnailLateOutcomes(cfg: Config, s: ThumbnailUploadSteps, thumbnails: map<Uuid, Thumbnail>)
    requires |s.randBytes| == RandomByteCount
    requires EarlyFailure(s).None?
    ensures var thumbnail := Thumbnail(s.contentType, s.body);
            var name, ext := ThumbnailFileName(s.randBytes), ImageExtension(s.mediaType);
            var store := StoreThumbnail(s.videoId, thumbnail);
            var write := WriteFile(AssetPath(cfg.assetsRoot, name + "." + ext), s.body);
            var update := UpdateVideo(s.stored.(thumbnailUrl := Some(ThumbnailUrl(cfg.port, name, ext))));
            var written := if s.stored.userId != s.userId then [StatusUnauthorized] else [];
            var table := thumbnails[s.videoId := thumbnail];
            && (!s.fileWritten ==>
                  UploadThumbnail(cfg, s, thumbnails) == Response(written + [StatusInternalServerError], [store, write], table))
            && (s.fileWritten && !s.updateSucceeded ==>
                  UploadThumbnail(cfg, s, thumbnails) == Response(written + [StatusInternalServerError], [store, write, update], table))
            && (s.fileWritten && s.updateSucceeded ==>
                  UploadThumbnail(cfg, s, thumbnails) == Response(written + [StatusOK], [store, write, update], table))
  {
  }

  /**
    The side table is written before the file: when the write fails the
    client gets 500 (after any ownership 401), the map already holds the new
    entry, and the record is not updated.
   */
  lemma SideTableWrittenBeforeFile(cfg: Config, s: ThumbnailUploadSteps, thumbnails: map<Uuid, Thumbnail>)
    requires |s.randBytes| == RandomByteCount
    requires EarlyFailure(s).None? && !s.fileWritten
    ensures var r := UploadThumbnail(cfg, s, thumbnails);
            && r.statuses[|r.statuses| - 1] == StatusInternalServerError
            && s.videoId in r.thumbnails
            && r.thumbnails[s.videoId] == Thumbnail(s.contentType, s.body)
            && |r.effects| == 2 && r.effects[1].WriteFile?
  {
  }

  /**
    As written, a caller who does not own the video is answered 401, yet the
    side table, the assets directory and the video record are all still
    written: with every later step succeeding, the record persisted is the
    other user's video with a new thumbnail URL.
   */
  lemma OwnerMismatchFallsThrough(cfg: Config, s: ThumbnailUploadSteps, thumbnails: map<Uuid, Thumbnail>)
    requires |s.randBytes| == RandomByteCount
    requires EarlyFailure(s).None? && s.stored.userId != s.userId
    ensures var r := UploadThumbnail(cfg, s, thumbnails);
            && SeenStatus(r) == StatusUnauthorized
            && r.thumbnails == thumbnails[s.videoId := Thumbnail(s.contentType, s.body)]
            && |r.effects| >= 2
    ensures s.fileWritten && s.updateSucceeded ==>
              var r := UploadThumbnail(cfg, s, thumbnails);
              && r.statuses == [StatusUnauthorized, StatusOK]
              && |r.effects| == 3 && r.effects[2].UpdateVideo?
              && r.effects[2].record.userId != s.userId
  {
    assert UploadThumbnail(cfg, s, thumbnails) == AfterOwnerCheck(cfg, s, thumbnails, [StatusUnauthorized]);
  }

  /** The correction changes nothing for the owner, nor for any run that fails earlier. */
  lemma OwnerCheckedAgreesOtherwise(cfg: Config, s: ThumbnailUploadSteps, thumbnails: map<Uuid, Thumbnail>)
    requires |s.randBytes| == RandomByteCount
    requires EarlyFailure(s).Some? || s.stored.userId == s.userId
    ensures UploadThumbnailOwnerChecked(cfg, s, thumbnails) == UploadThumbnail(cfg, s, thumbnails)
  {
  }
}
