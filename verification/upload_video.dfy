/**
  `handlerUploadVideo`, the upload of a video file. Every collaborator
  the handler calls (uuid parsing, the auth package, the database, the
  multipart reader, MIME parsing, temp files, ffprobe, ffmpeg, S3) is
  represented by its outcome, so one run of the handler is a pure function
  from those outcomes to the response status and the side effects attempted.
 */
module VideoHandler {
  import opened Wrappers
  import opened Base64
  import opened Media
  import opened Keys
  import opened Api

  /**
    The outcome of each step, in the order the handler reaches them. A
    `bool` says whether the step returned a nil error; the value beside it
    is what the step returned and is only looked at once the step succeeded.
   */
  datatype VideoUploadSteps = VideoUploadSteps(
    idParsed: bool, videoId: Uuid,          // uuid.Parse of the path value
    tokenFound: bool,                       // auth.GetBearerToken
    jwtValid: bool, userId: Uuid,           // auth.ValidateJWT
    videoFetched: bool, stored: Video,      // db.GetVideo
    formFileFound: bool,                    // r.FormFile("video")
    mediaTypeParsed: bool, mediaType: string, // mime.ParseMediaType of the part's Content-Type
    tempCreated: bool, tempPath: string,    // os.CreateTemp
    bodyCopied: bool,                       // io.Copy into the temp file
    probe: ProbeOutcome,                    // ffprobe and the JSON decoding of its output
    seeked: bool,                           // Seek(0, io.SeekStart)
    ffmpegSucceeded: bool,                  // the ffmpeg fast-start run
    optimizedOpened: bool,                  // os.Open of the ffmpeg output
    randBytes: seq<byte>,                   // the 32 bytes from crypto/rand
    putSucceeded: bool,                     // s3Client.PutObject
    updateSucceeded: bool                   // db.UpdateVideo
  )

  /** The status written (every exit of this handler writes exactly one) and the effects attempted. */
  datatype Response = Response(status: Status, effects: seq<Effect>)

  const Mp4: string := "video/mp4"

  /**
    The handler, one branch per `if err != nil { respondWithError(...); return }`.
    It answers 200 exactly when every step succeeded. The upload is attempted
    exactly when the file was prepared, under the key built from the first
    video stream's orientation, with the ffmpeg output as body, declared
    video/mp4; the record update follows exactly when the upload succeeded,
    changing only the video URL, to name the key just uploaded. A failed
    upload or a failed update answers 500.
   */
  function UploadVideo(cfg: Config, s: VideoUploadSteps): (r: Response)
    requires |s.randBytes| == RandomByteCount
    ensures r.status in {StatusOK, StatusBadRequest, StatusUnauthorized, StatusInternalServerError}
    ensures r.status == StatusOK <==> PipelineSucceeds(s)
    ensures r.status == StatusOK ==> |r.effects| == 2
    ensures |r.effects| <= 2
    ensures r.effects != [] <==> Prepared(s)
    ensures r.effects != [] ==>
              r.effects[0] == PutObject(cfg.s3Bucket, VideoKey(AspectRatioPrefix(s.probe).prefix, s.randBytes),
                                        s.tempPath + FastStartSuffix, Mp4)
    ensures Prepared(s) && !s.putSucceeded ==> r.status == StatusInternalServerError && |r.effects| == 1
    ensures Prepared(s) && s.putSucceeded ==> |r.effects| == 2
    ensures Prepared(s) && s.putSucceeded && !s.updateSucceeded ==> r.status == StatusInternalServerError
    ensures |r.effects| == 2 ==> s.putSucceeded && r.effects[1].UpdateVideo?
    ensures |r.effects| == 2 ==>
              r.effects[1].record == s.stored.(videoUrl := Some(VideoUrl(cfg.s3CfDistribution, r.effects[0].key)))
  {
    if !s.idParsed then Response(StatusBadRequest, [])
    else if !s.tokenFound then Response(StatusUnauthorized, [])
    else if !s.jwtValid then Response(StatusUnauthorized, [])
    else if !s.videoFetched then Response(StatusInternalServerError, [])
    else if s.stored.userId != s.userId then Response(StatusUnauthorized, [])
    else if !s.formFileFound then Response(StatusBadRequest, [])
    else if !s.mediaTypeParsed then Response(StatusBadRequest, [])
    else if s.mediaType != Mp4 then Response(StatusBadRequest, [])
    else if !s.tempCreated then Response(StatusInternalServerError, [])
    else if !s.bodyCopied then Response(StatusInternalServerError, [])
    else
      var aspect := AspectRatioPrefix(s.probe);
      if aspect.err.Some? then Response(StatusInternalServerError, [])
      else if !s.seeked then Response(StatusInternalServerError, [])
      else
        match ProcessForFastStart(s.tempPath, s.ffmpegSucceeded)
        case None => Response(StatusInternalServerError, [])
        case Some(optimizedPath) =>
          if !s.optimizedOpened then Response(StatusInternalServerError, [])
          else
            var key := VideoKey(aspect.prefix, s.randBytes);
            var put := PutObject(cfg.s3Bucket, key, optimizedPath, Mp4);
            if !s.putSucceeded then Response(StatusInternalServerError, [put])
            else
              var update := UpdateVideo(s.stored.(videoUrl := Some(VideoUrl(cfg.s3CfDistribution, key))));
              if !s.updateSucceeded then Response(StatusInternalServerError, [put, update])
              else Response(StatusOK, [put, update])
  }

  /** The request names a video and carries a valid token. */
  predicate Authenticated(s: VideoUploadSteps) {
    s.idParsed && s.tokenFound && s.jwtValid
  }

  /** ... and the video exists and belongs to the token's user. */
  predicate OwnerVerified(s: VideoUploadSteps) {
    Authenticated(s) && s.videoFetched && s.stored.userId == s.userId
  }

  /** ... and the form carries an MP4 file. */
  predicate AcceptedUpload(s: VideoUploadSteps) {
    OwnerVerified(s) && s.formFileFound && s.mediaTypeParsed && s.mediaType == Mp4
  }

  /** ... and the file was staged, inspected, rewritten and reopened. */
  predicate Prepared(s: VideoUploadSteps) {
    && AcceptedUpload(s)
    && s.tempCreated && s.bodyCopied
    && s.probe.Probed? && HasVideoStream(s.probe.streams)
    && s.seeked && s.ffmpegSucceeded && s.optimizedOpened
  }

  /** Every check passes and every collaborator succeeds. */
  predicate PipelineSucceeds(s: VideoUploadSteps) {
    Prepared(s) && s.putSucceeded && s.updateSucceeded
  }

  /**
    Each failure before the upload answers with its status and stops: no
    PutObject and no UpdateVideo, whatever the later steps would have done.
   */
  lemma VideoEarlyFailuresStop(cfg: Config, s: VideoUploadSteps)
    requires |s.randBytes| == RandomByteCount
    ensures !s.idParsed ==> UploadVideo(cfg, s) == Response(StatusBadRequest, [])
    ensures s.idParsed && (!s.tokenFound || !s.jwtValid) ==> UploadVideo(cfg, s) == Response(StatusUnauthorized, [])
    ensures Authenticated(s) && !s.videoFetched ==> UploadVideo(cfg, s) == Response(StatusInternalServerError, [])
    ensures Authenticated(s) && s.videoFetched && s.stored.userId != s.userId
            ==> UploadVideo(cfg, s) == Response(StatusUnauthorized, [])
    ensures OwnerVerified(s) && !(s.formFileFound && s.mediaTypeParsed && s.mediaType == Mp4)
            ==> UploadVideo(cfg, s) == Response(StatusBadRequest, [])
    ensures AcceptedUpload(s) && !Prepared(s) ==> UploadVideo(cfg, s) == Response(StatusInternalServerError, [])
  {
  }

  /**
    The failures after the upload was attempted: a failed PutObject answers
    500 with the upload as the only effect; a failed UpdateVideo answers 500
    when the object is already in S3.
   */
  lemma VideoLateFailures(cfg: Config, s: VideoUploadSteps)
    requires |s.randBytes| == RandomByteCount
    requires Prepared(s)
    ensures var put := PutObject(cfg.s3Bucket, VideoKey(AspectRatioPrefix(s.probe).prefix, s.randBytes),
                                 s.tempPath + FastStartSuffix, Mp4);
            var update := UpdateVideo(s.stored.(videoUrl := Some(VideoUrl(cfg.s3CfDistribution, put.key))));
            && (!s.putSucceeded ==> UploadVideo(cfg, s) == Response(StatusInternalServerError, [put]))
            && (s.putSucceeded && !s.updateSucceeded ==> UploadVideo(cfg, s) == Response(StatusInternalServerError, [put, update]))
            && (s.putSucceeded && s.updateSucceeded ==> UploadVideo(cfg, s) == Response(StatusOK, [put, update]))
  {
  }

  /** A file without a video stream is an internal error, and nothing is uploaded. */
  lemma NoVideoStreamStops(cfg: Config, s: VideoUploadSteps)
    requires |s.randBytes| == RandomByteCount
    requires AcceptedUpload(s) && s.tempCreated && s.bodyCopied
    requires s.probe.Probed?
    requires forall i :: 0 <= i < |s.probe.streams| ==> s.probe.streams[i].codecType != "video"
    ensures UploadVideo(cfg, s) == Response(StatusInternalServerError, [])
  {
  }

  /**
    On success the stored URL is https://<distribution>/<orientation>/<43
    URL-safe characters>.mp4, the orientation being the one of the first
    video stream, and the key in it gives back the prefix and the random
    bytes.
   */
  lemma VideoUrlCarriesOrientation(cfg: Config, s: VideoUploadSteps, first: int)
    requires |s.randBytes| == RandomByteCount
    requires UploadVideo(cfg, s).status == StatusOK
    requires s.probe.Probed? && FirstVideoAt(s.probe.streams, first)
    ensures var r := UploadVideo(cfg, s);
            var orientation := OrientationOf(s.probe.streams[first].displayAspectRatio);
            var key := orientation + "/" + Encode(UrlSafe, s.randBytes) + ".mp4";
            && r.effects[0].key == key
            && r.effects[1].record.videoUrl == Some("https://" + cfg.s3CfDistribution + "/" + key)
            && ParseVideoKey(key) == Some((orientation, s.randBytes))
  {
    var orientation := OrientationOf(s.probe.streams[first].displayAspectRatio);
    VideoKeyRoundTrip(orientation, s.randBytes);
  }
}
