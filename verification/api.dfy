/**
  What the two upload handlers share: HTTP status codes, the video record
  kept by the database collaborator, the in-memory thumbnail entry, the
  handler configuration, and the side effects a handler run can cause.
 */
module Api {
  import opened Wrappers
  import opened Base64

  /** An HTTP status code as passed to `respondWithError` / `respondWithJSON`. */
  type Status = int

  const StatusOK: Status := 200
  const StatusBadRequest: Status := 400
  const StatusUnauthorized: Status := 401
  const StatusUnsupportedMediaType: Status := 415
  const StatusUnprocessableEntity: Status := 422
  const StatusInternalServerError: Status := 500

  /** A parsed `uuid.UUID`, abstracted to a number. */
  type Uuid = nat

  /** The fields of a video record the handlers read or write. */
  datatype Video = Video(id: Uuid, userId: Uuid, thumbnailUrl: Option<string>, videoUrl: Option<string>)

  /** An entry of the process-wide `videoThumbnails` map. */
  datatype Thumbnail = Thumbnail(mediaType: string, data: seq<byte>)

  /** The fields of `apiConfig` the handlers use. */
  datatype Config = Config(s3Bucket: string, s3CfDistribution: string, port: string, assetsRoot: string)

  /**
    A call that changes state outside the handler, in the order made. Each is
    recorded when it is attempted; whether it succeeded is an input of the run.
   */
  datatype Effect =
    | PutObject(bucket: string, key: string, bodyPath: string, contentType: string)
    | StoreThumbnail(videoId: Uuid, thumbnail: Thumbnail)
    | WriteFile(path: string, data: seq<byte>)
    | UpdateVideo(record: Video)
}
