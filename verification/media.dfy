/**
  What the video handler learns from, and does with, the external media
  tools: the orientation prefix chosen from the streams `ffprobe` reports
  (`getVideoAspectRationPrefix`) and the output path of the `ffmpeg`
  fast-start rewrite (`processVideoForFastStart`). The tools themselves are
  not modelled: their outcomes arrive as values.
 */
module Media {
  import opened Wrappers

  /** One entry of the `streams` array of ffprobe's JSON output. */
  datatype Stream = Stream(displayAspectRatio: string, width: int, height: int, codecType: string)

  /** What running ffprobe and decoding its JSON output produced. */
  datatype ProbeOutcome =
    | ToolFailed                      // the ffprobe process failed to run or exited non-zero
    | MalformedOutput                 // its output did not decode as JSON
    | Probed(streams: seq<Stream>)

  datatype ProbeError = RunError | DecodeError | NoVideoStream

  /** Go's `(string, error)` result of getVideoAspectRationPrefix. */
  datatype PrefixResult = PrefixResult(prefix: string, err: Option<ProbeError>)

  const Landscape: string := "landscape"
  const Portrait: string := "portrait"
  const Other: string := "other"

  predicate IsOrientation(p: string) {
    p == Landscape || p == Portrait || p == Other
  }

  predicate IsVideo(st: Stream) {
    st.codecType == "video"
  }

  predicate HasVideoStream(streams: seq<Stream>) {
    exists i :: 0 <= i < |streams| && IsVideo(streams[i])
  }

  /** `i` is the index of the first video stream. */
  predicate FirstVideoAt(streams: seq<Stream>, i: int) {
    && 0 <= i < |streams|
    && IsVideo(streams[i])
    && forall j :: 0 <= j < i ==> !IsVideo(streams[j])
  }

  /** The switch on the display aspect ratio of the first video stream. */
  function OrientationOf(ratio: string): (p: string)
    ensures IsOrientation(p)
    ensures p == Landscape <==> ratio == "16:9"
    ensures p == Portrait <==> ratio == "9:16"
  {
    if ratio == "16:9" then Landscape
    else if ratio == "9:16" then Portrait
    else Other
  }

  /**
    The loop over the decoded streams: the first stream whose codec type is
    "video" decides, and with no video stream the answer is "other" together
    with an error.
   */
  function ClassifyStreams(streams: seq<Stream>): (r: PrefixResult)
    ensures IsOrientation(r.prefix)
    ensures r.err.None? <==> HasVideoStream(streams)
    ensures r.err.Some? ==> r == PrefixResult(Other, Some(NoVideoStream))
    ensures forall i :: FirstVideoAt(streams, i) ==> r.prefix == OrientationOf(streams[i].displayAspectRatio)
    decreases |streams|
  {
    if |streams| == 0 then PrefixResult(Other, Some(NoVideoStream))
    else if IsVideo(streams[0]) then PrefixResult(OrientationOf(streams[0].displayAspectRatio), None)
    else
      var r := ClassifyStreams(streams[1..]);
      assert forall i :: FirstVideoAt(streams, i) ==> i >= 1 && FirstVideoAt(streams[1..], i - 1);
      assert HasVideoStream(streams) ==> HasVideoStream(streams[1..]) by {
        if HasVideoStream(streams) {
          var i :| 0 <= i < |streams| && IsVideo(streams[i]);
          assert streams[1..][i - 1] == streams[i];
        }
      }
      r
  }

  /** getVideoAspectRationPrefix with the tool run and the JSON decoding as its input. */
  function AspectRatioPrefix(probe: ProbeOutcome): (r: PrefixResult)
    ensures r.err.None? <==> probe.Probed? && HasVideoStream(probe.streams)
    ensures r.err.None? ==> IsOrientation(r.prefix)
    ensures probe.Probed? ==>
              forall i :: FirstVideoAt(probe.streams, i) ==> r.prefix == OrientationOf(probe.streams[i].displayAspectRatio)
    ensures probe.Probed? && !HasVideoStream(probe.streams) ==> r == PrefixResult(Other, Some(NoVideoStream))
    ensures probe.ToolFailed? ==> r == PrefixResult("", Some(RunError))
    ensures probe.MalformedOutput? ==> r == PrefixResult("", Some(DecodeError))
  {
    match probe
    case ToolFailed => PrefixResult("", Some(RunError))
    case MalformedOutput => PrefixResult("", Some(DecodeError))
    case Probed(streams) => ClassifyStreams(streams)
  }

  /** The `for ... range` loop of getVideoAspectRationPrefix, statement by statement. */
  method FindAspectRatioPrefix(streams: seq<Stream>) returns (prefix: string, err: Option<ProbeError>)
    ensures IsOrientation(prefix)
    ensures err.None? <==> HasVideoStream(streams)
    ensures err.Some? ==> prefix == Other && err == Some(NoVideoStream)
    ensures forall i :: FirstVideoAt(streams, i) ==> prefix == OrientationOf(streams[i].displayAspectRatio)
  {
    var k := 0;
    while k < |streams|
      invariant 0 <= k <= |streams|
      invariant forall j :: 0 <= j < k ==> !IsVideo(streams[j])
    {
      if streams[k].codecType == "video" {
        assert FirstVideoAt(streams, k);
        match streams[k].displayAspectRatio {
          case "16:9" => return Landscape, None;
          case "9:16" => return Portrait, None;
          case _ => return Other, None;
        }
      }
      k := k + 1;
    }
    return Other, Some(NoVideoStream);
  }

  /** Where there is a video stream, there is a first one. */
  lemma {:induction false} FirstVideoExists(streams: seq<Stream>) returns (i: int)
    requires HasVideoStream(streams)
    ensures FirstVideoAt(streams, i)
    decreases |streams|
  {
    if IsVideo(streams[0]) {
      i := 0;
    } else {
      var k :| 0 <= k < |streams| && IsVideo(streams[k]);
      assert streams[1..][k - 1] == streams[k];
      var j := FirstVideoExists(streams[1..]);
      i := j + 1;
    }
  }

  /** Only the first video stream decides: whatever follows it never matters. */
  lemma {:induction false} LaterStreamsIgnored(streams: seq<Stream>, later: seq<Stream>)
    requires HasVideoStream(streams)
    ensures ClassifyStreams(streams + later) == ClassifyStreams(streams)
    decreases |streams|
  {
    var all := streams + later;
    assert |all| > 0 && all[0] == streams[0];
    if !IsVideo(streams[0]) {
      var i :| 0 <= i < |streams| && IsVideo(streams[i]);
      assert streams[1..][i - 1] == streams[i];
      assert HasVideoStream(streams[1..]);
      LaterStreamsIgnored(streams[1..], later);
      assert all[1..] == streams[1..] + later;
    }
  }

  /** Non-video streams in front are skipped. */
  lemma {:induction false} NonVideoStreamsSkipped(skipped: seq<Stream>, streams: seq<Stream>)
    requires forall i :: 0 <= i < |skipped| ==> !IsVideo(skipped[i])
    ensures ClassifyStreams(skipped + streams) == ClassifyStreams(streams)
    decreases |skipped|
  {
    if |skipped| > 0 {
      assert (skipped + streams)[0] == skipped[0];
      assert (skipped + streams)[1..] == skipped[1..] + streams;
      NonVideoStreamsSkipped(skipped[1..], streams);
    } else {
      assert skipped + streams == streams;
    }
  }

  /** The ffmpeg output path: the input path with ".processing" appended. */
  const FastStartSuffix: string := ".processing"

  /**
    processVideoForFastStart with the ffmpeg run as its input: on success the
    new path, on failure Go's empty path and an error (here None).
   */
  function ProcessForFastStart(path: string, ffmpegSucceeded: bool): (r: Option<string>)
    ensures r.Some? <==> ffmpegSucceeded
    ensures r.Some? ==> |r.value| == |path| + |FastStartSuffix| && r.value[..|path|] == path
    ensures r.Some? ==> r.value[|path|..] == FastStartSuffix
  {
    if ffmpegSucceeded then Some(path + FastStartSuffix) else None
  }

  /** The output never overwrites the input, and the input is recoverable from it. */
  lemma FastStartOutputIsNewFile(path: string)
    ensures ProcessForFastStart(path, true).value != path
    ensures var out := ProcessForFastStart(path, true).value;
            out[..|out| - |FastStartSuffix|] == path
  {
    var out := ProcessForFastStart(path, true).value;
    assert |out| != |path|;
  }
}
