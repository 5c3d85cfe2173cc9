/** The parameters the bot passes to the external `ffmpeg` process. The
    process is not modelled; a call is recorded as the input path, the
    output path and the options chosen. */
module Encoder {
  import opened Telegram

  /** The options of one `ffmpeg` invocation. `scale` is the `-vf scale=`
      filter and `vcodec` the `-vcodec` option, each absent when not given. */
  datatype Params =
    | AudioParams(audioBitrate: string)
    | VideoParams(scale: Option<string>, vcodec: Option<string>, crf: nat, preset: string,
                  audioCodec: string, audioBitrate: string)

  datatype EncoderCall = EncoderCall(input: string, output: string, params: Params)

  /** The resolution table of `compress_video`. */
  const ScaleTable: map<string, string> :=
    map["360" := "640:360", "480" := "854:480", "720" := "1280:720", "1080" := "1920:1080"]

  /** The fallback scale for a resolution not in the table. */
  const DefaultScale: string := "854:480"

  /** `scale` of `compress_video`: the table entry, or the 480p scale. */
  function ScaleFor(resolution: string): (scale: string)
    ensures scale in ScaleTable.Values
    ensures resolution !in ScaleTable ==> scale == ScaleTable["480"]
  {
    assert ScaleTable["480"] == DefaultScale;
    if resolution in ScaleTable then ScaleTable[resolution] else DefaultScale
  }

  /** The four table rows and the fallback, each scale ending in the
      requested height. */
  lemma ScaleRows(resolution: string)
    ensures ScaleFor("360") == "640:360" && ScaleFor("480") == "854:480"
    ensures ScaleFor("720") == "1280:720" && ScaleFor("1080") == "1920:1080"
    ensures resolution in ScaleTable ==>
      var s := ScaleFor(resolution);
      |resolution| < |s| && s[|s| - |resolution|..] == resolution && s[|s| - |resolution| - 1] == ':'
  {
  }

  /** bot.py `compress_audio(input, output, bitrate)`. */
  function CompressAudio(input: string, output: string, bitrate: string): (c: EncoderCall)
    ensures c.input == input && c.output == output
    ensures c.params.AudioParams? && c.params.audioBitrate == bitrate
  {
    EncoderCall(input, output, AudioParams(bitrate))
  }

  /** bot.py `compress_video(input, output, resolution)`: the table scale,
      CRF 28, preset veryfast, AAC audio at 128k, default video codec. */
  function CompressVideo(input: string, output: string, resolution: string): (c: EncoderCall)
    ensures c.input == input && c.output == output
    ensures c.params.VideoParams? && c.params.scale == Some(ScaleFor(resolution))
    ensures c.params.vcodec.None? && c.params.crf == 28 && c.params.preset == "veryfast"
    ensures c.params.audioCodec == "aac" && c.params.audioBitrate == "128k"
  {
    EncoderCall(input, output, VideoParams(Some(ScaleFor(resolution)), None, 28, "veryfast", "aac", "128k"))
  }

  /** main.py audio encode: audio bitrate 64k. */
  function MainAudioCall(input: string, output: string): (c: EncoderCall)
    ensures c.input == input && c.output == output
    ensures c.params == AudioParams("64k")
  {
    EncoderCall(input, output, AudioParams("64k"))
  }

  /** main.py video encode: libx264, CRF 28, preset veryfast, AAC audio at
      64k, no scaling. */
  function MainVideoCall(input: string, output: string): (c: EncoderCall)
    ensures c.input == input && c.output == output
    ensures c.params.VideoParams? && c.params.scale.None? && c.params.vcodec == Some("libx264")
    ensures c.params.crf == 28 && c.params.preset == "veryfast"
    ensures c.params.audioCodec == "aac" && c.params.audioBitrate == "64k"
  {
    EncoderCall(input, output, VideoParams(None, Some("libx264"), 28, "veryfast", "aac", "64k"))
  }

  /** The files a sequence of encoder calls writes. */
  function Outputs(calls: seq<EncoderCall>): set<string> {
    if |calls| == 0 then {}
    else Outputs(calls[..|calls| - 1]) + {calls[|calls| - 1].output}
  }

  /** A file is written exactly when it is the output of one of the calls. */
  lemma {:induction false} OutputsMembers(calls: seq<EncoderCall>, p: string)
    ensures p in Outputs(calls) <==> exists i :: 0 <= i < |calls| && calls[i].output == p
  {
    if |calls| > 0 {
      var init := calls[..|calls| - 1];
      OutputsMembers(init, p);
      assert forall i :: 0 <= i < |init| ==> init[i] == calls[i];
    }
  }

  /** Running two batches writes the files of each. */
  lemma {:induction false} OutputsConcat(a: seq<EncoderCall>, b: seq<EncoderCall>)
    ensures Outputs(a + b) == Outputs(a) + Outputs(b)
  {
    if |b| == 0 {
      assert a + b == a;
    } else {
      var b' := b[..|b| - 1];
      OutputsConcat(a, b');
      assert (a + b)[..|a + b| - 1] == a + b';
    }
  }
}
