/** `handle_media` of main.py: the join gate, the choice of attachment
    (audio before video before document), the 100 MiB size guard, the
    names derived from the MIME type, the single encoder call, the reply
    and the removal of both temporary files. */
module MainHandler {
  import opened Text
  import opened Telegram
  import opened Encoder
  import opened Storage
  import opened JoinGate

  const MaxSize: int := 100 * 1024 * 1024
  const MainPromptText: string := "Please join all the required channels to continue:"
  const AskText: string := "Please send an audio, video, or document file."
  const TooLargeText: string := "File is too large (max 100MB). Please send a smaller file."
  const WaitText: string := "Compressing your file, please wait..."

  /** `message.audio or message.video or message.document`: the reverse of
      the order bot.py uses. */
  function PickMainMedia(msg: Message): (m: Option<Media>)
    ensures m.None? <==> msg.document.None? && msg.video.None? && msg.audio.None?
    ensures msg.audio.Some? ==> m == msg.audio
    ensures msg.audio.None? && msg.video.Some? ==> m == msg.video
    ensures msg.audio.None? && msg.video.None? ==> m == msg.document
    ensures WellFormed(msg) && m.Some? ==> IsFileId(m.value.fileUniqueId)
  {
    FirstPresent(msg.audio, msg.video, msg.document)
  }

  /** Where main.py's handler goes once it has a file: the size comparison
      first (a missing size makes `None > int` raise), then the MIME test;
      there is no unsupported branch. */
  datatype MainRoute = SizeUnknown | TooLarge | EncodeAudio | EncodeVideo

  function MainRouteOf(size: Option<int>, mime: string): MainRoute {
    if size.None? then SizeUnknown
    else if size.value > MaxSize then TooLarge
    else if Contains(mime, "audio") then EncodeAudio
    else EncodeVideo
  }

  /** Only a file strictly larger than 100 MiB is refused; exactly 100 MiB
      is accepted. A known size under the limit is always encoded, as
      audio exactly when the MIME type mentions "audio". */
  lemma SizeGuard(size: int, mime: string)
    ensures MainRouteOf(Some(size), mime) == TooLarge <==> size > 104857600
    ensures MainRouteOf(Some(104857600), mime) != TooLarge
    ensures MainRouteOf(Some(104857601), mime) == TooLarge
    ensures size <= MaxSize ==>
      (MainRouteOf(Some(size), mime) == EncodeAudio <==> Contains(mime, "audio"))
    ensures size <= MaxSize ==>
      (MainRouteOf(Some(size), mime) == EncodeVideo <==> !Contains(mime, "audio"))
  {
  }

  /** `mime.split('/')[-1]`. */
  function MainInputExt(mime: string): string {
    LastField(mime, '/')
  }

  /** `downloads/{file_id}.{input_ext}`. */
  function MainInputPath(m: Media): string {
    "downloads/" + m.fileUniqueId + "." + MainInputExt(MimeOf(m))
  }

  /** `compressed/{file_id}.mp3` for audio, otherwise `.mp4`. */
  function MainOutputPath(m: Media): string {
    if Contains(MimeOf(m), "audio") then "compressed/" + m.fileUniqueId + ".mp3"
    else "compressed/" + m.fileUniqueId + ".mp4"
  }

  /** The one encoder call: audio at 64k, or the libx264 video encode. */
  function MainCall(m: Media): (c: EncoderCall)
    ensures c.input == MainInputPath(m) && c.output == MainOutputPath(m)
  {
    if Contains(MimeOf(m), "audio") then MainAudioCall(MainInputPath(m), MainOutputPath(m))
    else MainVideoCall(MainInputPath(m), MainOutputPath(m))
  }

  /** `send_func(InputFile(output_path), caption=f"via {via}")`. */
  function MainSend(m: Media, via: string): Reply {
    if Contains(MimeOf(m), "audio") then SendAudio(MainOutputPath(m), "via " + via)
    else SendVideo(MainOutputPath(m), "via " + via)
  }

  /** The input extension is the text after the last `/` of the MIME type
      (the whole type when it has none), so it holds no `/`; without a
      MIME type it is `octet-stream`. */
  lemma MainInputExtShape(mime: string)
    ensures var e := MainInputExt(mime);
      && |e| <= |mime| && e == mime[|mime| - |e|..] && '/' !in e
      && (|e| < |mime| ==> mime[|mime| - |e| - 1] == '/')
    ensures MainInputExt("application/octet-stream") == "octet-stream"
    ensures MainInputExt("audio/mpeg") == "mpeg"
  {
    LastFieldIsSuffix(mime, '/');
    OctetStreamExt();
    MpegExt();
  }

  lemma OctetStreamExt()
    ensures MainInputExt("application/octet-stream") == "octet-stream"
  {
    var mime := "application/octet-stream";
    LastFieldIsSuffix(mime, '/');
    var e := MainInputExt(mime);
    assert mime[11] == '/';
    assert forall k :: 12 <= k < |mime| ==> mime[k] != '/';
  }

  lemma MpegExt()
    ensures MainInputExt("audio/mpeg") == "mpeg"
  {
    var mime := "audio/mpeg";
    LastFieldIsSuffix(mime, '/');
    var e := MainInputExt(mime);
    assert mime[5] == '/';
    assert forall k :: 6 <= k < |mime| ==> mime[k] != '/';
  }

  /** The three "audio" tests of the handler agree: the output name, the
      encoder parameters and the kind of reply are all audio, or all
      video. */
  lemma MainBranchesAgree(m: Media, via: string)
    ensures var audio := Contains(MimeOf(m), "audio");
      var out := MainOutputPath(m);
      && (audio ==> && out == "compressed/" + m.fileUniqueId + ".mp3"
                    && MainCall(m).params == AudioParams("64k")
                    && MainSend(m, via) == SendAudio(out, "via " + via))
      && (!audio ==> && out == "compressed/" + m.fileUniqueId + ".mp4"
                     && MainCall(m).params == VideoParams(None, Some("libx264"), 28, "veryfast", "aac", "64k")
                     && MainSend(m, via) == SendVideo(out, "via " + via))
  {
  }

  /** The download lives in `downloads/` and the output in `compressed/`,
      so they are different files. */
  lemma MainPathsDiffer(m: Media)
    ensures "downloads/" <= MainInputPath(m) && "compressed/" <= MainOutputPath(m)
    ensures MainInputPath(m) != MainOutputPath(m)
  {
    assert MainInputPath(m)[0] == 'd';
    assert MainOutputPath(m)[0] == 'c';
  }

  /** Where main.py's handler goes for a message. */
  datatype MainStage = Refused | NoFile | Checked(media: Media, route: MainRoute)

  function MainStageOf(msg: Message, channels: seq<string>, lookup: string -> Lookup): MainStage {
    if !GateOpen(channels, lookup) then Refused
    else match PickMainMedia(msg)
      case None => NoFile
      case Some(m) => Checked(m, MainRouteOf(m.fileSize, MimeOf(m)))
  }

  /** main.py `handle_media`. `channels` and `via` are the configuration
      and `lookup` answers membership queries. `crashed` means an exception
      escaped (the size comparison on a file without a size). */
  method MainHandleMedia(disk: Disk, msg: Message, channels: seq<string>, lookup: string -> Lookup, via: string)
    returns (replies: seq<Reply>, calls: seq<EncoderCall>, crashed: bool)
    modifies disk
    ensures var st := MainStageOf(msg, channels, lookup);
      st.Refused? ==>
        && replies == [Prompt(MainPromptText, JoinButtons(NotJoined(channels, lookup)))]
        && calls == [] && !crashed && disk.files == old(disk.files)
    ensures var st := MainStageOf(msg, channels, lookup);
      st.NoFile? ==> replies == [Text(AskText)] && calls == [] && !crashed && disk.files == old(disk.files)
    ensures var st := MainStageOf(msg, channels, lookup);
      st.Checked? && st.route == SizeUnknown ==>
        replies == [] && calls == [] && crashed && disk.files == old(disk.files)
    ensures var st := MainStageOf(msg, channels, lookup);
      st.Checked? && st.route == TooLarge ==>
        replies == [Text(TooLargeText)] && calls == [] && !crashed && disk.files == old(disk.files)
    ensures var st := MainStageOf(msg, channels, lookup);
      st.Checked? && (st.route == EncodeAudio || st.route == EncodeVideo) ==>
        var m := st.media;
        && replies == [Text(WaitText), MainSend(m, via)]
        && calls == [MainCall(m)] && !crashed
        && disk.files == old(disk.files) - {MainInputPath(m), MainOutputPath(m)}
    ensures var st := MainStageOf(msg, channels, lookup);
      st.Checked? && (st.route == EncodeAudio || st.route == EncodeVideo)
        && MainInputPath(st.media) !in old(disk.files) && MainOutputPath(st.media) !in old(disk.files) ==>
        disk.files == old(disk.files)
  {
    var allowed, prompt := CheckJoin(channels, lookup, MainPromptText);
    if !allowed {
      return [prompt.value], [], false;
    }
    var media := PickMainMedia(msg);
    if media.None? {
      return [Text(AskText)], [], false;
    }
    var m := media.value;
    if m.fileSize.None? {
      return [], [], true;
    }
    if m.fileSize.value > MaxSize {
      return [Text(TooLargeText)], [], false;
    }
    replies := [Text(WaitText)];
    var inputPath := MainInputPath(m);
    var outputPath := MainOutputPath(m);
    MainPathsDiffer(m);
    disk.Write(inputPath);
    var call := MainCall(m);
    calls := [call];
    disk.Write(call.output);
    replies := replies + [MainSend(m, via)];
    disk.Remove(inputPath);
    disk.Remove(outputPath);
    crashed := false;
  }
}
